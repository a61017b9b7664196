/**
 * The slices of the website's global store that hold events, races, fleets, users
 * and notifications (the store files under website/src/store). Each slice is an object whose
 * list the reducers replace, upsert into by key or filter, and whose `isLoading`
 * flag they set; here each slice is a class with those fields.
 */
module Stores {
  import opened Wrappers
  import opened KeyedList

  datatype Event = Event(eventId: string, eventName: string, eventDate: Option<string>, fleetId: Option<string>)

  datatype Race = Race(raceId: string, eventId: string, trackId: string, userId: string)

  datatype Fleet = Fleet(fleetId: string, fleetName: string, carIds: seq<string>)

  datatype User = User(sub: string, username: string, email: Option<string>)

  datatype NotificationType = Success | Error | Warning | Info

  /** A flash notification; `loading` shows a spinner until the item's next notification replaces it. */
  datatype Notification = Notification(
    id: string, kind: NotificationType, header: Option<string>, content: Option<string>,
    loading: bool, dismissible: Option<bool>, dismissLabel: Option<string>)

  function EventKey(e: Event): string { e.eventId }
  function RaceKey(r: Race): string { r.raceId }
  function FleetKey(f: Fleet): string { f.fleetId }
  function UserKey(u: User): string { u.sub }
  function NotificationKey(n: Notification): string { n.id }

  /**
   * The `forEach` of `NEW_RACES` and `ADD_RACES`: each race overwrites the entry with
   * its `raceId` in place or is pushed at the end.
   */
  method UpsertEach(current: seq<Race>, racesToAdd: seq<Race>) returns (updated: seq<Race>)
    ensures updated == UpsertAll(current, RaceKey, racesToAdd)
    ensures KeysUnique(current, RaceKey) ==> KeysUnique(updated, RaceKey)
  {
    updated := current;
    var i := 0;
    while i < |racesToAdd|
      invariant 0 <= i <= |racesToAdd|
      invariant updated == UpsertAll(current, RaceKey, racesToAdd[..i])
      invariant KeysUnique(current, RaceKey) ==> KeysUnique(updated, RaceKey)
    {
      var raceToAdd := racesToAdd[i];
      var raceIndex := FindIndex(updated, RaceKey, raceToAdd.raceId);
      if KeysUnique(current, RaceKey) {
        UpsertKeepsUnique(updated, RaceKey, raceToAdd);
      }
      if raceIndex == -1 {
        updated := updated + [raceToAdd];
      } else {
        updated := updated[raceIndex := raceToAdd];
      }
      UpsertAllSnoc(current, RaceKey, racesToAdd, i);
      i := i + 1;
    }
    assert racesToAdd[..|racesToAdd|] == racesToAdd;
  }

  class EventsStore {
    var events: seq<Event>
    var isLoading: bool

    /** The initial slice: no events, loading. */
    constructor ()
      ensures events == [] && isLoading
    {
      events := [];
      isLoading := true;
    }

    /** `ADD_EVENTS`: the list is replaced as a whole. */
    method AddEvents(newEvents: seq<Event>)
      modifies this
      ensures events == newEvents && isLoading == old(isLoading)
    {
      events := newEvents;
    }

    /** `UPDATE_EVENT`: overwrite the event with the same `eventId`, or push it. */
    method UpdateEvent(event: Event)
      modifies this
      ensures events == Upsert(old(events), EventKey, event) && isLoading == old(isLoading)
      ensures KeysUnique(old(events), EventKey) ==> KeysUnique(events, EventKey)
    {
      var index := FindIndex(events, EventKey, event.eventId);
      if KeysUnique(events, EventKey) {
        UpsertKeepsUnique(events, EventKey, event);
      }
      if index == -1 {
        events := events + [event];
      } else {
        events := events[index := event];
      }
    }

    /** `DELETE_EVENTS`: keep the events whose id is not listed. */
    method DeleteEvents(eventIdsToDelete: seq<string>)
      modifies this
      ensures events == RemoveKeys(old(events), EventKey, eventIdsToDelete) && isLoading == old(isLoading)
    {
      events := RemoveKeys(events, EventKey, eventIdsToDelete);
    }

    /** `EVENTS_IS_LOADING`. */
    method SetIsLoading(loading: bool)
      modifies this
      ensures isLoading == loading && events == old(events)
    {
      isLoading := loading;
    }
  }

  class RacesStore {
    var races: seq<Race>
    var isLoading: bool

    constructor ()
      ensures races == [] && isLoading
    {
      races := [];
      isLoading := true;
    }

    /** `NEW_RACES`: the given races upserted one by one into an empty list. */
    method NewRaces(racesToAdd: seq<Race>)
      modifies this
      ensures races == UpsertAll([], RaceKey, racesToAdd) && isLoading == old(isLoading)
      ensures KeysUnique(races, RaceKey)
    {
      races := UpsertEach([], racesToAdd);
    }

    /** `ADD_RACES`: the given races upserted one by one into a copy of the list. */
    method AddRaces(racesToAdd: seq<Race>)
      modifies this
      ensures races == UpsertAll(old(races), RaceKey, racesToAdd) && isLoading == old(isLoading)
    {
      races := UpsertEach(races, racesToAdd);
    }

    /** `UPDATE_RACE`: overwrite the race with the same `raceId`, or push it. */
    method UpdateRace(race: Race)
      modifies this
      ensures races == Upsert(old(races), RaceKey, race) && isLoading == old(isLoading)
    {
      var raceIndex := FindIndex(races, RaceKey, race.raceId);
      if raceIndex == -1 {
        races := races + [race];
      } else {
        races := races[raceIndex := race];
      }
    }

    /** `DELETE_RACES`: keep the races whose id is not listed. */
    method DeleteRaces(raceIdsToDelete: seq<string>)
      modifies this
      ensures races == RemoveKeys(old(races), RaceKey, raceIdsToDelete) && isLoading == old(isLoading)
    {
      races := RemoveKeys(races, RaceKey, raceIdsToDelete);
    }

    /** `RACES_IS_LOADING`. */
    method SetIsLoading(loading: bool)
      modifies this
      ensures isLoading == loading && races == old(races)
    {
      isLoading := loading;
    }
  }

  class FleetsStore {
    var fleets: seq<Fleet>
    var isLoading: bool

    constructor ()
      ensures fleets == [] && isLoading
    {
      fleets := [];
      isLoading := true;
    }

    /** `ADD_FLEETS`: the list is replaced as a whole. */
    method AddFleets(newFleets: seq<Fleet>)
      modifies this
      ensures fleets == newFleets && isLoading == old(isLoading)
    {
      fleets := newFleets;
    }

    /** `UPDATE_FLEET`: overwrite the fleet with the same `fleetId`, or push it. */
    method UpdateFleet(fleet: Fleet)
      modifies this
      ensures fleets == Upsert(old(fleets), FleetKey, fleet) && isLoading == old(isLoading)
    {
      var index := FindIndex(fleets, FleetKey, fleet.fleetId);
      if index == -1 {
        fleets := fleets + [fleet];
      } else {
        fleets := fleets[index := fleet];
      }
    }

    /** `DELETE_FLEETS`: keep the fleets whose id is not listed. */
    method DeleteFleets(fleetIdsToDelete: seq<string>)
      modifies this
      ensures fleets == RemoveKeys(old(fleets), FleetKey, fleetIdsToDelete) && isLoading == old(isLoading)
    {
      fleets := RemoveKeys(fleets, FleetKey, fleetIdsToDelete);
    }

    /** `FLEETS_IS_LOADING`. */
    method SetIsLoading(loading: bool)
      modifies this
      ensures isLoading == loading && fleets == old(fleets)
    {
      isLoading := loading;
    }
  }

  class UsersStore {
    var users: seq<User>
    var isLoading: bool

    constructor ()
      ensures users == [] && isLoading
    {
      users := [];
      isLoading := true;
    }

    /** `ADD_USERS`: the list is replaced as a whole. */
    method AddUsers(newUsers: seq<User>)
      modifies this
      ensures users == newUsers && isLoading == old(isLoading)
    {
      users := newUsers;
    }

    /** `UPDATE_USER`: overwrite the user with the same `sub`, or push it. */
    method UpdateUser(user: User)
      modifies this
      ensures users == Upsert(old(users), UserKey, user) && isLoading == old(isLoading)
    {
      var index := FindIndex(users, UserKey, user.sub);
      if index == -1 {
        users := users + [user];
      } else {
        users := users[index := user];
      }
    }

    /** `DELETE_USER`: keep the users whose `sub` differs from the given user's. */
    method DeleteUser(user: User)
      modifies this
      ensures users == RemoveKeys(old(users), UserKey, [user.sub]) && isLoading == old(isLoading)
    {
      users := RemoveKeys(users, UserKey, [user.sub]);
    }

    /** `USERS_IS_LOADING`. */
    method SetIsLoading(loading: bool)
      modifies this
      ensures isLoading == loading && users == old(users)
    {
      isLoading := loading;
    }
  }

  class NotificationsStore {
    var notifications: seq<Notification>

    /** The initial slice holds no notification. */
    constructor ()
      ensures notifications == []
    {
      notifications := [];
    }

    /** `ADD_NOTIFICATION`: on a copy, overwrite the notification with the same id or push it. */
    method AddNotification(notification: Notification)
      modifies this
      ensures notifications == Upsert(old(notifications), NotificationKey, notification)
      ensures KeysUnique(old(notifications), NotificationKey) ==> KeysUnique(notifications, NotificationKey)
    {
      var index := FindIndex(notifications, NotificationKey, notification.id);
      if KeysUnique(notifications, NotificationKey) {
        UpsertKeepsUnique(notifications, NotificationKey, notification);
      }
      if index > -1 {
        notifications := notifications[index := notification];
      } else {
        notifications := notifications + [notification];
      }
    }

    /** `DISMISS_NOTIFICATION`: drop every notification with the given id. */
    method DismissNotification(id: string)
      modifies this
      ensures notifications == RemoveKeys(old(notifications), NotificationKey, [id])
      ensures !HasKey(old(notifications), NotificationKey, id) ==> notifications == old(notifications)
    {
      if !HasKey(notifications, NotificationKey, id) {
        RemoveAbsentKeys(notifications, NotificationKey, [id]);
      }
      notifications := RemoveKeys(notifications, NotificationKey, [id]);
    }
  }

  // ----- Properties of the slices' operations -----

  /** Whatever races `NEW_RACES` receives, the resulting race ids are unique. */
  lemma NewRacesUnique(racesToAdd: seq<Race>)
    ensures KeysUnique(UpsertAll([], RaceKey, racesToAdd), RaceKey)
  {
    UpsertAllKeepsUnique([], RaceKey, racesToAdd);
  }

  /** After `NEW_RACES` each id holds its last race in the input, and no other id is present. */
  lemma NewRacesLookup(racesToAdd: seq<Race>, raceId: string)
    ensures Lookup(UpsertAll([], RaceKey, racesToAdd), RaceKey, raceId) == LastWithKey(racesToAdd, RaceKey, raceId)
  {
    UpsertAllLookup([], RaceKey, racesToAdd, raceId);
  }

  /** Dismissing an id no notification has leaves the list as it was. */
  lemma DismissAbsentId(notifications: seq<Notification>, id: string)
    requires !HasKey(notifications, NotificationKey, id)
    ensures RemoveKeys(notifications, NotificationKey, [id]) == notifications
  {
    RemoveAbsentKeys(notifications, NotificationKey, [id]);
  }

  /** After a dismissal no notification carries the dismissed id. */
  lemma {:induction false} DismissRemovesId(notifications: seq<Notification>, id: string)
    ensures !HasKey(RemoveKeys(notifications, NotificationKey, [id]), NotificationKey, id)
  {
    RemoveKeysLookup(notifications, NotificationKey, [id], id);
  }
}
