/**
 * The notifications the website raises around a GraphQL mutation
 * (website/src/hooks/useMutation.ts): the mutation's name tells the kind of item and
 * the action, a request notification is shown while it runs and a response
 * notification replaces it. Translated texts are the message keys with their
 * arguments; `render` stands for the translation function.
 */
module MutationNotifications {
  import opened Wrappers
  import opened Strings
  import opened KeyedList
  import opened Stores

  datatype ItemType = EventItem | UserItem | RaceItem | ModelItem | AssetItem | FleetItem | Unknown

  datatype Action = NoAction | Add | Update | Delete

  datatype Status = SuccessStatus | ErrorStatus

  /** A translation key with the values it interpolates. */
  datatype Message = Message(key: string, itemType: string, itemName: string, errorMessage: Option<string>)

  /** `notificationInfo`; `itemType` holds the label's translation key, or `unknown`. */
  datatype NotificationInfo = NotificationInfo(id: string, kind: ItemType, itemType: string, action: Action, name: string)

  /** `payload.field ?? ''`. */
  function Field(payload: map<string, string>, field: string): string {
    if field in payload then payload[field] else ""
  }

  /** The words looked for in the lower-cased name, in the order they are tried. */
  const ItemWords: seq<string> := ["event", "user", "race", "model", "carlogsasset", "fleet"]

  const ItemKinds: seq<ItemType> := [EventItem, UserItem, RaceItem, ModelItem, AssetItem, FleetItem]

  /** The index of the first word of `words` that `name` includes, or `|words|`. */
  function FirstIncluded(name: string, words: seq<string>): (k: nat)
    ensures k <= |words|
    ensures k < |words| ==> Includes(name, words[k])
    ensures forall j :: 0 <= j < k ==> !Includes(name, words[j])
    decreases |words|
  {
    if words == [] then 0
    else if Includes(name, words[0]) then 0
    else 1 + FirstIncluded(name, words[1..])
  }

  /** The item type: the `if`/`else if` chain on the lower-cased mutation name. */
  function ItemTypeOf(lowerCaseMethod: string): ItemType {
    if Includes(lowerCaseMethod, "event") then EventItem
    else if Includes(lowerCaseMethod, "user") then UserItem
    else if Includes(lowerCaseMethod, "race") then RaceItem
    else if Includes(lowerCaseMethod, "model") then ModelItem
    else if Includes(lowerCaseMethod, "carlogsasset") then AssetItem
    else if Includes(lowerCaseMethod, "fleet") then FleetItem
    else Unknown
  }

  /** The action: `add`, else `update`, else `delete`, by the same kind of test. */
  function ActionOf(lowerCaseMethod: string): Action {
    if Includes(lowerCaseMethod, "add") then Add
    else if Includes(lowerCaseMethod, "update") then Update
    else if Includes(lowerCaseMethod, "delete") then Delete
    else NoAction
  }

  /** The request header for an action. */
  function RequestMessage(action: Action, itemType: string, itemName: string): (m: Option<Message>)
    ensures m.None? <==> action == NoAction
  {
    match action
    case NoAction => None
    case Add => Some(Message("notifications.creating-item", itemType, itemName, None))
    case Update => Some(Message("notifications.updating-item", itemType, itemName, None))
    case Delete => Some(Message("notifications.deleting-item", itemType, itemName, None))
  }

  /** The response header for an action and the mutation's outcome. */
  function ResponseMessage(info: NotificationInfo, status: Status, errorMessage: Option<string>): (m: Option<Message>)
    ensures m.None? <==> info.action == NoAction
    ensures m.Some? ==> m.value.itemType == info.itemType && m.value.itemName == info.name
    ensures m.Some? ==> (m.value.errorMessage.Some? ==> status == ErrorStatus)
  {
    var itemType, itemName := info.itemType, info.name;
    match (info.action, status)
    case (Add, SuccessStatus) => Some(Message("notifications.create-item-success", itemType, itemName, None))
    case (Add, ErrorStatus) => Some(Message("notifications.create-item-error", itemType, itemName, errorMessage))
    case (Update, SuccessStatus) => Some(Message("notifications.update-item-success", itemType, itemName, None))
    case (Update, ErrorStatus) => Some(Message("notifications.update-item-error", itemType, itemName, errorMessage))
    case (Delete, SuccessStatus) => Some(Message("notifications.delete-item-success", itemType, itemName, None))
    case (Delete, ErrorStatus) => Some(Message("notifications.delete-item-error", itemType, itemName, errorMessage))
    case (NoAction, _) => None
  }

  function StatusType(status: Status): NotificationType {
    if status == SuccessStatus then Success else Error
  }

  /** The request's notification: an info text under the item's id, loading until answered. */
  function RequestNotification(id: string, text: string): Notification {
    Notification(id, Info, None, Some(text), true, Some(true), Some("Dismiss message"))
  }

  /** The response's notification: the outcome's text under the item's id, no longer loading. */
  function ResponseNotification(id: string, status: Status, text: string): Notification {
    Notification(id, StatusType(status), None, Some(text), false, Some(true), Some("Dismiss message"))
  }

  /**
   * Where each item type takes its id and name from the payload, and the key of its
   * type label; an unknown item is `common`, with the label `unknown` and no name.
   */
  predicate FieldsFromPayload(info: NotificationInfo, payload: map<string, string>) {
    match info.kind
    case EventItem =>
      info.id == Field(payload, "eventName") && info.name == Field(payload, "eventName")
      && info.itemType == "notifications.item-type-event"
    case UserItem =>
      info.id == Field(payload, "username") && info.name == Field(payload, "username")
      && info.itemType == "notifications.item-type-user"
    case RaceItem =>
      info.id == Field(payload, "raceId") && info.name == Field(payload, "raceId")
      && info.itemType == "notifications.item-type-race"
    case ModelItem =>
      info.id == Field(payload, "modelId") && info.name == Field(payload, "modelname")
      && info.itemType == "notifications.item-type-model"
    case AssetItem =>
      info.id == Field(payload, "assetId") && info.name == Field(payload, "filename")
      && info.itemType == "notifications.item-type-asset"
    case FleetItem =>
      info.id == Field(payload, "fleetId") && info.name == Field(payload, "fleetName")
      && info.itemType == "notifications.item-type-fleet"
    case Unknown =>
      info.id == "common" && info.name == "" && info.itemType == "unknown"
  }

  /**
   * The first half of `generateRequestNotification`: the item's id, type and name, from
   * the first item word the lower-cased name includes; no action yet.
   */
  method ItemInfo(lowerCaseMethod: string, payload: map<string, string>) returns (notificationInfo: NotificationInfo)
    ensures notificationInfo.kind == ItemTypeOf(lowerCaseMethod)
    ensures notificationInfo.action == NoAction
    ensures notificationInfo.kind == Unknown <==> notificationInfo.itemType == "unknown"
    ensures FieldsFromPayload(notificationInfo, payload)
  {
    notificationInfo := NotificationInfo("", Unknown, "", NoAction, "");
    if Includes(lowerCaseMethod, "event") {
      notificationInfo := NotificationInfo(Field(payload, "eventName"), EventItem, "notifications.item-type-event", NoAction, Field(payload, "eventName"));
    } else if Includes(lowerCaseMethod, "user") {
      notificationInfo := NotificationInfo(Field(payload, "username"), UserItem, "notifications.item-type-user", NoAction, Field(payload, "username"));
    } else if Includes(lowerCaseMethod, "race") {
      notificationInfo := NotificationInfo(Field(payload, "raceId"), RaceItem, "notifications.item-type-race", NoAction, Field(payload, "raceId"));
    } else if Includes(lowerCaseMethod, "model") {
      notificationInfo := NotificationInfo(Field(payload, "modelId"), ModelItem, "notifications.item-type-model", NoAction, Field(payload, "modelname"));
    } else if Includes(lowerCaseMethod, "carlogsasset") {
      notificationInfo := NotificationInfo(Field(payload, "assetId"), AssetItem, "notifications.item-type-asset", NoAction, Field(payload, "filename"));
    } else if Includes(lowerCaseMethod, "fleet") {
      notificationInfo := NotificationInfo(Field(payload, "fleetId"), FleetItem, "notifications.item-type-fleet", NoAction, Field(payload, "fleetName"));
    } else {
      notificationInfo := NotificationInfo("common", Unknown, "unknown", NoAction, "");
    }
  }

  /**
   * `generateRequestNotification(method, payload)`: fills in the notification info for the
   * item, sets its action and, when there is both an action and a known item type,
   * dispatches an info notification with the request header under the item's id.
   */
  method GenerateRequestNotification(
    methodName: string, payload: map<string, string>, render: Message -> string, store: NotificationsStore)
    returns (notificationInfo: NotificationInfo)
    modifies store
    ensures notificationInfo.kind == ItemTypeOf(ToLowerAscii(methodName))
    ensures notificationInfo.action == ActionOf(ToLowerAscii(methodName))
    ensures notificationInfo.kind == Unknown <==> notificationInfo.itemType == "unknown"
    ensures FieldsFromPayload(notificationInfo, payload)
    ensures var header := RequestMessage(notificationInfo.action, notificationInfo.itemType, notificationInfo.name);
      if header.Some? && notificationInfo.kind != Unknown then
        store.notifications == Upsert(old(store.notifications), NotificationKey,
          RequestNotification(notificationInfo.id, render(header.value)))
      else store.notifications == old(store.notifications)
  {
    var lowerCaseMethod := ToLowerAscii(methodName);
    notificationInfo := ItemInfo(lowerCaseMethod, payload);
    var notificationHeader: Option<Message> := None;
    var itemType, itemName := notificationInfo.itemType, notificationInfo.name;
    if Includes(lowerCaseMethod, "add") {
      notificationInfo := notificationInfo.(action := Add);
      notificationHeader := Some(Message("notifications.creating-item", itemType, itemName, None));
    } else if Includes(lowerCaseMethod, "update") {
      notificationInfo := notificationInfo.(action := Update);
      notificationHeader := Some(Message("notifications.updating-item", itemType, itemName, None));
    } else if Includes(lowerCaseMethod, "delete") {
      notificationInfo := notificationInfo.(action := Delete);
      notificationHeader := Some(Message("notifications.deleting-item", itemType, itemName, None));
    }

    assert notificationInfo.action == ActionOf(lowerCaseMethod);
    assert notificationHeader == RequestMessage(notificationInfo.action, notificationInfo.itemType, notificationInfo.name);
    if notificationHeader.Some? && notificationInfo.itemType != "unknown" {
      store.AddNotification(RequestNotification(notificationInfo.id, render(notificationHeader.value)));
    }
  }

  /**
   * `generateResponseNotification(info, status, errorMessage)`: the header for the action
   * and outcome, dispatched under the item's id with the outcome as its type when there
   * is a header and the item type is known.
   */
  method GenerateResponseNotification(
    notificationInfo: NotificationInfo, status: Status, errorMessage: Option<string>,
    render: Message -> string, store: NotificationsStore)
    modifies store
    ensures var header := ResponseMessage(notificationInfo, status, errorMessage);
      if header.Some? && notificationInfo.itemType != "unknown" then
        store.notifications == Upsert(old(store.notifications), NotificationKey,
          ResponseNotification(notificationInfo.id, status, render(header.value)))
      else store.notifications == old(store.notifications)
  {
    var notificationHeader := ResponseMessage(notificationInfo, status, errorMessage);
    if notificationHeader.Some? && notificationInfo.itemType != "unknown" {
      store.AddNotification(ResponseNotification(notificationInfo.id, status, render(notificationHeader.value)));
    }
  }

  // ----- Properties -----

  /** The item type is that of the first word, in the order tried, that the name includes. */
  lemma ItemTypeIsFirstMatch(lowerCaseMethod: string)
    ensures var k := FirstIncluded(lowerCaseMethod, ItemWords);
      ItemTypeOf(lowerCaseMethod) == if k < |ItemKinds| then ItemKinds[k] else Unknown
  {
    var k := FirstIncluded(lowerCaseMethod, ItemWords);
    if k < 6 {
      assert Includes(lowerCaseMethod, ItemWords[k]);
    }
    assert forall j :: 0 <= j < k ==> !Includes(lowerCaseMethod, ItemWords[j]);
  }

  /** A request notification is shown exactly when the name has an action and a known item type. */
  lemma RequestShownIff(info: NotificationInfo)
    requires info.kind == Unknown <==> info.itemType == "unknown"
    ensures (RequestMessage(info.action, info.itemType, info.name).Some? && info.itemType != "unknown")
        <==> (info.action != NoAction && info.kind != Unknown)
  {
  }

  /**
   * Showing the request and then the response leaves one notification for the item: the
   * response, with the outcome as its type, which ends the request's loading state.
   */
  lemma ResponseReplacesRequest(
    notifications: seq<Notification>, id: string, status: Status, requestText: string, responseText: string)
    ensures var shown := Upsert(notifications, NotificationKey, RequestNotification(id, requestText));
      var after := Upsert(shown, NotificationKey, ResponseNotification(id, status, responseText));
      && Lookup(shown, NotificationKey, id).Some? && Lookup(shown, NotificationKey, id).value.loading
      && Lookup(after, NotificationKey, id) == Some(ResponseNotification(id, status, responseText))
      && Lookup(after, NotificationKey, id).value.kind == StatusType(status)
      && !Lookup(after, NotificationKey, id).value.loading
      && |after| == |shown|
  {
    var request, response := RequestNotification(id, requestText), ResponseNotification(id, status, responseText);
    var shown := Upsert(notifications, NotificationKey, request);
    UpsertLookup(notifications, NotificationKey, request, id);
    UpsertLookup(shown, NotificationKey, response, id);
    UpsertShape(shown, NotificationKey, response);
  }

  /** Error texts reach only the error headers, and every answer to an action has a header. */
  lemma ResponseHeaders(info: NotificationInfo, status: Status, errorMessage: Option<string>)
    requires info.action != NoAction
    ensures var m := ResponseMessage(info, status, errorMessage);
      m.Some? && (status == ErrorStatus ==> m.value.errorMessage == errorMessage)
      && (status == SuccessStatus ==> m.value.errorMessage.None?)
  {
  }
}
