/**
 * The public leaderboard's list of entries, one per racer
 * (website-leaderboard/src/pages/leaderboard.tsx): lookup and removal by username,
 * the update that replaces or adds a racer's entry and re-sorts the list, and the
 * summary of the updated racer's rank.
 */
module Leaderboard {
  import opened Wrappers
  import opened KeyedList
  import opened Sorting

  datatype RaceFormat = Fastest | FastestAverage

  /** A racer's entry; `fastestAverageLap` holds the average's `avgTime` when there is one. */
  datatype Entry = Entry(username: string, trackId: string, fastestLapTime: int, fastestAverageLap: Option<int>)

  /** What the page shows for the racer just updated. `None` stands for `null`. */
  datatype RaceSummary = RaceSummary(entry: Entry, overallRank: nat, consistency: nat, gapToFastest: Option<int>)

  function Username(e: Entry): string { e.username }

  /** The sort comparators as keys: by lap time, or by average with entries lacking one last. */
  function RankKey(raceFormat: RaceFormat, e: Entry): SortKey {
    match raceFormat
    case Fastest => Key(e.fastestLapTime)
    case FastestAverage => if e.fastestAverageLap.Some? then Key(e.fastestAverageLap.value) else Last
  }

  /** The ranking of a race format as a key function for sorting. */
  function Ranking(raceFormat: RaceFormat): Entry -> SortKey {
    e => RankKey(raceFormat, e)
  }

  /** `findEntryByUsername(username, allEntries)`: the first index with that username and its entry. */
  function FindEntryByUsername(username: string, allEntries: seq<Entry>): (r: Option<(nat, Entry)>)
    ensures r.None? <==> forall i :: 0 <= i < |allEntries| ==> allEntries[i].username != username
    ensures r.Some? ==> r.value.0 < |allEntries| && allEntries[r.value.0] == r.value.1
                        && r.value.1.username == username
                        && forall i :: 0 <= i < r.value.0 ==> allEntries[i].username != username
  {
    var index := FindIndex(allEntries, Username, username);
    if index != -1 then Some((index, allEntries[index])) else None
  }

  /** `removeLeaderboardEntry`: splice out the first entry with the username, if any. */
  function RemoveEntry(prevState: seq<Entry>, username: string): seq<Entry> {
    match FindEntryByUsername(username, prevState)
    case Some((index, _)) => prevState[..index] + prevState[index + 1..]
    case None => prevState
  }

  /**
   * The list before sorting: a new racer is appended; an existing racer's entry is
   * replaced, except on the combined leaderboard when the old entry is from another
   * track and strictly faster, which is kept.
   */
  function UpdatedEntries(prevState: seq<Entry>, newEntry: Entry, trackId: string): seq<Entry> {
    match FindEntryByUsername(newEntry.username, prevState)
    case None => prevState + [newEntry]
    case Some((oldEntryIndex, oldEntry)) =>
      if trackId == "combined" && oldEntry.trackId != newEntry.trackId
         && oldEntry.fastestLapTime < newEntry.fastestLapTime
      then prevState[oldEntryIndex := oldEntry]
      else prevState[oldEntryIndex := newEntry]
  }

  /** A result, or the `TypeError` JavaScript throws when reading a field of `undefined`. */
  datatype Outcome<T> = Done(value: T) | TypeError

  /**
   * `calcRaceSummary(newEntry, previousPosition, allEntries)`. `previousPosition` is
   * `None` when the racer was not on the list (`undefined + 1`, which is falsy).
   * The range of `Some` positions makes the `overallRank === 0` branch unreachable.
   * In the average format only the new entry's average is tested before the leader's
   * `avgTime` is read, so a leader without an average throws.
   */
  function CalcRaceSummary(newEntry: Entry, previousPosition: Option<nat>, allEntries: seq<Entry>, raceFormat: RaceFormat)
    : (r: Outcome<RaceSummary>)
    requires FindEntryByUsername(newEntry.username, allEntries).Some?
    ensures r.TypeError? <==>
      raceFormat == FastestAverage && newEntry.fastestAverageLap.Some? && allEntries[0].fastestAverageLap.None?
  {
    var (entryIndex, _) := FindEntryByUsername(newEntry.username, allEntries).value;
    var overallRank := entryIndex + 1;
    var consistency := if previousPosition.Some? && previousPosition.value != 0 then previousPosition.value else overallRank;
    match raceFormat
    case Fastest =>
      Done(RaceSummary(newEntry, overallRank, consistency, Some(newEntry.fastestLapTime - allEntries[0].fastestLapTime)))
    case FastestAverage =>
      if newEntry.fastestAverageLap.None? then Done(RaceSummary(newEntry, overallRank, consistency, None))
      else if allEntries[0].fastestAverageLap.None? then TypeError
      else Done(RaceSummary(newEntry, overallRank, consistency,
                            Some(newEntry.fastestAverageLap.value - allEntries[0].fastestAverageLap.value)))
  }

  /** The leaderboard page's state: the entries and the last race summary. */
  class Board {
    var entries: seq<Entry>
    var raceSummary: Option<RaceSummary>

    constructor ()
      ensures entries == [] && raceSummary == None
    {
      entries := [];
      raceSummary := None;
    }

    /** `removeLeaderboardEntry(entry)`. */
    method RemoveLeaderboardEntry(entry: Entry)
      modifies this
      ensures entries == RemoveEntry(old(entries), entry.username) && raceSummary == old(raceSummary)
    {
      var found := FindEntryByUsername(entry.username, entries);
      if found.Some? {
        var index := found.value.0;
        entries := entries[..index] + entries[index + 1..];
      }
    }

    /**
     * `updateLeaderboardEntries(newEntry)`: replace or add the entry on a copy, sort
     * that copy in place and summarise the racer's new rank. When the summary throws,
     * the state updater throws with it and neither the list nor the summary changes.
     */
    method UpdateLeaderboardEntries(newEntry: Entry, trackId: string, raceFormat: RaceFormat) returns (threw: bool)
      modifies this
      ensures var sorted := StableSort(UpdatedEntries(old(entries), newEntry, trackId), Ranking(raceFormat));
        var found := FindEntryByUsername(newEntry.username, old(entries));
        var previousPosition := if found.Some? then Some(found.value.0 + 1) else None;
        && FindEntryByUsername(newEntry.username, sorted).Some?
        && var outcome := CalcRaceSummary(newEntry, previousPosition, sorted, raceFormat);
        && threw == outcome.TypeError?
        && (outcome.Done? ==> entries == sorted && raceSummary == Some(outcome.value))
        && (outcome.TypeError? ==> entries == old(entries) && raceSummary == old(raceSummary))
    {
      var found := FindEntryByUsername(newEntry.username, entries);
      var newState := UpdatedEntries(entries, newEntry, trackId);
      var ranked := SortedCopy(newState, raceFormat);
      RankedKeepsUsername(entries, newEntry, trackId, raceFormat);
      var oldPosition := if found.Some? then Some(found.value.0 + 1) else None;
      ghost var spec := StableSort(UpdatedEntries(old(entries), newEntry, trackId), Ranking(raceFormat));
      assert ranked == spec;
      var outcome := CalcRaceSummary(newEntry, oldPosition, ranked, raceFormat);
      ghost var specOutcome := CalcRaceSummary(newEntry, oldPosition, spec, raceFormat);
      assert outcome == specOutcome;
      threw := outcome.TypeError?;
      if !threw {
        entries := ranked;
        raceSummary := Some(outcome.value);
        assert entries == spec && raceSummary == Some(specOutcome.value);
      }
    }
  }

  /** `[...newState].sort(comparator)`: the list sorted in place on a fresh copy. */
  method SortedCopy(newState: seq<Entry>, raceFormat: RaceFormat) returns (ranked: seq<Entry>)
    ensures ranked == StableSort(newState, Ranking(raceFormat))
  {
    var sorted := new Entry[|newState|](i requires 0 <= i < |newState| => newState[i]);
    assert sorted[..] == newState;
    SortInPlace(sorted, Ranking(raceFormat));
    ranked := sorted[..];
  }

  // ----- Properties -----

  /** The updated racer is on the list after the update. */
  lemma UpdateKeepsUsername(prevState: seq<Entry>, newEntry: Entry, trackId: string)
    ensures var r := UpdatedEntries(prevState, newEntry, trackId);
      exists i :: 0 <= i < |r| && r[i].username == newEntry.username
  {
    var r := UpdatedEntries(prevState, newEntry, trackId);
    match FindEntryByUsername(newEntry.username, prevState)
    case None =>
      assert r[|prevState|] == newEntry;
    case Some((index, _)) =>
      assert r[index].username == newEntry.username;
  }

  /** The racer is on the ranking-sorted update. */
  lemma RankedKeepsUsername(prevState: seq<Entry>, newEntry: Entry, trackId: string, raceFormat: RaceFormat)
    ensures var ranked := StableSort(UpdatedEntries(prevState, newEntry, trackId), Ranking(raceFormat));
      exists i :: 0 <= i < |ranked| && ranked[i].username == newEntry.username
  {
    UpdateKeepsUsername(prevState, newEntry, trackId);
    SortedKeepsUsername(UpdatedEntries(prevState, newEntry, trackId), newEntry.username, Ranking(raceFormat));
  }

  lemma SortedKeepsUsername(s: seq<Entry>, username: string, key: Entry -> SortKey)
    requires exists i :: 0 <= i < |s| && s[i].username == username
    ensures exists i :: 0 <= i < |StableSort(s, key)| && StableSort(s, key)[i].username == username
  {
    var i :| 0 <= i < |s| && s[i].username == username;
    StableSortPermutes(s, key);
    assert s[i] in multiset(StableSort(s, key));
  }

  /** Removal takes out only the first entry with the username; with no match nothing changes. */
  lemma RemoveEntryShape(prevState: seq<Entry>, username: string)
    ensures var r := RemoveEntry(prevState, username);
      && (!HasKey(prevState, Username, username) ==> r == prevState)
      && (HasKey(prevState, Username, username) ==>
            var i := FindIndex(prevState, Username, username);
            |r| == |prevState| - 1
            && (forall j :: 0 <= j < i ==> r[j] == prevState[j])
            && (forall j :: i < j < |prevState| ==> r[j - 1] == prevState[j]))
  {
    if HasKey(prevState, Username, username) {
      var i := FindIndex(prevState, Username, username);
      var r := prevState[..i] + prevState[i + 1..];
      assert RemoveEntry(prevState, username) == r;
      forall j | i < j < |prevState| ensures r[j - 1] == prevState[j] {
        assert r[j - 1] == prevState[i + 1..][j - 1 - i];
      }
    }
  }

  /** With unique usernames, removal leaves no entry with that username and keeps the others unique. */
  lemma RemoveEntryUnique(prevState: seq<Entry>, username: string)
    requires KeysUnique(prevState, Username)
    ensures !HasKey(RemoveEntry(prevState, username), Username, username)
    ensures KeysUnique(RemoveEntry(prevState, username), Username)
  {
    var r := RemoveEntry(prevState, username);
    if HasKey(prevState, Username, username) {
      var i := FindIndex(prevState, Username, username);
      assert forall j :: 0 <= j < |r| ==> r[j] == prevState[if j < i then j else j + 1];
    }
  }

  /**
   * The update replaces the racer's entry in place or appends it; usernames stay unique,
   * including after the sort.
   */
  lemma UpdateKeepsUnique(prevState: seq<Entry>, newEntry: Entry, trackId: string, raceFormat: RaceFormat)
    requires KeysUnique(prevState, Username)
    ensures KeysUnique(UpdatedEntries(prevState, newEntry, trackId), Username)
    ensures KeysUnique(StableSort(UpdatedEntries(prevState, newEntry, trackId), Ranking(raceFormat)), Username)
  {
    StableSortKeepsUnique(UpdatedEntries(prevState, newEntry, trackId), Ranking(raceFormat), Username);
  }

  /**
   * The racer's entry after the update: the new one, or on the combined leaderboard
   * the old one when it is from another track and strictly faster.
   */
  lemma UpdatedEntryFor(prevState: seq<Entry>, newEntry: Entry, trackId: string)
    ensures var oldEntry := Lookup(prevState, Username, newEntry.username);
      Lookup(UpdatedEntries(prevState, newEntry, trackId), Username, newEntry.username)
      == if oldEntry.Some? && trackId == "combined" && oldEntry.value.trackId != newEntry.trackId
            && oldEntry.value.fastestLapTime < newEntry.fastestLapTime
         then oldEntry
         else Some(newEntry)
  {
    var r := UpdatedEntries(prevState, newEntry, trackId);
    var i := FindIndex(prevState, Username, newEntry.username);
    FindIndexAt(r, Username, newEntry.username, if i == -1 then |prevState| else i);
  }

  /** Every other racer keeps the entry they had. */
  lemma UpdateLeavesOthers(prevState: seq<Entry>, newEntry: Entry, trackId: string, username: string)
    requires username != newEntry.username
    ensures Lookup(UpdatedEntries(prevState, newEntry, trackId), Username, username) == Lookup(prevState, Username, username)
  {
    var r := UpdatedEntries(prevState, newEntry, trackId);
    var a := FindIndex(prevState, Username, username);
    if a == -1 {
      FindIndexAbsent(r, Username, username);
    } else {
      FindIndexAt(r, Username, username, a);
    }
  }

  /** The list is in ranking order after the update. */
  lemma UpdateSorted(prevState: seq<Entry>, newEntry: Entry, trackId: string, raceFormat: RaceFormat)
    ensures SortedBy(StableSort(UpdatedEntries(prevState, newEntry, trackId), Ranking(raceFormat)),
                     Ranking(raceFormat))
  {
    StableSortSorted(UpdatedEntries(prevState, newEntry, trackId), Ranking(raceFormat));
  }

  /**
   * The overall rank is one more than the racer's position in the list; the consistency
   * is the racer's previous rank when there was one, or the overall rank.
   */
  lemma SummaryRanks(newEntry: Entry, previousPosition: Option<nat>, allEntries: seq<Entry>, raceFormat: RaceFormat)
    requires exists i :: 0 <= i < |allEntries| && allEntries[i].username == newEntry.username
    ensures var r := CalcRaceSummary(newEntry, previousPosition, allEntries, raceFormat);
      r.Done? ==>
      && 1 <= r.value.overallRank <= |allEntries|
      && allEntries[r.value.overallRank - 1].username == newEntry.username
      && (forall j :: 0 <= j < r.value.overallRank - 1 ==> allEntries[j].username != newEntry.username)
      && r.value.consistency == (if previousPosition.Some? && previousPosition.value != 0 then previousPosition.value
                                 else r.value.overallRank)
  {
  }

  /**
   * When the new entry itself is on the sorted list nothing is thrown (a racer with an
   * average puts an average at the head), and the gap to the leader is never negative.
   */
  lemma GapNotNegative(newEntry: Entry, previousPosition: Option<nat>, allEntries: seq<Entry>, raceFormat: RaceFormat)
    requires exists i :: 0 <= i < |allEntries| && allEntries[i].username == newEntry.username
    requires newEntry in allEntries
    requires SortedBy(allEntries, Ranking(raceFormat))
    ensures var r := CalcRaceSummary(newEntry, previousPosition, allEntries, raceFormat);
      r.Done? && (r.value.gapToFastest.Some? ==> r.value.gapToFastest.value >= 0)
  {
    var key := Ranking(raceFormat);
    var j :| 0 <= j < |allEntries| && allEntries[j] == newEntry;
    if j > 0 {
      assert KeyLe(key(allEntries[0]), key(allEntries[j]));
    }
  }

  /**
   * On the combined leaderboard the kept entry of a faster lap on another track has no
   * average, so when the racer's new entry has one the summary throws.
   */
  lemma CombinedBoardThrows()
    ensures var prevState := [Entry("racer", "track-1", 1000, None)];
      var newEntry := Entry("racer", "track-2", 2000, Some(2500));
      var sorted := StableSort(UpdatedEntries(prevState, newEntry, "combined"), Ranking(FastestAverage));
      && sorted == prevState
      && CalcRaceSummary(newEntry, Some(1), sorted, FastestAverage) == TypeError
  {
    var prevState := [Entry("racer", "track-1", 1000, None)];
    var newEntry := Entry("racer", "track-2", 2000, Some(2500));
    assert FindEntryByUsername("racer", prevState) == Some((0, prevState[0]));
    assert prevState[0].trackId != newEntry.trackId by { assert prevState[0].trackId[6] != newEntry.trackId[6]; }
    assert UpdatedEntries(prevState, newEntry, "combined") == prevState;
    assert prevState[..0] == [];
    assert StableSort(prevState, Ranking(FastestAverage)) == Insert([], Ranking(FastestAverage), prevState[0]) == prevState;
  }
}
