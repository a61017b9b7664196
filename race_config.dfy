/**
 * The option tables of the event editor's race settings and the lookups from a stored
 * id to an option or its label (website/src/admin/events/support-functions/raceConfig.ts).
 * `t` stands for the translation function that gives the translated labels.
 */
module RaceConfig {
  import opened Wrappers
  import opened Strings
  import opened KeyedList

  /** An option: `caption` is the source's `label` field (a reserved word here). */
  datatype ConfigOption = ConfigOption(caption: string, value: string)

  /** A stored id: text or an integer; `null` and `undefined` are `None` where the id is optional. */
  datatype Id = Text(s: string) | Number(n: int)

  function OptionValue(o: ConfigOption): string { o.value }

  /** `id.toString()`. */
  function IdString(id: Id): string {
    match id
    case Text(s) => s
    case Number(n) => if n >= 0 then NatToString(n) else "-" + NatToString(-n)
  }

  /** `options.find((o) => o.value.toString() === id.toString())` after the `id == null` test. */
  function OptionFromId(options: seq<ConfigOption>, id: Option<Id>): (r: Option<ConfigOption>)
    ensures id.None? ==> r.None?
    ensures r.Some? ==> r.value in options && r.value.value == IdString(id.value)
    ensures id.Some? && r.None? ==> forall o :: o in options ==> o.value != IdString(id.value)
  {
    if id.None? then None else Lookup(options, OptionValue, IdString(id.value))
  }

  /** `item?.label || ''`. */
  function LabelOrEmpty(item: Option<ConfigOption>): string {
    if item.Some? then item.value.caption else ""
  }

  // ----- The tables -----

  function ResetConfig(t: string -> string): seq<ConfigOption> {
    [ConfigOption(t("events.race.unlimited"), "9999"),
     ConfigOption("10", "10"), ConfigOption("9", "9"), ConfigOption("8", "8"), ConfigOption("7", "7"),
     ConfigOption("6", "6"), ConfigOption("5", "5"), ConfigOption("4", "4"), ConfigOption("3", "3"),
     ConfigOption("2", "2"), ConfigOption("1", "1"), ConfigOption("0", "0")]
  }

  function RaceTimeConfig(): seq<ConfigOption> {
    [ConfigOption("1", "1"), ConfigOption("2", "2"), ConfigOption("3", "3"), ConfigOption("4", "4"),
     ConfigOption("5", "5"), ConfigOption("6", "6"), ConfigOption("7", "7"), ConfigOption("8", "8"),
     ConfigOption("9", "9"), ConfigOption("10", "10")]
  }

  function MaxRunsPerRacerConfig(t: string -> string): seq<ConfigOption> {
    [ConfigOption(t("events.race.unlimited"), "9999"),
     ConfigOption("5", "5"), ConfigOption("4", "4"), ConfigOption("3", "3"), ConfigOption("2", "2"),
     ConfigOption("1", "1")]
  }

  function LapConfig(): seq<ConfigOption> {
    RaceTimeConfig()
  }

  function TrackTypeConfig(t: string -> string): seq<ConfigOption> {
    [ConfigOption(t("events.tracks.reinvent-2018"), "REINVENT_2018"),
     ConfigOption(t("events.tracks.reinvent-2019"), "REINVENT_2019"),
     ConfigOption(t("events.tracks.reinvent-2022"), "REINVENT_2022"),
     ConfigOption(t("events.tracks.reinvent-2023"), "REINVENT_2023"),
     ConfigOption(t("events.tracks.forever-raceway"), "FOREVER_RACEWAY"),
     ConfigOption(t("events.tracks.atoz-speedway"), "ATOZ_SPEEDWAY"),
     ConfigOption(t("events.tracks.summit-2022"), "SUMMIT_SPEEDWAY"),
     ConfigOption(t("events.tracks.other"), "OTHER")]
  }

  const BestLapTime: string := "BEST_LAP_TIME"
  const BestAverageLapTimeXLap: string := "BEST_AVERAGE_LAP_TIME_X_LAP"

  function RaceTypeConfig(t: string -> string): seq<ConfigOption> {
    [ConfigOption(t("events.race.ranking.best-lap-time"), BestLapTime),
     ConfigOption(t("events.race.ranking.best-average-lap-time-x-lap"), BestAverageLapTimeXLap)]
  }

  function AverageLapWindowConfig(): seq<ConfigOption> {
    [ConfigOption("3", "3"), ConfigOption("4", "4"), ConfigOption("5", "5"), ConfigOption("6", "6"),
     ConfigOption("7", "7")]
  }

  // ----- The lookups -----

  function GetRaceResetsNameFromId(t: string -> string, id: Option<Id>): string {
    LabelOrEmpty(OptionFromId(ResetConfig(t), id))
  }

  function GetResetOptionFromId(t: string -> string, id: Option<Id>): Option<ConfigOption> {
    OptionFromId(ResetConfig(t), id)
  }

  function GetRaceTimeOptionFromId(id: Option<Id>): Option<ConfigOption> {
    OptionFromId(RaceTimeConfig(), id)
  }

  function GetMaxRunsPerRacerFromId(t: string -> string, id: Option<Id>): string {
    LabelOrEmpty(OptionFromId(MaxRunsPerRacerConfig(t), id))
  }

  function GetMaxRunsPerRacerOptionFromId(t: string -> string, id: Option<Id>): Option<ConfigOption> {
    OptionFromId(MaxRunsPerRacerConfig(t), id)
  }

  function GetLapsOptionFromId(id: Option<Id>): Option<ConfigOption> {
    OptionFromId(LapConfig(), id)
  }

  /** The track and ranking lookups take text ids and compare with `===`. */
  function GetTrackOptionFromId(t: string -> string, id: Option<string>): Option<ConfigOption> {
    if id.None? then None else OptionFromId(TrackTypeConfig(t), Some(Text(id.value)))
  }

  /** The label when it is not empty, otherwise `undefined`. */
  function GetTrackTypeNameFromId(t: string -> string, id: Option<string>): Option<string> {
    var item := GetTrackOptionFromId(t, id);
    if item.Some? && item.value.caption != "" then Some(item.value.caption) else None
  }

  function GetRankingOptionFromId(t: string -> string, id: Option<string>): Option<ConfigOption> {
    if id.None? then None else OptionFromId(RaceTypeConfig(t), Some(Text(id.value)))
  }

  /** `option?.label`, empty or not. */
  function GetRankingNameFromId(t: string -> string, id: Option<string>): Option<string> {
    var option := GetRankingOptionFromId(t, id);
    if option.Some? then Some(option.value.caption) else None
  }

  /** The index of the first `c` in `s`, or `|s|`. */
  function IndexOf(s: string, c: char): (i: nat)
    ensures i <= |s| && (i < |s| ==> s[i] == c) && forall j :: 0 <= j < i ==> s[j] != c
  {
    if s == [] then 0 else if s[0] == c then 0 else 1 + IndexOf(s[1..], c)
  }

  /** `s.replace('X', w)`: the first `X` only, none when there is no `X`. */
  function ReplaceFirstX(s: string, w: string): string {
    var i := IndexOf(s, 'X');
    if i == |s| then s else s[..i] + w + s[i + 1..]
  }

  /** The race type's label with its `X` replaced by the window size when one is given. */
  function GetRaceTypeNameFromId(t: string -> string, id: Option<string>, averageLapsWindowSize: Option<string>): Option<string> {
    if id.None? then None
    else
      var item := OptionFromId(RaceTypeConfig(t), Some(Text(id.value)));
      if item.Some? && item.value.caption != "" then
        var returnValue := item.value.caption;
        Some(if averageLapsWindowSize.Some? && averageLapsWindowSize.value != "" then ReplaceFirstX(returnValue, averageLapsWindowSize.value) else returnValue)
      else None
  }

  function GetAverageLapWindowFromId(id: Option<Id>): Option<ConfigOption> {
    OptionFromId(AverageLapWindowConfig(), id)
  }

  // ----- Properties -----

  /** In a table whose values are distinct, looking an option up by its value finds it. */
  lemma LookupOwnValue(options: seq<ConfigOption>, o: ConfigOption)
    requires KeysUnique(options, OptionValue) && o in options
    ensures OptionFromId(options, Some(Text(o.value))) == Some(o)
  {
    var i :| 0 <= i < |options| && options[i] == o;
    FindIndexAt(options, OptionValue, o.value, i);
  }

  // Each table's values are distinct, whatever the translations.

  lemma ResetValuesDistinct(t: string -> string)
    ensures KeysUnique(ResetConfig(t), OptionValue)
  {
  }

  lemma RaceTimeValuesDistinct()
    ensures KeysUnique(RaceTimeConfig(), OptionValue)
  {
  }

  lemma MaxRunsValuesDistinct(t: string -> string)
    ensures KeysUnique(MaxRunsPerRacerConfig(t), OptionValue)
  {
  }

  lemma TrackValuesDistinct(t: string -> string)
    ensures KeysUnique(TrackTypeConfig(t), OptionValue)
  {
  }

  lemma RaceTypeValuesDistinct(t: string -> string)
    ensures KeysUnique(RaceTypeConfig(t), OptionValue)
  {
  }

  lemma AverageWindowValuesDistinct()
    ensures KeysUnique(AverageLapWindowConfig(), OptionValue)
  {
  }

  /** Each option of each table is found again from its value. */
  lemma OptionsRoundTrip(t: string -> string, o: ConfigOption)
    ensures o in ResetConfig(t) ==> GetResetOptionFromId(t, Some(Text(o.value))) == Some(o)
    ensures o in RaceTimeConfig() ==> GetRaceTimeOptionFromId(Some(Text(o.value))) == Some(o)
    ensures o in MaxRunsPerRacerConfig(t) ==> GetMaxRunsPerRacerOptionFromId(t, Some(Text(o.value))) == Some(o)
    ensures o in LapConfig() ==> GetLapsOptionFromId(Some(Text(o.value))) == Some(o)
    ensures o in TrackTypeConfig(t) ==> GetTrackOptionFromId(t, Some(o.value)) == Some(o)
    ensures o in RaceTypeConfig(t) ==> GetRankingOptionFromId(t, Some(o.value)) == Some(o)
    ensures o in AverageLapWindowConfig() ==> GetAverageLapWindowFromId(Some(Text(o.value))) == Some(o)
  {
    ResetValuesDistinct(t);
    RaceTimeValuesDistinct();
    MaxRunsValuesDistinct(t);
    TrackValuesDistinct(t);
    RaceTypeValuesDistinct(t);
    AverageWindowValuesDistinct();
    if o in ResetConfig(t) { LookupOwnValue(ResetConfig(t), o); }
    if o in RaceTimeConfig() { LookupOwnValue(RaceTimeConfig(), o); }
    if o in MaxRunsPerRacerConfig(t) { LookupOwnValue(MaxRunsPerRacerConfig(t), o); }
    if o in TrackTypeConfig(t) { LookupOwnValue(TrackTypeConfig(t), o); }
    if o in RaceTypeConfig(t) { LookupOwnValue(RaceTypeConfig(t), o); }
    if o in AverageLapWindowConfig() { LookupOwnValue(AverageLapWindowConfig(), o); }
  }

  /** A numeric id finds the option whose value is its decimal text. */
  lemma NumericIdIsItsText(options: seq<ConfigOption>, n: nat)
    ensures OptionFromId(options, Some(Number(n))) == OptionFromId(options, Some(Text(NatToString(n))))
  {
  }

  /** The resets label is empty for a missing id or one no option has; otherwise it is the option's label. */
  lemma ResetsNameOfId(t: string -> string, id: Option<Id>)
    ensures id.None? ==> GetRaceResetsNameFromId(t, id) == ""
    ensures id.Some? && (forall o :: o in ResetConfig(t) ==> o.value != IdString(id.value)) ==>
      GetRaceResetsNameFromId(t, id) == ""
    ensures id.Some? && (exists o :: o in ResetConfig(t) && o.value == IdString(id.value)) ==>
      exists o :: o in ResetConfig(t) && o.value == IdString(id.value) && GetRaceResetsNameFromId(t, id) == o.caption
  {
    if id.Some? {
      var r := OptionFromId(ResetConfig(t), id);
      if exists o :: o in ResetConfig(t) && o.value == IdString(id.value) {
        assert r.Some?;
        assert r.value in ResetConfig(t) && r.value.value == IdString(id.value);
      }
    }
  }

  /** Replacing the first `X`: the text before it, the window size, the text after it. */
  lemma ReplaceFirstXShape(s: string, w: string)
    ensures var i := IndexOf(s, 'X');
      && (i == |s| ==> ReplaceFirstX(s, w) == s && 'X' !in s)
      && (i < |s| ==> ReplaceFirstX(s, w) == s[..i] + w + s[i + 1..] && 'X' !in s[..i])
  {
    var i := IndexOf(s, 'X');
    if i == |s| {
      assert forall j :: 0 <= j < |s| ==> s[j] != 'X';
    } else {
      assert forall j :: 0 <= j < i ==> s[..i][j] != 'X';
    }
  }

  /** The race type name is the label, with the window size put in only when one is given. */
  lemma RaceTypeNameWindow(t: string -> string, id: string, w: Option<string>)
    ensures var name := GetRaceTypeNameFromId(t, Some(id), w);
      var shown := GetRankingNameFromId(t, Some(id));
      && (name.Some? ==> shown.Some? && shown.value != "")
      && (w.None? || w == Some("") ==> name == (if shown.Some? && shown.value != "" then shown else None))
      && (w.Some? && w.value != "" && name.Some? ==> name.value == ReplaceFirstX(shown.value, w.value))
  {
  }
}
