/**
 * The race overlay footer of the leaderboard site
 * (website-leaderboard/src/components/raceOverlayInfo.tsx): the fastest valid lap,
 * the fastest average, the split of a time into display fields and the step that
 * interpolates the clocks between updates. Times are integer milliseconds.
 */
module RaceOverlay {
  import opened Wrappers
  import opened Strings
  import opened TimeFormat

  datatype Lap = Lap(time: int, isValid: bool)

  datatype AvgLap = AvgLap(avgTime: int, startLapId: int, endLapId: int, dnf: bool)

  datatype TimeDisplay = TimeDisplay(minutes: string, seconds: string, milliseconds: string)

  function ValidLaps(laps: seq<Lap>): (v: seq<Lap>)
    ensures forall i :: 0 <= i < |v| ==> v[i].isValid
    decreases |laps|
  {
    if laps == [] then []
    else ValidLaps(laps[..|laps| - 1]) + (if laps[|laps| - 1].isValid then [laps[|laps| - 1]] else [])
  }

  /**
   * `reduce((acc, cur) => acc.time < cur.time ? acc : cur)` without a start value:
   * the accumulator gives way to every element that is not strictly slower.
   */
  function ReduceFastest<T>(s: seq<T>, time: T -> int): T
    requires s != []
    decreases |s|
  {
    if |s| == 1 then s[0]
    else
      var acc := ReduceFastest(s[..|s| - 1], time);
      if time(acc) < time(s[|s| - 1]) then acc else s[|s| - 1]
  }

  /** `getFastestValidLap(laps)`; `None` stands for the `{ time: 0 }` returned without a valid lap. */
  function GetFastestValidLap(laps: seq<Lap>): Option<Lap> {
    var validLaps := ValidLaps(laps);
    if |validLaps| == 0 then None else Some(ReduceFastest(validLaps, (l: Lap) => l.time))
  }

  /** The best lap time shown: the fastest valid lap's time, or 0. */
  function BestLapMs(laps: seq<Lap>): int {
    match GetFastestValidLap(laps)
    case None => 0
    case Some(lap) => lap.time
  }

  /** `getFastestAverageLap(averageLaps)`: a zero record marked `dnf` when there is none. */
  function GetFastestAverageLap(averageLaps: seq<AvgLap>): AvgLap {
    if |averageLaps| == 0 then AvgLap(0, 0, 0, true)
    else ReduceFastest(averageLaps, (a: AvgLap) => a.avgTime)
  }

  /** `toTime(time)`: whole minutes, seconds of the minute and milliseconds, zero-padded. */
  function ToTime(time: nat): TimeDisplay {
    var mins := time / (1000 * 60);
    var secs := time / 1000 % 60;
    var ms := time % 1000;
    TimeDisplay(ZeroPad(mins, 2), ZeroPad(secs, 2), ZeroPad(ms, 3))
  }

  /**
   * The interval step while a race is in progress: the time passed is taken off the
   * remaining time and added to the current lap, each clamped at zero from below.
   */
  function Interpolate(remainingTimeMs: int, currentLapMs: int, timePassedMs: int): (r: (int, int))
    ensures r.0 >= 0 && r.1 >= 0
    ensures timePassedMs >= 0 ==> r.1 >= currentLapMs
    ensures timePassedMs >= 0 && remainingTimeMs >= 0 ==> r.0 <= remainingTimeMs
    ensures r.0 == 0 || r.0 == remainingTimeMs - timePassedMs
    ensures r.1 == 0 || r.1 == currentLapMs + timePassedMs
    ensures r.0 >= remainingTimeMs - timePassedMs && r.1 >= currentLapMs + timePassedMs
  {
    (if remainingTimeMs - timePassedMs > 0 then remainingTimeMs - timePassedMs else 0,
     if currentLapMs + timePassedMs > 0 then currentLapMs + timePassedMs else 0)
  }

  /**
   * The overlay's clock state, updated by the 30 fps interval and by the effects that
   * follow the timekeeper's props. `now` is `Date.now()`.
   */
  class OverlayClock {
    var remainingTimeMs: int
    var currentLapMs: int
    var lastDisplayUpdateTimestamp: int
    /** The prop each clock effect last ran with; `None` before the first render. */
    var seenCurrentLapTimeInMs: Option<int>
    var seenTimeLeftInMs: Option<int>

    constructor (now: int)
      ensures remainingTimeMs == 0 && currentLapMs == 0 && lastDisplayUpdateTimestamp == now
      ensures seenCurrentLapTimeInMs == None && seenTimeLeftInMs == None
    {
      remainingTimeMs := 0;
      currentLapMs := 0;
      lastDisplayUpdateTimestamp := now;
      seenCurrentLapTimeInMs := None;
      seenTimeLeftInMs := None;
    }

    /**
     * A render with the timekeeper's props. Each of the two effects copies its prop into
     * its clock only on the first render or when that prop changed since the effect last
     * ran; otherwise the clock keeps its value, interpolated or not.
     */
    method Render(currentLapTimeInMs: int, timeLeftInMs: int)
      modifies this
      ensures currentLapMs == if old(seenCurrentLapTimeInMs) == Some(currentLapTimeInMs)
                              then old(currentLapMs) else currentLapTimeInMs
      ensures remainingTimeMs == if old(seenTimeLeftInMs) == Some(timeLeftInMs)
                                 then old(remainingTimeMs) else timeLeftInMs
      ensures seenCurrentLapTimeInMs == Some(currentLapTimeInMs) && seenTimeLeftInMs == Some(timeLeftInMs)
      ensures lastDisplayUpdateTimestamp == old(lastDisplayUpdateTimestamp)
    {
      if seenCurrentLapTimeInMs != Some(currentLapTimeInMs) {
        currentLapMs := currentLapTimeInMs;
        seenCurrentLapTimeInMs := Some(currentLapTimeInMs);
      }
      if seenTimeLeftInMs != Some(timeLeftInMs) {
        remainingTimeMs := timeLeftInMs;
        seenTimeLeftInMs := Some(timeLeftInMs);
      }
    }

    /** One tick: record the time, and move the clocks only while the race is in progress. */
    method Tick(now: int, raceStatus: string)
      modifies this
      ensures lastDisplayUpdateTimestamp == now
      ensures raceStatus == "RACE_IN_PROGRESS" ==>
        (remainingTimeMs, currentLapMs)
        == Interpolate(old(remainingTimeMs), old(currentLapMs), now - old(lastDisplayUpdateTimestamp))
      ensures raceStatus != "RACE_IN_PROGRESS" ==>
        remainingTimeMs == old(remainingTimeMs) && currentLapMs == old(currentLapMs)
      ensures seenCurrentLapTimeInMs == old(seenCurrentLapTimeInMs) && seenTimeLeftInMs == old(seenTimeLeftInMs)
    {
      var timePassedMs := now - lastDisplayUpdateTimestamp;
      lastDisplayUpdateTimestamp := now;
      if raceStatus == "RACE_IN_PROGRESS" {
        var next := Interpolate(remainingTimeMs, currentLapMs, timePassedMs);
        remainingTimeMs, currentLapMs := next.0, next.1;
      }
    }
  }

  // ----- Properties -----

  /**
   * The reduce returns an element of least time, and the last one among those: every
   * later element is strictly slower.
   */
  lemma {:induction false} ReduceFastestIsLastMinimum<T>(s: seq<T>, time: T -> int)
    requires s != []
    ensures var r := ReduceFastest(s, time);
      exists i :: 0 <= i < |s| && s[i] == r
        && (forall j :: 0 <= j < |s| ==> time(r) <= time(s[j]))
        && (forall j :: i < j < |s| ==> time(r) < time(s[j]))
    decreases |s|
  {
    if |s| > 1 {
      var init, last := s[..|s| - 1], s[|s| - 1];
      ReduceFastestIsLastMinimum(init, time);
      var acc := ReduceFastest(init, time);
      var i :| 0 <= i < |init| && init[i] == acc
        && (forall j :: 0 <= j < |init| ==> time(acc) <= time(init[j]))
        && (forall j :: i < j < |init| ==> time(acc) < time(init[j]));
      assert forall j :: 0 <= j < |init| ==> s[j] == init[j];
      if time(acc) < time(last) {
        assert ReduceFastest(s, time) == acc;
        assert s[i] == acc;
      } else {
        assert ReduceFastest(s, time) == last;
        assert s[|s| - 1] == last;
      }
    } else {
      assert s[0] == ReduceFastest(s, time);
    }
  }

  /** Only valid laps count: the result is a valid lap of least time among the valid ones, the last of ties. */
  lemma FastestValidLapIsMinimum(laps: seq<Lap>)
    ensures GetFastestValidLap(laps).None? <==> |ValidLaps(laps)| == 0
    ensures var v := ValidLaps(laps);
      GetFastestValidLap(laps).Some? ==>
        var r := GetFastestValidLap(laps).value;
        r.isValid
        && (exists i :: 0 <= i < |v| && v[i] == r
             && (forall j :: 0 <= j < |v| ==> r.time <= v[j].time)
             && (forall j :: i < j < |v| ==> r.time < v[j].time))
  {
    if |ValidLaps(laps)| > 0 {
      ReduceFastestIsLastMinimum(ValidLaps(laps), (l: Lap) => l.time);
    }
  }

  /** The valid laps are exactly the laps marked valid, in their order. */
  lemma {:induction false} ValidLapsMembers(laps: seq<Lap>, lap: Lap)
    ensures lap in ValidLaps(laps) <==> lap in laps && lap.isValid
    decreases |laps|
  {
    if laps != [] {
      ValidLapsMembers(laps[..|laps| - 1], lap);
      assert laps == laps[..|laps| - 1] + [laps[|laps| - 1]];
    }
  }

  /** The fastest average: the `dnf` zero record for no windows, otherwise a least one, the last of ties. */
  lemma FastestAverageLapIsMinimum(averageLaps: seq<AvgLap>)
    ensures |averageLaps| == 0 ==> GetFastestAverageLap(averageLaps) == AvgLap(0, 0, 0, true)
    ensures |averageLaps| > 0 ==>
      var r := GetFastestAverageLap(averageLaps);
      exists i :: 0 <= i < |averageLaps| && averageLaps[i] == r
        && (forall j :: 0 <= j < |averageLaps| ==> r.avgTime <= averageLaps[j].avgTime)
        && (forall j :: i < j < |averageLaps| ==> r.avgTime < averageLaps[j].avgTime)
  {
    if |averageLaps| > 0 {
      ReduceFastestIsLastMinimum(averageLaps, (a: AvgLap) => a.avgTime);
    }
  }

  /** The overlay's fields are those of the `mm:ss.SSS` text of the admin pages. */
  lemma ToTimeMatchesLapTimeText(time: nat)
    ensures var d := ToTime(time);
      d.minutes + ":" + d.seconds + "." + d.milliseconds == ConvertMsToString(time, true)
  {
  }

  /** The fields hold minutes, seconds of the minute and milliseconds, from which the time is recovered. */
  lemma ToTimeFields(time: nat)
    ensures var d := ToTime(time);
      && AllDigits(d.minutes) && AllDigits(d.seconds) && AllDigits(d.milliseconds)
      && |d.seconds| == 2 && |d.milliseconds| == 3 && |d.minutes| >= 2
      && DigitsValue(d.minutes) * 60000 + DigitsValue(d.seconds) * 1000 + DigitsValue(d.milliseconds) == time
  {
    assert Pow10(2) == 100 && Pow10(3) == 1000;
    ZeroPadValue(time / 60000, 2);
    ZeroPadValue(time / 1000 % 60, 2);
    ZeroPadValue(time % 1000, 3);
    ZeroPadLength(time / 1000 % 60, 2);
    ZeroPadLength(time % 1000, 3);
    MinutesAndSeconds(time);
  }
}
