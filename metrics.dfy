/**
 * Race-admin statistics (website/src/admin/race-admin/support-functions/metricCalculations.ts):
 * a summary of the valid laps of a list of races and the metrics built on it.
 * Lap times are integer milliseconds; the quotients that the page shows with
 * `toFixed(1)` are kept as exact fractions.
 */
module Metrics {
  import opened Wrappers

  datatype Lap = Lap(lapTime: nat, isValid: bool, resetCount: Option<nat>)

  /** A race; `laps` is `None` when the record has no lap list. */
  datatype Race = Race(userId: string, laps: Option<seq<Lap>>)

  datatype LapSummary = LapSummary(
    resets: Option<nat>,
    laps: Option<nat>,
    slowestTime: Option<nat>,
    fastestTime: Option<nat>,
    timeSum: Option<nat>)

  /** A quotient `num / den`, displayed by the page with one decimal. */
  datatype Ratio = Ratio(num: nat, den: nat)

  datatype RaceMetrics = RaceMetrics(
    numberOfUniqueRacers: Option<nat>,
    numberOfRaces: Option<nat>,
    mostNumberOfRacesByUser: Option<nat>,
    avgRacesPerUser: Option<Ratio>,
    totalLaps: Option<nat>,
    totalresets: Option<nat>,
    avgresestsPerLap: Option<Ratio>,
    avgLapsPerRace: Option<Ratio>,
    avgLapTime: Option<nat>,
    fastestLap: Option<nat>,
    slowestLap: Option<nat>)

  const EmptySummary := LapSummary(None, None, None, None, None)

  const NullMetrics := RaceMetrics(None, None, None, None, None, None, None, None, None, None, None)

  /** `lap.resetCount || 0`. */
  function Resets(lap: Lap): nat {
    lap.resetCount.GetOr(0)
  }

  /** One step of the `reduce` in `getRaceSummary`: a valid lap is added, any other is skipped. */
  function AddLap(prev: LapSummary, lap: Lap): LapSummary {
    if lap.isValid then
      var slowest := if prev.slowestTime.Some? then
        (if prev.slowestTime.value < lap.lapTime then lap.lapTime else prev.slowestTime.value)
      else lap.lapTime;
      var fastest := if prev.fastestTime.Some? then
        (if prev.fastestTime.value > lap.lapTime then lap.lapTime else prev.fastestTime.value)
      else lap.lapTime;
      LapSummary(
        if prev.resets.Some? then Some(prev.resets.value + Resets(lap)) else Some(Resets(lap)),
        if prev.laps.Some? then Some(prev.laps.value + 1) else Some(1),
        Some(slowest),
        Some(fastest),
        if prev.timeSum.Some? then Some(prev.timeSum.value + lap.lapTime) else Some(lap.lapTime))
    else prev
  }

  /** The left fold of `AddLap` over `laps`, starting from all-null. */
  function Summarize(laps: seq<Lap>): LapSummary {
    if laps == [] then EmptySummary else AddLap(Summarize(laps[..|laps| - 1]), laps[|laps| - 1])
  }

  /** `lapsPerRace.flat().filter(lap => lap !== undefined)`: the laps of every race that has a list. */
  function AllLaps(races: seq<Race>): seq<Lap> {
    if races == [] then []
    else AllLaps(races[..|races| - 1]) + races[|races| - 1].laps.GetOr([])
  }

  /** `getRaceSummary`. */
  function GetRaceSummary(races: seq<Race>): LapSummary {
    Summarize(AllLaps(races))
  }

  // ----- Reference definitions over the valid laps -----

  function ValidLaps(laps: seq<Lap>): (v: seq<Lap>)
    ensures |v| <= |laps|
  {
    if laps == [] then []
    else ValidLaps(laps[..|laps| - 1]) + (if laps[|laps| - 1].isValid then [laps[|laps| - 1]] else [])
  }

  function SumTimes(laps: seq<Lap>): nat {
    if laps == [] then 0 else laps[0].lapTime + SumTimes(laps[1..])
  }

  function SumResets(laps: seq<Lap>): nat {
    if laps == [] then 0 else Resets(laps[0]) + SumResets(laps[1..])
  }

  lemma {:induction false} SumTimesSnoc(laps: seq<Lap>, lap: Lap)
    ensures SumTimes(laps + [lap]) == SumTimes(laps) + lap.lapTime
  {
    if laps != [] {
      assert (laps + [lap])[1..] == laps[1..] + [lap];
      SumTimesSnoc(laps[1..], lap);
    } else {
      assert ([] + [lap])[1..] == [];
    }
  }

  lemma {:induction false} SumResetsSnoc(laps: seq<Lap>, lap: Lap)
    ensures SumResets(laps + [lap]) == SumResets(laps) + Resets(lap)
  {
    if laps != [] {
      assert (laps + [lap])[1..] == laps[1..] + [lap];
      SumResetsSnoc(laps[1..], lap);
    } else {
      assert ([] + [lap])[1..] == [];
    }
  }

  /** An invalid lap leaves the accumulator exactly as it was. */
  lemma InvalidLapIgnored(prev: LapSummary, lap: Lap)
    requires !lap.isValid
    ensures AddLap(prev, lap) == prev
  {
  }

  /** The summary depends only on the valid laps. */
  lemma {:induction false} SummaryOfValidLaps(laps: seq<Lap>)
    ensures Summarize(laps) == Summarize(ValidLaps(laps))
  {
    if laps != [] {
      var init, last := laps[..|laps| - 1], laps[|laps| - 1];
      SummaryOfValidLaps(init);
      var v := ValidLaps(init);
      if last.isValid {
        assert ValidLaps(laps) == v + [last];
        assert (v + [last])[..|v|] == v;
      } else {
        assert ValidLaps(laps) == v;
      }
    }
  }

  /**
   * What the summary holds: every field is null exactly when no lap is valid;
   * otherwise it counts the valid laps, sums their times and resets (a missing
   * reset count is 0) and holds the least and the greatest valid lap time.
   */
  predicate SummaryOf(laps: seq<Lap>, s: LapSummary) {
    var v := ValidLaps(laps);
    && (s.laps.None? <==> v == [])
    && (v == [] ==> s == EmptySummary)
    && (v != [] ==>
          && s.laps == Some(|v|)
          && s.resets == Some(SumResets(v))
          && s.timeSum == Some(SumTimes(v))
          && s.fastestTime.Some? && s.slowestTime.Some?
          && (forall i :: 0 <= i < |v| ==> s.fastestTime.value <= v[i].lapTime <= s.slowestTime.value)
          && (exists i :: 0 <= i < |v| && v[i].lapTime == s.fastestTime.value)
          && (exists i :: 0 <= i < |v| && v[i].lapTime == s.slowestTime.value))
  }

  lemma {:induction false} SummarizeCorrect(laps: seq<Lap>)
    ensures SummaryOf(laps, Summarize(laps))
  {
    if laps != [] {
      var init, last := laps[..|laps| - 1], laps[|laps| - 1];
      SummarizeCorrect(init);
      var v := ValidLaps(init);
      if last.isValid {
        var v' := v + [last];
        assert ValidLaps(laps) == v';
        SumTimesSnoc(v, last);
        SumResetsSnoc(v, last);
        var s, s' := Summarize(init), Summarize(laps);
        assert s' == AddLap(s, last);
        assert v'[|v|] == last;
        if v == [] {
          assert s' == LapSummary(Some(Resets(last)), Some(1), Some(last.lapTime), Some(last.lapTime), Some(last.lapTime));
          assert SumTimes(v) == 0 && SumResets(v) == 0;
        } else {
          forall i | 0 <= i < |v'|
            ensures s'.fastestTime.value <= v'[i].lapTime <= s'.slowestTime.value
          {
            if i < |v| {
              assert v'[i] == v[i];
            }
          }
          var f :| 0 <= f < |v| && v[f].lapTime == s.fastestTime.value;
          var g :| 0 <= g < |v| && v[g].lapTime == s.slowestTime.value;
          assert v'[f] == v[f] && v'[g] == v[g];
          if s.fastestTime.value > last.lapTime {
            assert v'[|v|].lapTime == s'.fastestTime.value;
          } else {
            assert v'[f].lapTime == s'.fastestTime.value;
          }
          if s.slowestTime.value < last.lapTime {
            assert v'[|v|].lapTime == s'.slowestTime.value;
          } else {
            assert v'[g].lapTime == s'.slowestTime.value;
          }
        }
      } else {
        assert ValidLaps(laps) == v;
      }
    }
  }

  /** The fastest and slowest times bound the total: `fastest * laps <= timeSum <= slowest * laps`. */
  lemma {:induction false} SumBetweenExtremes(laps: seq<Lap>)
    requires Summarize(laps).laps.Some?
    ensures var s := Summarize(laps);
      s.fastestTime.Some? && s.slowestTime.Some? && s.timeSum.Some?
      && s.fastestTime.value * s.laps.value <= s.timeSum.value <= s.slowestTime.value * s.laps.value
  {
    var init, last := laps[..|laps| - 1], laps[|laps| - 1];
    var s, s' := Summarize(init), Summarize(laps);
    if !last.isValid {
      SumBetweenExtremes(init);
    } else if s.laps.None? {
      SummarizeCorrect(init);
    } else {
      SumBetweenExtremes(init);
      SummarizeCorrect(init);
      ExtremesStep(s.fastestTime.value, s.slowestTime.value, s.laps.value, s.timeSum.value, last.lapTime);
    }
  }

  lemma ExtremesStep(f: nat, m: nat, n: nat, sum: nat, t: nat)
    requires f * n <= sum <= m * n
    ensures var f', m' := (if f > t then t else f), (if m < t then t else m);
      f' * (n + 1) <= sum + t <= m' * (n + 1)
  {
    var f', m' := (if f > t then t else f), (if m < t then t else m);
    assert f' * n <= f * n by { MulMono(f', f, n); }
    assert m * n <= m' * n by { MulMono(m, m', n); }
    assert f' * (n + 1) == f' * n + f';
    assert m' * (n + 1) == m' * n + m';
  }

  lemma MulMono(a: nat, b: nat, n: nat)
    requires a <= b
    ensures a * n <= b * n
  {
  }

  /** Truncating division of a sum that lies between `lo * n` and `hi * n` lies between `lo` and `hi`. */
  lemma QuotientBetween(lo: nat, hi: nat, n: nat, sum: nat)
    requires n > 0 && lo * n <= sum <= hi * n
    ensures lo <= sum / n <= hi
  {
    var q := sum / n;
    assert q * n <= sum < (q + 1) * n;
    if q < lo {
      MulMono(q + 1, lo, n);
    }
    if q > hi {
      MulMono(hi + 1, q, n);
    }
  }

  // ----- Per-user counts -----

  /** `self.indexOf(value)`: the first position of `x`, or `|ids|` when absent. */
  function IndexOf(ids: seq<string>, x: string): (k: nat)
    ensures k <= |ids| && (k < |ids| ==> ids[k] == x)
    ensures forall i :: 0 <= i < k ==> ids[i] != x
  {
    if ids == [] then 0 else if ids[0] == x then 0 else 1 + IndexOf(ids[1..], x)
  }

  /** The first `k` positions filtered by `self.indexOf(value) === index`. */
  function FirstOccurrences(ids: seq<string>, k: nat): seq<string>
    requires k <= |ids|
  {
    if k == 0 then []
    else FirstOccurrences(ids, k - 1) + (if IndexOf(ids, ids[k - 1]) == k - 1 then [ids[k - 1]] else [])
  }

  function Occurrences(ids: seq<string>, x: string): nat {
    if ids == [] then 0 else (if ids[0] == x then 1 else 0) + Occurrences(ids[1..], x)
  }

  /** The `reduce` building `numberOfRacesByUserId`. */
  function CountsByUser(ids: seq<string>): map<string, nat> {
    if ids == [] then map[]
    else
      var acc := CountsByUser(ids[..|ids| - 1]);
      var u := ids[|ids| - 1];
      acc[u := if u in acc && acc[u] > 0 then acc[u] + 1 else 1]
  }

  function MaxOf(s: seq<nat>): (m: nat)
    requires s != []
    ensures forall i :: 0 <= i < |s| ==> s[i] <= m
    ensures exists i :: 0 <= i < |s| && s[i] == m
  {
    if |s| == 1 then s[0]
    else
      var r := MaxOf(s[1..]);
      assert forall i :: 1 <= i < |s| ==> s[i] == s[1..][i - 1];
      if s[0] >= r then s[0] else r
  }

  /** `Object.values(numberOfRacesByUserId)`, in the order the keys were first inserted. */
  function CountValues(keys: seq<string>, counts: map<string, nat>): (vs: seq<nat>)
    requires forall i :: 0 <= i < |keys| ==> keys[i] in counts
    ensures |vs| == |keys| && forall i :: 0 <= i < |keys| ==> vs[i] == counts[keys[i]]
  {
    if keys == [] then [] else [counts[keys[0]]] + CountValues(keys[1..], counts)
  }

  /** `calculateMetrics`. */
  function CalculateMetrics(races: seq<Race>): (r: RaceMetrics)
    ensures races == [] ==> r == NullMetrics
  {
    var ids := UserIds(races);
    var unique := FirstOccurrences(ids, |ids|);
    var counts := CountsByUser(ids);
    var numberOfRaces := |races|;
    if numberOfRaces > 0 then
      var summary := GetRaceSummary(races);
      if summary.laps.Some? && summary.laps.value > 0 then
        UniqueUsersCounted(ids);
        SummaryFieldsTogether(AllLaps(races));
        assert summary.resets.Some? && summary.timeSum.Some?;
        var most := MaxOf(CountValues(unique, counts));
        var laps := summary.laps.value;
        RaceMetrics(
          Some(|unique|),
          Some(numberOfRaces),
          Some(most),
          Some(Ratio(numberOfRaces, |unique|)),
          Some(laps),
          summary.resets,
          Some(Ratio(summary.resets.value, laps)),
          Some(Ratio(laps, numberOfRaces)),
          Some(summary.timeSum.value / laps),
          summary.fastestTime,
          summary.slowestTime)
      else NullMetrics
    else NullMetrics
  }

  /** Every first occurrence is a key of the counts, and there is one when there is a race. */
  lemma UniqueUsersCounted(ids: seq<string>)
    requires ids != []
    ensures var unique := FirstOccurrences(ids, |ids|);
      unique != [] && forall i :: 0 <= i < |unique| ==> unique[i] in CountsByUser(ids)
  {
    var unique := FirstOccurrences(ids, |ids|);
    FirstOccurrencesMembers(ids, |ids|);
    assert ids[..|ids|] == ids;
    CountsKeys(ids);
    assert ids[0] in unique;
  }

  /** The summary fields become non-null together. */
  lemma {:induction false} SummaryFieldsTogether(laps: seq<Lap>)
    ensures var s := Summarize(laps);
      s.laps.Some? ==> s.resets.Some? && s.timeSum.Some? && s.fastestTime.Some? && s.slowestTime.Some?
  {
    if laps != [] {
      SummaryFieldsTogether(laps[..|laps| - 1]);
    }
  }

  function UserIds(races: seq<Race>): (ids: seq<string>)
    ensures |ids| == |races| && forall i :: 0 <= i < |races| ==> ids[i] == races[i].userId
  {
    if races == [] then [] else [races[0].userId] + UserIds(races[1..])
  }

  // ----- Facts about the per-user counts -----

  lemma {:induction false} FirstOccurrencesMembers(ids: seq<string>, k: nat)
    requires k <= |ids|
    ensures forall x :: x in FirstOccurrences(ids, k) <==> x in ids[..k]
  {
    if k > 0 {
      FirstOccurrencesMembers(ids, k - 1);
      var x := ids[k - 1];
      assert ids[..k] == ids[..k - 1] + [x];
      if IndexOf(ids, x) != k - 1 {
        assert ids[IndexOf(ids, x)] in ids[..k - 1];
      }
    }
  }

  predicate Distinct(f: seq<string>) {
    forall i, j :: 0 <= i < j < |f| ==> f[i] != f[j]
  }

  lemma {:induction false} FirstOccurrencesDistinct(ids: seq<string>, k: nat)
    requires k <= |ids|
    ensures Distinct(FirstOccurrences(ids, k))
  {
    if k > 0 {
      FirstOccurrencesDistinct(ids, k - 1);
      FirstOccurrencesMembers(ids, k - 1);
      var f := FirstOccurrences(ids, k - 1);
      var x := ids[k - 1];
      if IndexOf(ids, x) == k - 1 {
        assert x !in ids[..k - 1];
        assert x !in f;
        var f' := f + [x];
        assert FirstOccurrences(ids, k) == f';
        forall i, j | 0 <= i < j < |f'| ensures f'[i] != f'[j] {
          if j == |f| {
            assert f'[i] == f[i] && f[i] in f;
          } else {
            assert f'[i] == f[i] && f'[j] == f[j];
          }
        }
      } else {
        assert FirstOccurrences(ids, k) == f;
      }
    }
  }

  lemma {:induction false} DistinctCard(f: seq<string>)
    requires Distinct(f)
    ensures |set x | x in f| == |f|
  {
    if f != [] {
      var init := f[..|f| - 1];
      assert Distinct(init) by {
        forall i, j | 0 <= i < j < |init| ensures init[i] != init[j] {
          assert init[i] == f[i] && init[j] == f[j];
        }
      }
      DistinctCard(init);
      var last := f[|f| - 1];
      assert last !in init;
      assert (set x | x in f) == (set x | x in init) + {last};
    }
  }

  /** `numberOfUniqueRacers` is the number of distinct user ids. */
  lemma UniqueRacersCount(ids: seq<string>)
    ensures |FirstOccurrences(ids, |ids|)| == |set x | x in ids|
  {
    var f := FirstOccurrences(ids, |ids|);
    FirstOccurrencesDistinct(ids, |ids|);
    DistinctCard(f);
    FirstOccurrencesMembers(ids, |ids|);
    assert ids[..|ids|] == ids;
    assert (set x | x in f) == (set x | x in ids);
  }

  lemma {:induction false} OccurrencesSnoc(ids: seq<string>, y: string, x: string)
    ensures Occurrences(ids + [y], x) == Occurrences(ids, x) + (if y == x then 1 else 0)
  {
    if ids != [] {
      assert (ids + [y])[1..] == ids[1..] + [y];
      OccurrencesSnoc(ids[1..], y, x);
    } else {
      assert ([] + [y])[1..] == [];
    }
  }

  lemma {:induction false} OccurrencesPositive(ids: seq<string>, x: string)
    ensures x in ids <==> Occurrences(ids, x) > 0
  {
    if ids != [] {
      OccurrencesPositive(ids[1..], x);
      assert x in ids <==> ids[0] == x || x in ids[1..];
    }
  }

  /** Each user in the list is counted once per race; no other key appears. */
  lemma {:induction false} CountsKeys(ids: seq<string>)
    ensures forall x :: x in CountsByUser(ids) <==> x in ids
    ensures forall x :: x in CountsByUser(ids) ==> CountsByUser(ids)[x] == Occurrences(ids, x)
  {
    if ids != [] {
      var init, u := ids[..|ids| - 1], ids[|ids| - 1];
      CountsKeys(init);
      assert ids == init + [u];
      forall x ensures Occurrences(ids, x) == Occurrences(init, x) + (if u == x then 1 else 0) {
        OccurrencesSnoc(init, u, x);
      }
      OccurrencesPositive(init, u);
    }
  }

  /** `mostNumberOfRacesByUser` is the largest number of races of any one user. */
  lemma MostRacesIsMaximum(races: seq<Race>)
    requires CalculateMetrics(races).mostNumberOfRacesByUser.Some?
    ensures var most := CalculateMetrics(races).mostNumberOfRacesByUser.value;
      var ids := UserIds(races);
      && (forall i :: 0 <= i < |ids| ==> Occurrences(ids, ids[i]) <= most)
      && (exists i :: 0 <= i < |ids| && Occurrences(ids, ids[i]) == most)
  {
    var ids := UserIds(races);
    var unique := FirstOccurrences(ids, |ids|);
    var counts := CountsByUser(ids);
    CountsKeys(ids);
    FirstOccurrencesMembers(ids, |ids|);
    assert ids[..|ids|] == ids;
    var vs := CountValues(unique, counts);
    var most := CalculateMetrics(races).mostNumberOfRacesByUser.value;
    assert most == MaxOf(vs);
    forall i | 0 <= i < |ids| ensures Occurrences(ids, ids[i]) <= most {
      var x := ids[i];
      assert x in unique;
      var j :| 0 <= j < |unique| && unique[j] == x;
      assert vs[j] == counts[x];
    }
    var j :| 0 <= j < |vs| && vs[j] == most;
    var x := unique[j];
    assert x in ids;
    var i :| 0 <= i < |ids| && ids[i] == x;
    assert Occurrences(ids, ids[i]) == most;
  }

  // ----- Properties of calculateMetrics -----

  /** All valid laps of all races. */
  function ValidLapsOf(races: seq<Race>): seq<Lap> {
    ValidLaps(AllLaps(races))
  }

  /** No race, or no valid lap, gives all-null metrics; otherwise no metric is null. */
  lemma NullIffNoValidLap(races: seq<Race>)
    ensures CalculateMetrics(races) == NullMetrics <==> ValidLapsOf(races) == []
  {
    SummarizeCorrect(AllLaps(races));
    if races == [] {
      assert AllLaps(races) == [];
    }
  }

  /**
   * A non-null result: the race count, the unique-racer count, the valid-lap count,
   * the resets and time sums of the valid laps, the least and greatest valid lap time
   * (each that of some valid lap) and the quotients built from these.
   */
  lemma MetricsOfRaces(races: seq<Race>)
    requires ValidLapsOf(races) != []
    ensures var r := CalculateMetrics(races);
      var v := ValidLapsOf(races);
      var unique := |set x | x in UserIds(races)|;
      && r.numberOfRaces == Some(|races|)
      && r.numberOfUniqueRacers == Some(unique)
      && r.totalLaps == Some(|v|)
      && r.totalresets == Some(SumResets(v))
      && r.avgRacesPerUser == Some(Ratio(|races|, unique))
      && r.avgresestsPerLap == Some(Ratio(SumResets(v), |v|))
      && r.avgLapsPerRace == Some(Ratio(|v|, |races|))
      && r.avgLapTime == Some(SumTimes(v) / |v|)
      && r.fastestLap.Some? && r.slowestLap.Some?
      && (forall i :: 0 <= i < |v| ==> r.fastestLap.value <= v[i].lapTime <= r.slowestLap.value)
      && (exists i :: 0 <= i < |v| && v[i].lapTime == r.fastestLap.value)
      && (exists i :: 0 <= i < |v| && v[i].lapTime == r.slowestLap.value)
      && r.fastestLap.value <= r.avgLapTime.value <= r.slowestLap.value
  {
    var laps := AllLaps(races);
    SummarizeCorrect(laps);
    UniqueRacersCount(UserIds(races));
    var s := Summarize(laps);
    SumBetweenExtremes(laps);
    QuotientBetween(s.fastestTime.value, s.slowestTime.value, s.laps.value, s.timeSum.value);
  }

}
