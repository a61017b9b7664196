/**
 * Sliding windows of consecutive valid laps for the timekeeper's average-lap ranking
 * (website/src/pages/timekeeper/support-functions/averageClaculations.ts).
 * Times are integer milliseconds; the mean is rounded as `Math.round` rounds.
 */
module AverageWindows {
  import opened Wrappers

  datatype Lap = Lap(lapId: int, time: nat, isValid: bool)

  datatype AverageLapWindow = AverageLapWindow(startLapId: int, endLapId: int, avgTime: nat)

  /** `if (!windowSize) windowSize = 3`: an absent size and a size of 0 both mean 3. */
  function EffectiveWindowSize(windowSize: Option<nat>): (w: nat)
    ensures w > 0
    ensures windowSize.Some? && windowSize.value > 0 ==> w == windowSize.value
    ensures windowSize.None? || windowSize.value == 0 ==> w == 3
  {
    if windowSize.None? || windowSize.value == 0 then 3 else windowSize.value
  }

  /** `Math.round(sum / w)` for a non-negative sum: halves round up. */
  function RoundedMean(sum: nat, w: nat): (r: nat)
    requires w > 0
    ensures 2 * sum < (2 * r + 1) * w && (2 * r - 1) * w <= 2 * sum
  {
    (2 * sum + w) / (2 * w)
  }

  function SumTimes(laps: seq<Lap>): nat {
    if laps == [] then 0 else laps[0].time + SumTimes(laps[1..])
  }

  predicate AllValid(laps: seq<Lap>) {
    forall i :: 0 <= i < |laps| ==> laps[i].isValid
  }

  /** The window record for the `w` laps starting at `i`. */
  function WindowAt(laps: seq<Lap>, w: nat, i: nat): AverageLapWindow
    requires w > 0 && i + w <= |laps|
  {
    AverageLapWindow(laps[i].lapId, laps[i + w - 1].lapId, RoundedMean(SumTimes(laps[i..i + w]), w))
  }

  /** A window starts at `i` when it fits and all its laps are valid. */
  predicate StartsWindow(laps: seq<Lap>, w: nat, i: nat) {
    i + w <= |laps| && AllValid(laps[i..i + w])
  }

  /** The `reduce` over the first `k` indices: a window for each index that starts one. */
  function Collect(laps: seq<Lap>, w: nat, k: nat): seq<AverageLapWindow>
    requires w > 0 && k <= |laps|
  {
    if k == 0 then []
    else
      var acc := Collect(laps, w, k - 1);
      var i := k - 1;
      if i + w > |laps| then acc
      else if AllValid(laps[i..i + w]) then acc + [WindowAt(laps, w, i)]
      else acc
  }

  /** `getAverageWindows(laps, windowSize)`. */
  function GetAverageWindows(laps: seq<Lap>, windowSize: Option<nat>): seq<AverageLapWindow> {
    Collect(laps, EffectiveWindowSize(windowSize), |laps|)
  }

  /** The start indices below `k` that begin a window, in increasing order. */
  function Starts(laps: seq<Lap>, w: nat, k: nat): (s: seq<nat>)
    requires k <= |laps|
    ensures forall j :: 0 <= j < |s| ==> s[j] < k
  {
    if k == 0 then []
    else Starts(laps, w, k - 1) + (if StartsWindow(laps, w, k - 1) then [k - 1] else [])
  }

  /**
   * `c` holds one window per index of `s`, at that index; `s` increases and holds every
   * index below `k` that starts a window.
   */
  predicate WindowsAtStarts(laps: seq<Lap>, w: nat, s: seq<nat>, c: seq<AverageLapWindow>, k: nat) {
    && w > 0
    && |c| == |s|
    && (forall j :: 0 <= j < |s| ==> StartsWindow(laps, w, s[j]) && c[j] == WindowAt(laps, w, s[j]))
    && (forall j, j' :: 0 <= j < j' < |s| ==> s[j] < s[j'])
    && (forall i :: 0 <= i < k && StartsWindow(laps, w, i) ==> i in s)
  }

  /** The windows are exactly those at the starting indices, in increasing start order. */
  lemma {:induction false} CollectIsWindowsAtStarts(laps: seq<Lap>, w: nat, k: nat)
    requires w > 0 && k <= |laps|
    ensures WindowsAtStarts(laps, w, Starts(laps, w, k), Collect(laps, w, k), k)
  {
    if k > 0 {
      CollectIsWindowsAtStarts(laps, w, k - 1);
      var s := Starts(laps, w, k - 1);
      var c := Collect(laps, w, k - 1);
      if StartsWindow(laps, w, k - 1) {
        ExtendStarts(laps, w, s, c, k);
        assert Starts(laps, w, k) == s + [k - 1];
        assert Collect(laps, w, k) == c + [WindowAt(laps, w, k - 1)];
      } else {
        assert Starts(laps, w, k) == s;
        assert Collect(laps, w, k) == c;
      }
    }
  }

  /** An index that starts a window, above all earlier starts, extends both lists. */
  lemma ExtendStarts(laps: seq<Lap>, w: nat, s: seq<nat>, c: seq<AverageLapWindow>, k: nat)
    requires 0 < k && WindowsAtStarts(laps, w, s, c, k - 1) && StartsWindow(laps, w, k - 1)
    requires forall j :: 0 <= j < |s| ==> s[j] < k - 1
    ensures WindowsAtStarts(laps, w, s + [k - 1], c + [WindowAt(laps, w, k - 1)], k)
  {
    var s', c' := s + [k - 1], c + [WindowAt(laps, w, k - 1)];
    forall j | 0 <= j < |s'|
      ensures StartsWindow(laps, w, s'[j]) && c'[j] == WindowAt(laps, w, s'[j])
    {
      if j < |s| {
        assert s'[j] == s[j] && c'[j] == c[j];
      }
    }
    forall i | 0 <= i < k && StartsWindow(laps, w, i)
      ensures i in s'
    {
      if i == k - 1 {
        assert s'[|s|] == i;
      }
    }
  }

  /** Which windows `getAverageWindows` emits, and in which order. */
  lemma WindowsCharacterised(laps: seq<Lap>, windowSize: Option<nat>)
    ensures var w := EffectiveWindowSize(windowSize);
      var r := GetAverageWindows(laps, windowSize);
      var s := Starts(laps, w, |laps|);
      && |r| == |s|
      && (forall j :: 0 <= j < |s| ==> StartsWindow(laps, w, s[j]) && r[j] == WindowAt(laps, w, s[j]))
      && (forall j, j' :: 0 <= j < j' < |s| ==> s[j] < s[j'])
      && (forall i :: 0 <= i < |laps| && StartsWindow(laps, w, i) ==> i in s)
  {
    CollectIsWindowsAtStarts(laps, EffectiveWindowSize(windowSize), |laps|);
  }

  /** Only indices `i` with `i + w <= |laps|` can start a window. */
  lemma {:induction false} StartsBelowLimit(laps: seq<Lap>, w: nat, k: nat)
    requires k <= |laps|
    ensures forall j :: 0 <= j < |Starts(laps, w, k)| ==> Starts(laps, w, k)[j] + w <= |laps|
    ensures |Starts(laps, w, k)| <= k
    ensures |Starts(laps, w, k)| <= if w <= |laps| then |laps| - w + 1 else 0
  {
    if k > 0 {
      StartsBelowLimit(laps, w, k - 1);
    }
  }

  /** There are at most `max(0, n - w + 1)` windows. */
  lemma WindowCountBound(laps: seq<Lap>, windowSize: Option<nat>)
    ensures var w := EffectiveWindowSize(windowSize);
      |GetAverageWindows(laps, windowSize)| <= if w <= |laps| then |laps| - w + 1 else 0
  {
    var w := EffectiveWindowSize(windowSize);
    CollectIsWindowsAtStarts(laps, w, |laps|);
    StartsBelowLimit(laps, w, |laps|);
  }
}
