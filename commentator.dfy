/**
 * The commentator page's pick of the fastest average window
 * (website/src/commentator/support-functions.ts). The overlay's `averageLaps` array is
 * sorted in place by average time and its first element returned.
 */
module Commentator {
  import opened Wrappers
  import opened Sorting

  datatype AverageLap = AverageLap(startLapId: int, endLapId: int, avgTime: int)

  /** The comparator orders by `avgTime`. */
  function AvgKey(a: AverageLap): SortKey {
    Key(a.avgTime)
  }

  /**
   * `getFacestAvgFromOverlayInfo(overlayInfo)`: `averageLaps` is `None` when the field is
   * absent; the result `None` is the empty object `{}`. A non-empty array is left sorted.
   */
  method GetFacestAvgFromOverlayInfo(averageLaps: Option<array<AverageLap>>) returns (r: Option<AverageLap>)
    modifies if averageLaps.Some? then {averageLaps.value} else {}
    ensures averageLaps.None? ==> r.None?
    ensures averageLaps.Some? ==> averageLaps.value[..] == StableSort(old(averageLaps.value[..]), AvgKey)
    ensures averageLaps.Some? ==>
      (if averageLaps.value.Length == 0 then r.None? else r == Some(averageLaps.value[0]))
  {
    if averageLaps.Some? && averageLaps.value.Length > 0 {
      var laps := averageLaps.value;
      SortInPlace(laps, AvgKey);
      return Some(laps[0]);
    }
    return None;
  }

  /** The windows the sort leaves behind are the ones it was given, ascending by average time. */
  lemma SortedWindows(averageLaps: seq<AverageLap>)
    ensures multiset(StableSort(averageLaps, AvgKey)) == multiset(averageLaps)
    ensures var s := StableSort(averageLaps, AvgKey);
      forall i, j :: 0 <= i < j < |s| ==> s[i].avgTime <= s[j].avgTime
  {
    StableSortPermutes(averageLaps, AvgKey);
    StableSortSorted(averageLaps, AvgKey);
  }

  /** The window returned is one of the given ones, with the least average time. */
  lemma FastestWindowIsMinimum(averageLaps: seq<AverageLap>)
    requires averageLaps != []
    ensures var h := StableSort(averageLaps, AvgKey)[0];
      h in averageLaps && forall i :: 0 <= i < |averageLaps| ==> h.avgTime <= averageLaps[i].avgTime
  {
    StableSortHead(averageLaps, AvgKey);
  }

  /** Among windows of equal average time the first one given is returned. */
  lemma FastestWindowIsFirstOfTies(averageLaps: seq<AverageLap>)
    requires averageLaps != []
    ensures var h := StableSort(averageLaps, AvgKey)[0];
      exists i :: 0 <= i < |averageLaps| && averageLaps[i] == h
        && forall j :: 0 <= j < i ==> averageLaps[j].avgTime != h.avgTime
  {
    var s := StableSort(averageLaps, AvgKey);
    var h := s[0];
    StableSortPermutes(averageLaps, AvgKey);
    StableSortStable(averageLaps, AvgKey, AvgKey(h));
    WithKeyHead(s, AvgKey);
    var w := WithKey(averageLaps, AvgKey, AvgKey(h));
    assert |w| > 0 && w[0] == h;
    WithKeyFirst(averageLaps, AvgKey, AvgKey(h));
    var i :| 0 <= i < |averageLaps| && averageLaps[i] == w[0]
      && forall j :: 0 <= j < i ==> AvgKey(averageLaps[j]) != AvgKey(h);
    assert forall j :: 0 <= j < i ==> averageLaps[j].avgTime != h.avgTime;
  }

  /** The first element of a list heads its own key class. */
  lemma {:induction false} WithKeyHead<T>(s: seq<T>, key: T -> SortKey)
    requires s != []
    ensures |WithKey(s, key, key(s[0]))| > 0 && WithKey(s, key, key(s[0]))[0] == s[0]
    decreases |s|
  {
    if |s| > 1 {
      WithKeyHead(s[..|s| - 1], key);
    }
  }

  /** The head of a key class is the first element of the list with that key. */
  lemma {:induction false} WithKeyFirst<T>(s: seq<T>, key: T -> SortKey, k: SortKey)
    requires |WithKey(s, key, k)| > 0
    ensures exists i :: (0 <= i < |s| && s[i] == WithKey(s, key, k)[0]
      && forall j :: 0 <= j < i ==> key(s[j]) != k)
    decreases |s|
  {
    var init, last := s[..|s| - 1], s[|s| - 1];
    var w, tail := WithKey(init, key, k), if key(last) == k then [last] else [];
    assert WithKey(s, key, k) == w + tail;
    if |w| > 0 {
      WithKeyFirst(init, key, k);
      assert WithKey(s, key, k)[0] == w[0];
      var i :| 0 <= i < |init| && init[i] == w[0] && forall j :: 0 <= j < i ==> key(init[j]) != k;
      assert s[i] == init[i];
      assert forall j :: 0 <= j < i ==> s[j] == init[j];
    } else {
      WithKeyEmpty(init, key, k);
      assert WithKey(s, key, k) == [last];
      assert forall j :: 0 <= j < |s| - 1 ==> s[j] == init[j];
    }
  }

  /** A key class is empty only when no element has the key. */
  lemma {:induction false} WithKeyEmpty<T>(s: seq<T>, key: T -> SortKey, k: SortKey)
    requires |WithKey(s, key, k)| == 0
    ensures forall j :: 0 <= j < |s| ==> key(s[j]) != k
    decreases |s|
  {
    if s != [] {
      WithKeyEmpty(s[..|s| - 1], key, k);
      assert forall j :: 0 <= j < |s| - 1 ==> s[j] == s[..|s| - 1][j];
    }
  }
}
