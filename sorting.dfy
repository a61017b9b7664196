/**
 * `Array.prototype.sort` with a comparator that orders by a key, as the event
 * selector, the leaderboard and the commentator page use it. ECMAScript requires
 * the sort to be stable, so with a consistent comparator the result is fixed: the
 * stable sort by key. It is specified here by insertion sort on sequences and
 * performed in place on an array.
 */
module Sorting {
  import opened KeyedList

  /** A sort key: a number, or a position after every number (entries lacking the field). */
  datatype SortKey = Key(value: int) | Last

  /** The comparator's order: `a` may come before `b`. */
  predicate KeyLe(a: SortKey, b: SortKey) {
    match (a, b)
    case (Key(x), Key(y)) => x <= y
    case (_, Last) => true
    case (Last, Key(_)) => false
  }

  predicate SortedBy<T>(s: seq<T>, key: T -> SortKey) {
    forall i, j :: 0 <= i < j < |s| ==> KeyLe(key(s[i]), key(s[j]))
  }

  /** Insert `x` after every element whose key is not greater than its own. */
  function Insert<T>(s: seq<T>, key: T -> SortKey, x: T): seq<T>
    decreases |s|
  {
    if s == [] || KeyLe(key(s[|s| - 1]), key(x)) then s + [x]
    else Insert(s[..|s| - 1], key, x) + [s[|s| - 1]]
  }

  /** The stable sort by key. */
  function StableSort<T>(s: seq<T>, key: T -> SortKey): seq<T>
    decreases |s|
  {
    if s == [] then [] else Insert(StableSort(s[..|s| - 1], key), key, s[|s| - 1])
  }

  /** The elements with key `k`, in their order. */
  function WithKey<T>(s: seq<T>, key: T -> SortKey, k: SortKey): seq<T>
    decreases |s|
  {
    if s == [] then []
    else WithKey(s[..|s| - 1], key, k) + (if key(s[|s| - 1]) == k then [s[|s| - 1]] else [])
  }

  lemma KeyLeTotal(a: SortKey, b: SortKey)
    ensures KeyLe(a, b) || KeyLe(b, a)
  {
  }

  lemma KeyLeTrans(a: SortKey, b: SortKey, c: SortKey)
    requires KeyLe(a, b) && KeyLe(b, c)
    ensures KeyLe(a, c)
  {
  }

  // ----- Insert -----

  lemma {:induction false} InsertPermutes<T>(s: seq<T>, key: T -> SortKey, x: T)
    ensures |Insert(s, key, x)| == |s| + 1
    ensures multiset(Insert(s, key, x)) == multiset(s) + multiset{x}
    decreases |s|
  {
    if !(s == [] || KeyLe(key(s[|s| - 1]), key(x))) {
      var init := s[..|s| - 1];
      InsertPermutes(init, key, x);
      assert s == init + [s[|s| - 1]];
    }
  }

  lemma {:induction false} InsertSorted<T>(s: seq<T>, key: T -> SortKey, x: T)
    requires SortedBy(s, key)
    ensures SortedBy(Insert(s, key, x), key)
    decreases |s|
  {
    if s == [] || KeyLe(key(s[|s| - 1]), key(x)) {
      forall i | 0 <= i < |s| ensures KeyLe(key(s[i]), key(x)) {
        KeyLeTrans(key(s[i]), key(s[|s| - 1]), key(x));
      }
    } else {
      var init, last := s[..|s| - 1], s[|s| - 1];
      InsertSorted(init, key, x);
      InsertPermutes(init, key, x);
      var r := Insert(init, key, x);
      forall i | 0 <= i < |r| ensures KeyLe(key(r[i]), key(last)) {
        assert r[i] in multiset(r);
        if r[i] != x {
          assert r[i] in multiset(init);
          var j :| 0 <= j < |init| && init[j] == r[i];
        } else {
          KeyLeTotal(key(x), key(last));
        }
      }
    }
  }

  /** The elements with `x`'s key gain `x` at their end; the others are unaffected. */
  lemma {:induction false} InsertWithKey<T>(s: seq<T>, key: T -> SortKey, x: T, k: SortKey)
    ensures WithKey(Insert(s, key, x), key, k) == WithKey(s, key, k) + (if key(x) == k then [x] else [])
    decreases |s|
  {
    if s == [] || KeyLe(key(s[|s| - 1]), key(x)) {
      WithKeySnoc(s, key, x, k);
    } else {
      var init, last := s[..|s| - 1], s[|s| - 1];
      InsertWithKey(init, key, x, k);
      WithKeySnoc(Insert(init, key, x), key, last, k);
      WithKeySnoc(init, key, last, k);
      assert s == init + [last];
    }
  }

  lemma WithKeySnoc<T>(s: seq<T>, key: T -> SortKey, y: T, k: SortKey)
    ensures WithKey(s + [y], key, k) == WithKey(s, key, k) + (if key(y) == k then [y] else [])
  {
    assert (s + [y])[..|s|] == s;
  }

  // ----- The stable sort -----

  lemma {:induction false} StableSortSorted<T>(s: seq<T>, key: T -> SortKey)
    ensures SortedBy(StableSort(s, key), key)
    decreases |s|
  {
    if s != [] {
      StableSortSorted(s[..|s| - 1], key);
      InsertSorted(StableSort(s[..|s| - 1], key), key, s[|s| - 1]);
    }
  }

  lemma {:induction false} StableSortPermutes<T>(s: seq<T>, key: T -> SortKey)
    ensures |StableSort(s, key)| == |s|
    ensures multiset(StableSort(s, key)) == multiset(s)
    decreases |s|
  {
    if s != [] {
      StableSortPermutes(s[..|s| - 1], key);
      InsertPermutes(StableSort(s[..|s| - 1], key), key, s[|s| - 1]);
      assert s == s[..|s| - 1] + [s[|s| - 1]];
    }
  }

  /** Stability: elements with equal keys keep their relative order. */
  lemma {:induction false} StableSortStable<T>(s: seq<T>, key: T -> SortKey, k: SortKey)
    ensures WithKey(StableSort(s, key), key, k) == WithKey(s, key, k)
    decreases |s|
  {
    if s != [] {
      StableSortStable(s[..|s| - 1], key, k);
      InsertWithKey(StableSort(s[..|s| - 1], key), key, s[|s| - 1], k);
    }
  }

  /** The first element of the sorted list is one of the input's with the least key. */
  lemma StableSortHead<T>(s: seq<T>, key: T -> SortKey)
    requires s != []
    ensures var h := StableSort(s, key)[0];
      h in multiset(s) && forall i :: 0 <= i < |s| ==> KeyLe(key(h), key(s[i]))
  {
    var r := StableSort(s, key);
    StableSortSorted(s, key);
    StableSortPermutes(s, key);
    assert r[0] in multiset(r);
    forall i | 0 <= i < |s| ensures KeyLe(key(r[0]), key(s[i])) {
      assert s[i] in multiset(r);
      var j :| 0 <= j < |r| && r[j] == s[i];
      if j == 0 {
        KeyLeTotal(key(r[0]), key(r[0]));
      }
    }
  }

  /** Inserting an element whose id is new keeps ids unique. */
  lemma {:induction false} InsertKeepsUnique<T, K>(s: seq<T>, key: T -> SortKey, x: T, id: T -> K)
    requires KeysUnique(s, id) && forall i :: 0 <= i < |s| ==> id(s[i]) != id(x)
    ensures KeysUnique(Insert(s, key, x), id)
    decreases |s|
  {
    if !(s == [] || KeyLe(key(s[|s| - 1]), key(x))) {
      var init, last := s[..|s| - 1], s[|s| - 1];
      InsertKeepsUnique(init, key, x, id);
      InsertPermutes(init, key, x);
      var r := Insert(init, key, x);
      forall i | 0 <= i < |r| ensures id(r[i]) != id(last) {
        assert r[i] in multiset(r);
        if r[i] != x {
          assert r[i] in multiset(init);
          var j :| 0 <= j < |init| && init[j] == r[i];
          assert s[j] == init[j];
        }
      }
    }
  }

  /** Sorting keeps ids unique. */
  lemma {:induction false} StableSortKeepsUnique<T, K>(s: seq<T>, key: T -> SortKey, id: T -> K)
    requires KeysUnique(s, id)
    ensures KeysUnique(StableSort(s, key), id)
    decreases |s|
  {
    if s != [] {
      var init, last := s[..|s| - 1], s[|s| - 1];
      assert KeysUnique(init, id);
      StableSortKeepsUnique(init, key, id);
      StableSortPermutes(init, key);
      var r := StableSort(init, key);
      forall i | 0 <= i < |r| ensures id(r[i]) != id(last) {
        assert r[i] in multiset(r);
        var j :| 0 <= j < |init| && init[j] == r[i];
        assert s[j] == init[j];
      }
      InsertKeepsUnique(r, key, last, id);
    }
  }

  // ----- In place -----

  /**
   * `a.sort(comparator)`: the array is rearranged into the stable sort of its
   * elements by key (sorted, a permutation, equal keys in their old order).
   */
  method SortInPlace<T>(a: array<T>, key: T -> SortKey)
    modifies a
    ensures a[..] == StableSort(old(a[..]), key)
  {
    var i := 0;
    while i < a.Length
      invariant 0 <= i <= a.Length
      invariant a[..i] == StableSort(old(a[..])[..i], key)
      invariant a[i..] == old(a[..])[i..]
    {
      ghost var before := a[..];
      InsertInPlace(a, key, i);
      assert old(a[..])[..i + 1] == old(a[..])[..i] + [before[i]];
      assert a[i + 1..] == before[i + 1..];
      i := i + 1;
    }
    assert a[..] == a[..a.Length];
    assert old(a[..])[..a.Length] == old(a[..]);
  }

  /** One pass of insertion sort: `a[i]` moves left into the sorted prefix `a[..i]`. */
  method InsertInPlace<T>(a: array<T>, key: T -> SortKey, i: nat)
    requires i < a.Length
    modifies a
    ensures a[..i + 1] == Insert(old(a[..i]), key, old(a[i]))
    ensures a[i + 1..] == old(a[i + 1..])
  {
    var x := a[i];
    ghost var s := a[..i];
    var j := i;
    while j > 0 && !KeyLe(key(a[j - 1]), key(x))
      invariant 0 <= j <= i
      invariant a[..j] == s[..j]
      invariant a[j + 1..i + 1] == s[j..i]
      invariant a[i + 1..] == old(a[i + 1..])
      invariant Insert(s, key, x) == Insert(s[..j], key, x) + s[j..i]
    {
      InsertShiftStep(s, key, x, j, i);
      a[j] := a[j - 1];
      j := j - 1;
    }
    InsertStops(s, key, x, j);
    a[j] := x;
    assert a[..i + 1] == s[..j] + [x] + s[j..i];
  }

  /** Shifting the element before position `j` one place right moves the insertion point left. */
  lemma InsertShiftStep<T>(s: seq<T>, key: T -> SortKey, x: T, j: nat, i: nat)
    requires 0 < j <= i == |s| && !KeyLe(key(s[j - 1]), key(x))
    requires Insert(s, key, x) == Insert(s[..j], key, x) + s[j..i]
    ensures Insert(s, key, x) == Insert(s[..j - 1], key, x) + s[j - 1..i]
  {
    assert s[..j][..j - 1] == s[..j - 1];
    assert s[j - 1..i] == [s[j - 1]] + s[j..i];
  }

  /** Where the shifting stops, `x` goes right after the prefix. */
  lemma InsertStops<T>(s: seq<T>, key: T -> SortKey, x: T, j: nat)
    requires j <= |s| && (j == 0 || KeyLe(key(s[j - 1]), key(x)))
    ensures Insert(s[..j], key, x) == s[..j] + [x]
  {
  }
}
