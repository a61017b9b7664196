/**
 * Lists of records identified by a key field, as the global store keeps them
 * (events by `eventId`, races by `raceId`, fleets by `fleetId`, users by `sub`,
 * notifications by `id`, cars by `InstanceId`). The operations are the
 * `findIndex`, push-or-assign and `filter` steps the store reducers perform;
 * `Lookup` reads a list as the dictionary from key to record it stands for.
 */
module KeyedList {
  import opened Wrappers

  /** `findIndex((e) => key(e) === k)`: the first position holding key `k`, or -1. */
  function FindIndex<T, K(==)>(s: seq<T>, key: T -> K, k: K): (i: int)
    ensures -1 <= i < |s|
    ensures i >= 0 ==> key(s[i]) == k && forall j :: 0 <= j < i ==> key(s[j]) != k
    ensures i == -1 ==> forall j :: 0 <= j < |s| ==> key(s[j]) != k
  {
    if s == [] then -1
    else if key(s[0]) == k then 0
    else
      var r := FindIndex(s[1..], key, k);
      if r == -1 then -1 else r + 1
  }

  predicate HasKey<T, K(==)>(s: seq<T>, key: T -> K, k: K) {
    exists j :: 0 <= j < |s| && key(s[j]) == k
  }

  /** No two entries share a key. */
  predicate KeysUnique<T, K(==)>(s: seq<T>, key: T -> K) {
    forall i, j :: 0 <= i < j < |s| ==> key(s[i]) != key(s[j])
  }

  /** The record a list holds under key `k`: the first one, as `find` returns it. */
  function Lookup<T, K(==)>(s: seq<T>, key: T -> K, k: K): (r: Option<T>)
    ensures r.None? <==> !HasKey(s, key, k)
    ensures r.Some? ==> r.value in s && key(r.value) == k
  {
    var i := FindIndex(s, key, k);
    if i == -1 then None else Some(s[i])
  }

  /** Overwrite the entry with `x`'s key in place, or append `x` when there is none. */
  function Upsert<T, K(==)>(s: seq<T>, key: T -> K, x: T): seq<T> {
    var i := FindIndex(s, key, key(x));
    if i == -1 then s + [x] else s[i := x]
  }

  /** `forEach` of `Upsert` over `xs`, from the first to the last. */
  function UpsertAll<T, K(==)>(s: seq<T>, key: T -> K, xs: seq<T>): seq<T>
    decreases |xs|
  {
    if xs == [] then s else Upsert(UpsertAll(s, key, xs[..|xs| - 1]), key, xs[|xs| - 1])
  }

  /** `filter((e) => !ks.includes(key(e)))`. */
  function RemoveKeys<T, K(==)>(s: seq<T>, key: T -> K, ks: seq<K>): (r: seq<T>)
    ensures |r| <= |s|
  {
    if s == [] then []
    else (if key(s[0]) in ks then [] else [s[0]]) + RemoveKeys(s[1..], key, ks)
  }

  /** The last record of `xs` with key `k`: the one a run of upserts leaves behind. */
  function LastWithKey<T, K(==)>(xs: seq<T>, key: T -> K, k: K): Option<T>
    decreases |xs|
  {
    if xs == [] then None
    else if key(xs[|xs| - 1]) == k then Some(xs[|xs| - 1])
    else LastWithKey(xs[..|xs| - 1], key, k)
  }

  // ----- Upsert -----

  /**
   * The list grows by one exactly when the key was absent; the record lands at the
   * old position of its key or at the end, and every other position is unchanged.
   */
  lemma UpsertShape<T, K>(s: seq<T>, key: T -> K, x: T)
    ensures var r := Upsert(s, key, x);
      && |r| == (if HasKey(s, key, key(x)) then |s| else |s| + 1)
      && (HasKey(s, key, key(x)) ==> r[FindIndex(s, key, key(x))] == x)
      && (!HasKey(s, key, key(x)) ==> r[|s|] == x)
      && (forall j :: 0 <= j < |s| && key(s[j]) != key(x) ==> r[j] == s[j])
  {
  }

  /** Upsert acts on the dictionary a list stands for as an update at `x`'s key. */
  lemma UpsertLookup<T, K>(s: seq<T>, key: T -> K, x: T, k: K)
    ensures Lookup(Upsert(s, key, x), key, k) == if k == key(x) then Some(x) else Lookup(s, key, k)
  {
    var r := Upsert(s, key, x);
    var i := FindIndex(s, key, key(x));
    var a := FindIndex(s, key, k);
    if k == key(x) {
      FindIndexAt(r, key, k, if i == -1 then |s| else i);
    } else if a == -1 {
      FindIndexAbsent(r, key, k);
    } else {
      FindIndexAt(r, key, k, a);
    }
  }

  /** The first position holding `k` is the one `FindIndex` returns. */
  lemma FindIndexAt<T, K>(s: seq<T>, key: T -> K, k: K, i: nat)
    requires i < |s| && key(s[i]) == k && forall j :: 0 <= j < i ==> key(s[j]) != k
    ensures FindIndex(s, key, k) == i
  {
  }

  lemma FindIndexAbsent<T, K>(s: seq<T>, key: T -> K, k: K)
    requires forall j :: 0 <= j < |s| ==> key(s[j]) != k
    ensures FindIndex(s, key, k) == -1
  {
  }

  /** Upserting into a list with unique keys keeps them unique. */
  lemma UpsertKeepsUnique<T, K>(s: seq<T>, key: T -> K, x: T)
    requires KeysUnique(s, key)
    ensures KeysUnique(Upsert(s, key, x), key)
  {
  }

  // ----- A run of upserts -----

  lemma {:induction false} UpsertAllKeepsUnique<T, K>(s: seq<T>, key: T -> K, xs: seq<T>)
    requires KeysUnique(s, key)
    ensures KeysUnique(UpsertAll(s, key, xs), key)
    decreases |xs|
  {
    if xs != [] {
      UpsertAllKeepsUnique(s, key, xs[..|xs| - 1]);
      UpsertKeepsUnique(UpsertAll(s, key, xs[..|xs| - 1]), key, xs[|xs| - 1]);
    }
  }

  /** After a run of upserts a key holds its last upserted record, or what it held before. */
  lemma {:induction false} UpsertAllLookup<T, K>(s: seq<T>, key: T -> K, xs: seq<T>, k: K)
    ensures Lookup(UpsertAll(s, key, xs), key, k)
         == if LastWithKey(xs, key, k).Some? then LastWithKey(xs, key, k) else Lookup(s, key, k)
    decreases |xs|
  {
    if xs != [] {
      UpsertAllLookup(s, key, xs[..|xs| - 1], k);
      UpsertLookup(UpsertAll(s, key, xs[..|xs| - 1]), key, xs[|xs| - 1], k);
    }
  }

  /** One more element extends a run of upserts by one upsert. */
  lemma UpsertAllSnoc<T, K>(s: seq<T>, key: T -> K, xs: seq<T>, i: nat)
    requires i < |xs|
    ensures UpsertAll(s, key, xs[..i + 1]) == Upsert(UpsertAll(s, key, xs[..i]), key, xs[i])
  {
    assert xs[..i + 1][..i] == xs[..i];
  }

  // ----- Removing by key -----

  /** An entry survives exactly when its key is not listed. */
  lemma {:induction false} RemoveKeysMember<T, K>(s: seq<T>, key: T -> K, ks: seq<K>, x: T)
    ensures x in RemoveKeys(s, key, ks) <==> x in s && key(x) !in ks
  {
    if s != [] {
      RemoveKeysMember(s[1..], key, ks, x);
      assert s == [s[0]] + s[1..];
    }
  }

  /** Removal works element by element, so the survivors keep their order. */
  lemma {:induction false} RemoveKeysConcat<T, K>(a: seq<T>, b: seq<T>, key: T -> K, ks: seq<K>)
    ensures RemoveKeys(a + b, key, ks) == RemoveKeys(a, key, ks) + RemoveKeys(b, key, ks)
  {
    if a != [] {
      var h := if key(a[0]) in ks then [] else [a[0]];
      assert (a + b)[0] == a[0] && (a + b)[1..] == a[1..] + b;
      assert RemoveKeys(a + b, key, ks) == h + RemoveKeys(a[1..] + b, key, ks);
      RemoveKeysConcat(a[1..], b, key, ks);
      assert RemoveKeys(a, key, ks) == h + RemoveKeys(a[1..], key, ks);
    } else {
      assert a + b == b;
    }
  }

  /** Removing keys no entry has leaves the list as it was. */
  lemma {:induction false} RemoveAbsentKeys<T, K>(s: seq<T>, key: T -> K, ks: seq<K>)
    requires forall j :: 0 <= j < |s| ==> key(s[j]) !in ks
    ensures RemoveKeys(s, key, ks) == s
  {
    if s != [] {
      RemoveAbsentKeys(s[1..], key, ks);
    }
  }

  /** On the dictionary a list stands for, removal deletes the listed keys and keeps the rest. */
  lemma {:induction false} RemoveKeysLookup<T, K>(s: seq<T>, key: T -> K, ks: seq<K>, k: K)
    ensures Lookup(RemoveKeys(s, key, ks), key, k) == if k in ks then None else Lookup(s, key, k)
  {
    if s != [] {
      RemoveKeysLookup(s[1..], key, ks, k);
      var r := RemoveKeys(s, key, ks);
      LookupCons(s, key, k);
      var rest := RemoveKeys(s[1..], key, ks);
      if key(s[0]) !in ks {
        assert r == [s[0]] + rest;
        assert r[0] == s[0] && r[1..] == rest;
        LookupCons(r, key, k);
        assert Lookup(r, key, k) == if key(s[0]) == k then Some(s[0]) else Lookup(rest, key, k);
      } else {
        assert r == rest;
      }
    }
  }

  /** Looking up in a non-empty list: the head, or the lookup in the tail. */
  lemma LookupCons<T, K>(s: seq<T>, key: T -> K, k: K)
    requires s != []
    ensures Lookup(s, key, k) == if key(s[0]) == k then Some(s[0]) else Lookup(s[1..], key, k)
  {
  }

  /** Removal keeps keys unique. */
  lemma {:induction false} RemoveKeysKeepsUnique<T, K>(s: seq<T>, key: T -> K, ks: seq<K>)
    requires KeysUnique(s, key)
    ensures KeysUnique(RemoveKeys(s, key, ks), key)
  {
    if s != [] {
      RemoveKeysKeepsUnique(s[1..], key, ks);
      var rest := RemoveKeys(s[1..], key, ks);
      if key(s[0]) !in ks {
        forall j | 0 <= j < |rest| ensures key(rest[j]) != key(s[0]) {
          RemoveKeysMemberAt(s[1..], key, ks, j);
        }
      }
    }
  }

  /** Every survivor comes from the list it was removed from. */
  lemma {:induction false} RemoveKeysMemberAt<T, K>(s: seq<T>, key: T -> K, ks: seq<K>, j: nat)
    requires j < |RemoveKeys(s, key, ks)|
    ensures exists i :: 0 <= i < |s| && s[i] == RemoveKeys(s, key, ks)[j]
  {
    if key(s[0]) in ks {
      RemoveKeysMemberAt(s[1..], key, ks, j);
      var i :| 0 <= i < |s[1..]| && s[1..][i] == RemoveKeys(s[1..], key, ks)[j];
      assert s[i + 1] == s[1..][i];
    } else if j > 0 {
      RemoveKeysMemberAt(s[1..], key, ks, j - 1);
      var i :| 0 <= i < |s[1..]| && s[1..][i] == RemoveKeys(s[1..], key, ks)[j - 1];
      assert s[i + 1] == s[1..][i];
    } else {
      assert s[0] == RemoveKeys(s, key, ks)[0];
    }
  }
}
