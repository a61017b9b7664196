/**
 * The event selector's grouping of events into current, future, past and undated
 * ones (website/src/components/eventSelectorModal.tsx). The events are first sorted
 * in place by date; `now` and `weekAhead` are the `YYYY-MM-DD` texts of today and of
 * the day a week later, and `timeOf` stands for `new Date(d).getTime()`.
 */
module EventBuckets {
  import opened Wrappers
  import opened Strings
  import opened Sorting
  import opened Stores

  datatype Bucket = Current | Future | Past | MissingDate

  /** The date when the event has a non-empty one (`eventDate` is truthy). */
  predicate Dated(e: Event) {
    e.eventDate.Some? && e.eventDate.value != ""
  }

  /** The comparator's key: the date's time, or 0 without a date. */
  function DateKey(timeOf: string -> int, e: Event): SortKey {
    Key(if Dated(e) then timeOf(e.eventDate.value) else 0)
  }

  /** The `if`/`else if` chain of the loop, with JavaScript's string comparison. */
  function Classify(e: Event, now: string, weekAhead: string): Bucket {
    if Dated(e) && !StrLess(e.eventDate.value, now) && StrLess(e.eventDate.value, weekAhead) then Current
    else if Dated(e) && StrLess(e.eventDate.value, now) then Past
    else if Dated(e) && StrLess(now, e.eventDate.value) then Future
    else MissingDate
  }

  /** The events of `s` that fall into bucket `b`, in their order. */
  function InBucket(s: seq<Event>, b: Bucket, now: string, weekAhead: string): (r: seq<Event>)
    ensures |r| <= |s|
    decreases |s|
  {
    if s == [] then []
    else
      InBucket(s[..|s| - 1], b, now, weekAhead)
      + (if Classify(s[|s| - 1], now, weekAhead) == b then [s[|s| - 1]] else [])
  }

  /**
   * `sortEventsInBuckets(events)`: sorts `events` in place by date, then pushes each
   * event into the bucket its date selects. Returns current, future, past and undated.
   */
  method SortEventsInBuckets(events: array<Event>, now: string, weekAhead: string, timeOf: string -> int)
    returns (currentEvents: seq<Event>, futureEvents: seq<Event>, pastEvents: seq<Event>, eventsWithMissingDate: seq<Event>)
    modifies events
    ensures events[..] == StableSort(old(events[..]), e => DateKey(timeOf, e))
    ensures currentEvents == InBucket(events[..], Current, now, weekAhead)
    ensures futureEvents == InBucket(events[..], Future, now, weekAhead)
    ensures pastEvents == InBucket(events[..], Past, now, weekAhead)
    ensures eventsWithMissingDate == InBucket(events[..], MissingDate, now, weekAhead)
  {
    SortInPlace(events, e => DateKey(timeOf, e));
    currentEvents, futureEvents, pastEvents, eventsWithMissingDate := [], [], [], [];
    var i := 0;
    while i < events.Length
      invariant 0 <= i <= events.Length
      invariant currentEvents == InBucket(events[..i], Current, now, weekAhead)
      invariant futureEvents == InBucket(events[..i], Future, now, weekAhead)
      invariant pastEvents == InBucket(events[..i], Past, now, weekAhead)
      invariant eventsWithMissingDate == InBucket(events[..i], MissingDate, now, weekAhead)
    {
      var event := events[i];
      assert events[..i + 1][..i] == events[..i];
      var bucket := Classify(event, now, weekAhead);
      if bucket == Current {
        currentEvents := currentEvents + [event];
      } else if bucket == Past {
        pastEvents := pastEvents + [event];
      } else if bucket == Future {
        futureEvents := futureEvents + [event];
      } else {
        eventsWithMissingDate := eventsWithMissingDate + [event];
      }
      i := i + 1;
    }
    assert events[..events.Length] == events[..];
  }

  // ----- Properties -----

  /**
   * An event is current iff `now <= date < weekAhead`, past iff its date is before `now`,
   * future iff its date is after `now` and not before `weekAhead`; an undated event
   * is in the missing-date bucket.
   */
  lemma ClassifyCharacterised(e: Event, now: string, weekAhead: string)
    ensures var d := e.eventDate.GetOr("");
      && (Classify(e, now, weekAhead) == Current <==> Dated(e) && !StrLess(d, now) && StrLess(d, weekAhead))
      && (Classify(e, now, weekAhead) == Past <==> Dated(e) && StrLess(d, now))
      && (Classify(e, now, weekAhead) == Future <==> Dated(e) && StrLess(now, d) && !StrLess(d, weekAhead))
      && (!Dated(e) ==> Classify(e, now, weekAhead) == MissingDate)
  {
    var d := e.eventDate.GetOr("");
    if Dated(e) && StrLess(now, d) {
      StrLessAsymmetric(now, d);
    }
  }

  /** When `now` is before `weekAhead`, exactly the undated events are in the missing-date bucket. */
  lemma MissingDateIffUndated(e: Event, now: string, weekAhead: string)
    requires StrLess(now, weekAhead)
    ensures Classify(e, now, weekAhead) == MissingDate <==> !Dated(e)
  {
    if Dated(e) {
      StrLessTotal(e.eventDate.GetOr(""), now);
    }
  }

  /** Every event lands in exactly one bucket: the four buckets together are a permutation of the input. */
  lemma BucketsPartition(s: seq<Event>, now: string, weekAhead: string)
    ensures |InBucket(s, Current, now, weekAhead)| + |InBucket(s, Future, now, weekAhead)|
          + |InBucket(s, Past, now, weekAhead)| + |InBucket(s, MissingDate, now, weekAhead)| == |s|
    ensures multiset(InBucket(s, Current, now, weekAhead)) + multiset(InBucket(s, Future, now, weekAhead))
          + multiset(InBucket(s, Past, now, weekAhead)) + multiset(InBucket(s, MissingDate, now, weekAhead))
         == multiset(s)
  {
    BucketsMultiset(s, now, weekAhead);
    var c, f, p, m :=
      InBucket(s, Current, now, weekAhead), InBucket(s, Future, now, weekAhead),
      InBucket(s, Past, now, weekAhead), InBucket(s, MissingDate, now, weekAhead);
    assert |multiset(c) + multiset(f) + multiset(p) + multiset(m)| == |multiset(s)|;
  }

  lemma {:induction false} BucketsMultiset(s: seq<Event>, now: string, weekAhead: string)
    ensures multiset(InBucket(s, Current, now, weekAhead)) + multiset(InBucket(s, Future, now, weekAhead))
          + multiset(InBucket(s, Past, now, weekAhead)) + multiset(InBucket(s, MissingDate, now, weekAhead))
         == multiset(s)
    decreases |s|
  {
    if s != [] {
      var init, last := s[..|s| - 1], s[|s| - 1];
      assert s == init + [last];
      BucketsMultiset(init, now, weekAhead);
      var c, f, p, m :=
        multiset(InBucket(init, Current, now, weekAhead)), multiset(InBucket(init, Future, now, weekAhead)),
        multiset(InBucket(init, Past, now, weekAhead)), multiset(InBucket(init, MissingDate, now, weekAhead));
      BucketStep(init, last, Current, now, weekAhead);
      BucketStep(init, last, Future, now, weekAhead);
      BucketStep(init, last, Past, now, weekAhead);
      BucketStep(init, last, MissingDate, now, weekAhead);
      OneBucketGrows(c, f, p, m, last, Classify(last, now, weekAhead));
      assert multiset(s) == c + f + p + m + multiset{last};
    }
  }

  lemma OneBucketGrows(c: multiset<Event>, f: multiset<Event>, p: multiset<Event>, m: multiset<Event>, x: Event, b: Bucket)
    ensures (c + (if b == Current then multiset{x} else multiset{}))
          + (f + (if b == Future then multiset{x} else multiset{}))
          + (p + (if b == Past then multiset{x} else multiset{}))
          + (m + (if b == MissingDate then multiset{x} else multiset{}))
         == c + f + p + m + multiset{x}
  {
  }

  /** One more event adds itself to its own bucket's multiset and to no other. */
  lemma BucketStep(init: seq<Event>, last: Event, b: Bucket, now: string, weekAhead: string)
    ensures multiset(InBucket(init + [last], b, now, weekAhead))
         == multiset(InBucket(init, b, now, weekAhead)) + (if Classify(last, now, weekAhead) == b then multiset{last} else multiset{})
  {
    assert (init + [last])[..|init|] == init;
  }

  /** A bucket of a sorted list is sorted. */
  lemma {:induction false} BucketSorted(s: seq<Event>, b: Bucket, now: string, weekAhead: string, key: Event -> SortKey)
    requires SortedBy(s, key)
    ensures SortedBy(InBucket(s, b, now, weekAhead), key)
    decreases |s|
  {
    if s != [] {
      var init := s[..|s| - 1];
      assert SortedBy(init, key);
      BucketSorted(init, b, now, weekAhead, key);
      var r := InBucket(init, b, now, weekAhead);
      if Classify(s[|s| - 1], now, weekAhead) == b {
        forall i | 0 <= i < |r| ensures KeyLe(key(r[i]), key(s[|s| - 1])) {
          BucketMember(init, b, now, weekAhead, i);
        }
      }
    }
  }

  lemma {:induction false} BucketMember(s: seq<Event>, b: Bucket, now: string, weekAhead: string, i: nat)
    requires i < |InBucket(s, b, now, weekAhead)|
    ensures exists j :: 0 <= j < |s| && s[j] == InBucket(s, b, now, weekAhead)[i]
    decreases |s|
  {
    var init := s[..|s| - 1];
    var r := InBucket(init, b, now, weekAhead);
    if i < |r| {
      BucketMember(init, b, now, weekAhead, i);
      var j :| 0 <= j < |init| && init[j] == r[i];
      assert s[j] == init[j];
    } else {
      assert InBucket(s, b, now, weekAhead)[i] == s[|s| - 1];
    }
  }

  /** Within each bucket the events are in ascending date order, undated ones keyed as 0. */
  lemma BucketsInDateOrder(events: seq<Event>, b: Bucket, now: string, weekAhead: string, timeOf: string -> int)
    ensures var key := e => DateKey(timeOf, e);
      SortedBy(InBucket(StableSort(events, key), b, now, weekAhead), key)
  {
    var key := e => DateKey(timeOf, e);
    StableSortSorted(events, key);
    BucketSorted(StableSort(events, key), b, now, weekAhead, key);
  }
}
