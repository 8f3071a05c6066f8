/**
 The bounded set of keys already seen and the deduplicator over it (app/deduplication/strategies.py:117-224).

 The tracker is specified against its whole history: it holds the `maxSize` most recently touched
 distinct keys, in the order they were last touched.
 */
module SeenKeys {
  import opened Collections
  import opened Options

  type Key = string

  // ---------- Recency ----------

  function Without(keys: seq<Key>, key: Key): (r: seq<Key>)
    ensures key !in r && |r| <= |keys|
    ensures forall k :: k in r <==> k in keys && k != key
  {
    if keys == [] then [] else (if keys[0] == key then [] else [keys[0]]) + Without(keys[1..], key)
  }

  /** `key` moved, or added, to the end. */
  function Touch(keys: seq<Key>, key: Key): seq<Key> {
    Without(keys, key) + [key]
  }

  /** The distinct keys of a history, by last touch, the most recent last. */
  function Recency(history: seq<Key>): seq<Key> {
    if history == [] then [] else Touch(Recency(history[..|history| - 1]), history[|history| - 1])
  }

  function LastN(keys: seq<Key>, n: nat): seq<Key> {
    if |keys| <= n then keys else keys[|keys| - n..]
  }

  function Elements(keys: seq<Key>): set<Key> {
    set k | k in keys
  }

  /** The distinct other keys touched after the last touch of `key`. */
  function TouchedSince(history: seq<Key>, key: Key): set<Key> {
    if history == [] || history[|history| - 1] == key then {}
    else TouchedSince(history[..|history| - 1], key) + {history[|history| - 1]}
  }

  // ---------- The tracker ----------

  class Tracker {
    const maxSize: nat
    var keys: seq<Key>
    var evictions: nat
    ghost var history: seq<Key>

    ghost predicate Valid()
      reads this
    {
      maxSize >= 1 && keys == LastN(Recency(history), maxSize)
    }

    constructor (maxSize: nat)
      requires maxSize >= 1
      ensures Valid() && this.maxSize == maxSize && history == [] && evictions == 0
    {
      this.maxSize, keys, evictions, history := maxSize, [], 0, [];
    }

    /** Record `key`; true when it had not been seen. */
    method Add(key: Key) returns (fresh_: bool)
      requires Valid()
      modifies this
      ensures Valid() && history == old(history) + [key]
      ensures fresh_ == !Remembers(old(history), maxSize, key)
      ensures keys == LastN(Recency(history), maxSize)
      ensures evictions == old(evictions) + (if fresh_ && |old(keys)| == maxSize then 1 else 0)
    {
      RecencyDistinct(history);
      AddKeepsRecency(Recency(history), maxSize, key);
      assert (history + [key])[..|history|] == history;
      history := history + [key];
      if key in keys {
        keys := Touch(keys, key);
        return false;
      }
      keys := keys + [key];
      if |keys| > maxSize {
        keys := keys[1..];
        evictions := evictions + 1;
      }
      return true;
    }
  }

  /** After `history`, a tracker of `n` keys still knows `key`. */
  predicate Remembers(history: seq<Key>, n: nat, key: Key) {
    key in LastN(Recency(history), n)
  }

  // ---------- The tracker keeps exactly the most recent keys ----------

  lemma {:induction false} WithoutAppend(a: seq<Key>, b: seq<Key>, key: Key)
    ensures Without(a + b, key) == Without(a, key) + Without(b, key)
  {
    if a == [] {
      assert a + b == b;
    } else {
      assert (a + b)[1..] == a[1..] + b;
      WithoutAppend(a[1..], b, key);
    }
  }

  lemma {:induction false} WithoutAbsent(keys: seq<Key>, key: Key)
    requires key !in keys
    ensures Without(keys, key) == keys
  {
    if keys != [] { WithoutAbsent(keys[1..], key); }
  }

  lemma {:induction false} WithoutPresent(keys: seq<Key>, key: Key)
    requires Distinct(keys) && key in keys
    ensures |Without(keys, key)| == |keys| - 1
  {
    if keys[0] == key { WithoutAbsent(keys[1..], key); } else { WithoutPresent(keys[1..], key); }
  }

  lemma {:induction false} WithoutDistinct(keys: seq<Key>, key: Key)
    requires Distinct(keys)
    ensures Distinct(Without(keys, key))
  {
    if keys != [] {
      var rest := Without(keys[1..], key);
      WithoutDistinct(keys[1..], key);
      assert keys[0] !in rest by {
        assert forall k :: k in rest ==> k in keys[1..];
      }
    }
  }

  lemma {:induction false} RecencyDistinct(history: seq<Key>)
    ensures Distinct(Recency(history))
    ensures Elements(Recency(history)) == Elements(history)
    decreases |history|
  {
    if history != [] {
      var before, last := history[..|history| - 1], history[|history| - 1];
      RecencyDistinct(before);
      WithoutDistinct(Recency(before), last);
      assert history == before + [last];
      assert forall k :: k in Recency(history) <==> k in Elements(Recency(before)) || k == last;
      assert forall k :: k in history <==> k in Elements(before) || k == last;
    }
  }

  /** One `add`, on the bounded list and on the unbounded recency list, agree. */
  lemma AddKeepsRecency(recent: seq<Key>, n: nat, key: Key)
    requires n >= 1 && Distinct(recent)
    ensures var keys := LastN(recent, n);
            LastN(Touch(recent, key), n)
            == if key in keys then Touch(keys, key) else LastN(keys + [key], n)
  {
    var keys := LastN(recent, n);
    var dropped := Dropped(recent, n);
    SplitLast(recent, n);
    if key in keys { TouchPresent(dropped, keys, n, key); } else { TouchAbsent(dropped, keys, n, key); }
  }

  /** What `LastN` leaves out. */
  function Dropped(keys: seq<Key>, n: nat): seq<Key> {
    if |keys| <= n then [] else keys[..|keys| - n]
  }

  lemma SplitLast(keys: seq<Key>, n: nat)
    requires Distinct(keys)
    ensures keys == Dropped(keys, n) + LastN(keys, n)
    ensures Distinct(LastN(keys, n)) && |LastN(keys, n)| <= n && (|LastN(keys, n)| == n || Dropped(keys, n) == [])
    ensures forall k :: k in LastN(keys, n) ==> k !in Dropped(keys, n)
  {
    var d, l := Dropped(keys, n), LastN(keys, n);
    forall i, j | 0 <= i < |d| && 0 <= j < |l| ensures d[i] != l[j] {
      assert d[i] == keys[i] && l[j] == keys[|d| + j];
    }
  }

  lemma TouchPresent(dropped: seq<Key>, keys: seq<Key>, n: nat, key: Key)
    requires key !in dropped && key in keys && Distinct(keys) && |keys| <= n && (|keys| == n || dropped == [])
    ensures LastN(Touch(dropped + keys, key), n) == Touch(keys, key)
  {
    WithoutAppend(dropped, keys, key);
    WithoutAbsent(dropped, key);
    WithoutPresent(keys, key);
    LastNAppend(dropped, Touch(keys, key), n);
    assert Touch(dropped + keys, key) == dropped + Touch(keys, key);
  }

  lemma TouchAbsent(dropped: seq<Key>, keys: seq<Key>, n: nat, key: Key)
    requires key !in keys && |keys| <= n && (|keys| == n || dropped == [])
    ensures LastN(Touch(dropped + keys, key), n) == LastN(keys + [key], n)
  {
    WithoutAppend(dropped, keys, key);
    WithoutAbsent(keys, key);
    LastNAppend(Without(dropped, key), keys + [key], n);
    assert Touch(dropped + keys, key) == Without(dropped, key) + (keys + [key]);
  }

  lemma LastNAppend(a: seq<Key>, b: seq<Key>, n: nat)
    requires |b| >= n || a == []
    ensures LastN(a + b, n) == LastN(b, n)
  {
    if a == [] { assert a + b == b; }
  }

  // ---------- Which keys are remembered ----------

  /** The keys after `key` in a list of distinct keys. */
  function After(keys: seq<Key>, key: Key): seq<Key>
    requires key in keys
  {
    if keys[0] == key then keys[1..] else After(keys[1..], key)
  }

  lemma {:induction false} AfterPosition(keys: seq<Key>, key: Key, n: nat)
    requires Distinct(keys) && key in keys
    ensures key in LastN(keys, n) <==> |After(keys, key)| < n
    ensures |After(keys, key)| < |keys|
  {
    if keys[0] == key {
      assert forall i :: 0 < i < |keys| ==> keys[i] != key;
      if |keys| > n { assert LastN(keys, n) == keys[|keys| - n..]; }
    } else {
      AfterPosition(keys[1..], key, n);
      if |keys| > n {
        assert LastN(keys, n) == LastN(keys[1..], n);
      }
    }
  }

  lemma {:induction false} AfterTouched(keys: seq<Key>, key: Key, other: Key)
    requires Distinct(keys) && key in keys && key != other
    ensures key in Touch(keys, other)
    ensures After(Touch(keys, other), key) == Without(After(keys, key), other) + [other]
  {
    if keys[0] == key {
      assert Touch(keys, other) == [key] + (Without(keys[1..], other) + [other]);
    } else {
      AfterTouched(keys[1..], key, other);
      if keys[0] != other {
        assert Touch(keys, other) == [keys[0]] + Touch(keys[1..], other);
        assert Touch(keys, other)[1..] == Touch(keys[1..], other);
      } else {
        assert Touch(keys, other) == Touch(keys[1..], other);
      }
    }
  }

  lemma {:induction false} AfterDistinct(keys: seq<Key>, key: Key)
    requires Distinct(keys) && key in keys
    ensures Distinct(After(keys, key))
  {
    if keys[0] != key { AfterDistinct(keys[1..], key); }
  }

  /** In recency order, the keys after `key` are the other keys touched since. */
  lemma {:induction false} AfterIsTouchedSince(history: seq<Key>, key: Key)
    requires key in history
    ensures key in Recency(history)
    ensures Elements(After(Recency(history), key)) == TouchedSince(history, key)
    decreases |history|
  {
    var before, last := history[..|history| - 1], history[|history| - 1];
    RecencyDistinct(before);
    if last == key {
      LastAfter(Without(Recency(before), key), key);
    } else {
      assert history == before + [last];
      assert key in before;
      AfterIsTouchedSince(before, key);
      AfterTouched(Recency(before), key, last);
      var after := After(Recency(before), key);
      assert Elements(Without(after, last) + [last]) == Elements(after) + {last};
    }
  }

  lemma {:induction false} LastAfter(keys: seq<Key>, key: Key)
    requires key !in keys
    ensures After(keys + [key], key) == []
  {
    if keys != [] {
      assert (keys + [key])[1..] == keys[1..] + [key];
      LastAfter(keys[1..], key);
    }
  }

  lemma {:induction false} DistinctCount(keys: seq<Key>)
    requires Distinct(keys)
    ensures |Elements(keys)| == |keys|
  {
    if keys != [] {
      DistinctCount(keys[1..]);
      assert Elements(keys) == {keys[0]} + Elements(keys[1..]);
      assert keys[0] !in keys[1..];
    }
  }

  /**
   A tracker of `n` keys flags a key exactly when it was touched before and fewer than `n` other
   distinct keys have been touched since.
   */
  lemma RemembersExactly(history: seq<Key>, n: nat, key: Key)
    ensures Remembers(history, n, key) <==> key in history && |TouchedSince(history, key)| < n
  {
    RecencyDistinct(history);
    assert key in Recency(history) <==> key in Elements(history);
    if key in history {
      AfterIsTouchedSince(history, key);
      AfterPosition(Recency(history), key, n);
      AfterDistinct(Recency(history), key);
      DistinctCount(After(Recency(history), key));
    }
  }

  // ---------- Deduplicating a stream ----------

  /** The partition key tuple of an event, such as (2026, 08, 07). */
  datatype Partition = Partition(values: seq<string>)

  datatype Event = Event(id: nat, key: Option<Key>, partition: Partition)

  /** The keys a stream of events touches. */
  function KeysOf(events: seq<Event>): seq<Key> {
    if events == [] then []
    else
      var before, last := KeysOf(events[..|events| - 1]), events[|events| - 1];
      before + if last.key.Some? then [last.key.value] else []
  }

  /** The event after `before` is flagged by a tracker of `n` keys. */
  predicate Flagged(before: seq<Event>, n: nat, event: Event) {
    event.key.Some? && Remembers(KeysOf(before), n, event.key.value)
  }

  /** The events of a stream that are not flagged. */
  function Kept(events: seq<Event>, n: nat): seq<Event> {
    if events == [] then []
    else
      var before, last := events[..|events| - 1], events[|events| - 1];
      Kept(before, n) + if Flagged(before, n, last) then [] else [last]
  }

  lemma KeptNext(events: seq<Event>, e: Event, n: nat)
    ensures Kept(events + [e], n) == if Flagged(events, n, e) then Kept(events, n) else Kept(events, n) + [e]
    ensures KeysOf(events + [e]) == if e.key.Some? then KeysOf(events) + [e.key.value] else KeysOf(events)
  {
    assert (events + [e])[..|events|] == events;
  }

  lemma EmptyStream(n: nat)
    ensures Kept([], n) == [] && KeysOf([]) == []
  {
  }

  class Deduplicator {
    const tracker: Tracker
    var seen: nat
    var unique: nat
    var duplicates: nat
    var exempt: nat
    ghost var events: seq<Event>
    ghost var kept: seq<Event>

    ghost predicate Valid()
      reads this, tracker
    {
      && tracker.Valid() && tracker.history == KeysOf(events)
      && kept == Kept(events, tracker.maxSize)
      && seen == |events| && unique == |kept| && seen == unique + duplicates
      && exempt <= unique
    }

    constructor (maxTrackedKeys: nat)
      requires maxTrackedKeys >= 1
      ensures Valid() && fresh(tracker) && events == [] && kept == [] && duplicates == 0
      ensures tracker.maxSize == maxTrackedKeys
    {
      tracker := new Tracker(maxTrackedKeys);
      seen, unique, duplicates, exempt, events, kept := 0, 0, 0, 0, [], [];
    }

    method IsDuplicate(event: Event) returns (duplicate: bool)
      requires Valid()
      modifies this, tracker
      ensures Valid() && events == old(events) + [event]
      ensures duplicate == Flagged(old(events), tracker.maxSize, event)
      ensures kept == if duplicate then old(kept) else old(kept) + [event]
      ensures unique == old(unique) + (if duplicate then 0 else 1)
      ensures duplicates == old(duplicates) + (if duplicate then 1 else 0)
    {
      hide Kept, KeysOf, Recency, LastN, Elements;
      KeptNext(events, event, tracker.maxSize);
      events := events + [event];
      seen := seen + 1;
      if event.key.None? {
        exempt, unique, kept := exempt + 1, unique + 1, kept + [event];
        return false;
      }
      var added := tracker.Add(event.key.value);
      if added {
        unique, kept := unique + 1, kept + [event];
        return false;
      }
      duplicates := duplicates + 1;
      return true;
    }

    /** The events of a stream that are not flagged, after whatever was seen before. */
    method Filter(stream: seq<Event>) returns (passed: seq<Event>)
      requires Valid()
      modifies this, tracker
      ensures Valid() && events == old(events) + stream && kept == old(kept) + passed
      ensures old(events) == [] ==> passed == Kept(stream, tracker.maxSize)
    {
      hide Kept, KeysOf, Flagged, Recency, LastN, Elements;
      passed := [];
      EmptyStream(tracker.maxSize);
      for i := 0 to |stream|
        invariant Valid() && events == old(events) + stream[..i] && kept == old(kept) + passed
      {
        assert stream[..i + 1] == stream[..i] + [stream[i]];
        var duplicate := IsDuplicate(stream[i]);
        if !duplicate { passed := passed + [stream[i]]; }
      }
      assert stream[..|stream|] == stream && [] + stream == stream && [] + passed == passed;
    }
  }

  /** A larger bound flags at least the same events. */
  lemma LargerBoundFlagsMore(before: seq<Event>, n: nat, m: nat, event: Event)
    requires n <= m && Flagged(before, n, event)
    ensures Flagged(before, m, event)
  {
    RemembersExactly(KeysOf(before), n, event.key.value);
    RemembersExactly(KeysOf(before), m, event.key.value);
  }

  /** The events whose key did not occur earlier: deduplication without a bound. */
  function FirstOccurrences(events: seq<Event>): seq<Event> {
    if events == [] then []
    else
      var before, last := events[..|events| - 1], events[|events| - 1];
      FirstOccurrences(before) + if last.key.Some? && last.key.value in KeysOf(before) then [] else [last]
  }

  /** With at most `n` distinct keys in the stream, the bound is never felt. */
  lemma {:induction false} BoundNotFelt(events: seq<Event>, n: nat)
    requires |Elements(KeysOf(events))| <= n
    ensures Kept(events, n) == FirstOccurrences(events)
    decreases |events|
  {
    if events != [] {
      var before, last := events[..|events| - 1], events[|events| - 1];
      var keys := KeysOf(before);
      assert Elements(keys) <= Elements(KeysOf(events));
      FewerElements(Elements(keys), Elements(KeysOf(events)));
      BoundNotFelt(before, n);
      RecencyDistinct(keys);
      DistinctCount(Recency(keys));
      if last.key.Some? { assert last.key.value in Recency(keys) <==> last.key.value in Elements(keys); }
    }
  }
}
