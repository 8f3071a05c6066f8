/**
 The bounded in-process cache (app/cache/backends.py:111-191), specified against an unbounded map of
 timed entries that is only ever set, deleted from and cleared.

 The clock is a parameter and never goes back.  A cached value may be `None`, which reads like a miss.
 */
module MemoryCache {
  import opened Collections
  import opened Options
  import opened SeenKeys

  datatype Entry<+V> = Entry(expiresAt: real, value: Option<V>)

  datatype Stats = Stats(hits: nat, misses: nat, sets: nat, evictions: nat)

  // ---------- Touch order ----------

  /** Every key was last touched after all keys before it. */
  ghost predicate Ordered(order: seq<Key>, touches: seq<Key>) {
    order != [] ==>
      (forall k :: k in order[1..] ==> k in TouchedSince(touches, order[0])) && Ordered(order[1..], touches)
  }

  lemma TouchedStep(touches: seq<Key>, key: Key, other: Key)
    ensures TouchedSince(touches + [key], other) == if key == other then {} else TouchedSince(touches, other) + {key}
  {
    assert (touches + [key])[..|touches|] == touches;
  }

  lemma {:induction false} WithoutOrdered(order: seq<Key>, touches: seq<Key>, key: Key)
    requires Ordered(order, touches)
    ensures Ordered(Without(order, key), touches)
  {
    if order != [] {
      WithoutOrdered(order[1..], touches, key);
      if order[0] != key { assert Without(order, key)[1..] == Without(order[1..], key); }
      else { assert Without(order, key) == Without(order[1..], key); }
    }
  }

  lemma {:induction false} AppendOrdered(order: seq<Key>, touches: seq<Key>, key: Key)
    requires Ordered(order, touches) && key !in order
    ensures Ordered(order + [key], touches + [key])
  {
    if order == [] {
      assert order + [key] == [key] && [key][1..] == [];
    } else {
      AppendOrdered(order[1..], touches, key);
      assert (order + [key])[1..] == order[1..] + [key];
      TouchedStep(touches, key, order[0]);
    }
  }

  /** All keys after the first were touched since the first. */
  lemma FirstIsOldest(order: seq<Key>, touches: seq<Key>)
    requires order != [] && Distinct(order) && Ordered(order, touches)
    ensures |TouchedSince(touches, order[0])| >= |order| - 1
  {
    DistinctCount(order[1..]);
    FewerElements(Elements(order[1..]), TouchedSince(touches, order[0]));
  }

  // ---------- The cache ----------

  /** A key the unbounded map has and the cache lacks has expired, or `n` other keys were touched since. */
  ghost predicate Accounted<V>(latest: map<Key, Entry<V>>, keys: set<Key>, touches: seq<Key>, n: nat, clock: real) {
    forall k :: k in latest && k !in keys ==> latest[k].expiresAt <= clock || |TouchedSince(touches, k)| >= n
  }

  class Cache<V> {
    const namespace: string
    const defaultTtl: int
    const maxEntries: nat
    var order: seq<Key>
    var entries: map<Key, Entry<V>>
    var stats: Stats
    ghost var latest: map<Key, Entry<V>>
    ghost var touches: seq<Key>
    ghost var clock: real

    ghost predicate Consistent()
      reads this
    {
      && maxEntries >= 16
      && Distinct(order) && entries.Keys == Elements(order) && Ordered(order, touches)
      && (forall k :: k in entries ==> k in latest && latest[k] == entries[k])
      && Accounted(latest, entries.Keys, touches, maxEntries, clock)
    }

    ghost predicate Valid()
      reads this
    {
      Consistent() && |order| <= maxEntries
    }

    constructor (namespace: string, defaultTtl: int, maxEntries: int)
      ensures Valid() && this.maxEntries == (if maxEntries < 16 then 16 else maxEntries)
      ensures this.namespace == namespace && this.defaultTtl == defaultTtl && latest == map[] && touches == []
    {
      this.namespace, this.defaultTtl, this.maxEntries :=
        namespace, defaultTtl, if maxEntries < 16 then 16 else maxEntries;
      order, entries, stats := [], map[], Stats(0, 0, 0, 0);
      latest, touches, clock := map[], [], 0.0;
    }

    /**
     A hit is what the unbounded map holds.  A miss is a missing or expired key, or one since whose
     last touch at least `maxEntries` others were touched.
     */
    method Get(key: Key, now: real) returns (r: Option<V>)
      requires Valid() && now >= clock
      modifies this
      ensures Valid() && clock == now && latest == old(latest)
      ensures r == (if key in latest && latest[key].expiresAt > now then latest[key].value else None)
              || (r == None && |TouchedSince(old(touches), key)| >= maxEntries)
      ensures var live := key in old(entries) && old(entries)[key].expiresAt > now;
              && entries == (if live then old(entries) else old(entries) - {key})
              && r == if live then old(entries)[key].value else None
      ensures touches == if key in entries then old(touches) + [key] else old(touches)
      ensures stats == if key in entries then old(stats).(hits := old(stats).hits + 1)
              else old(stats).(misses := old(stats).misses + 1)
    {
      hide Without, Ordered, Distinct, TouchedSince, Elements, Touch, LastN, Recency;
      Membership(order, key);
      clock := now;
      if key !in entries {
        stats := stats.(misses := stats.misses + 1);
        return None;
      }
      var entry := entries[key];
      WithoutOrdered(order, touches, key);
      WithoutDistinct(order, key);
      if entry.expiresAt <= now {
        entries, order := entries - {key}, Without(order, key);
        stats := stats.(misses := stats.misses + 1);
        return None;
      }
      MoveToEnd(order, touches, key);
      AccountedAfterTouch(latest, entries.Keys, touches, maxEntries, clock, key);
      order, touches := Touch(order, key), touches + [key];
      stats := stats.(hits := stats.hits + 1);
      return entry.value;
    }

    method Set(key: Key, value: Option<V>, ttl: Option<int>, now: real)
      requires Valid() && now >= clock
      modifies this
      ensures Valid() && clock == now && touches == old(touches) + [key]
      ensures latest == old(latest)[key := Entry(now + (if ttl.None? then defaultTtl else ttl.value) as real, value)]
      ensures order == LastN(Touch(old(order), key), maxEntries) && entries.Keys == Elements(order)
      ensures key in entries && stats.sets == old(stats).sets + 1
      ensures stats.evictions == old(stats).evictions + if key !in old(entries)
              && |old(order)| == maxEntries then 1 else 0
    {
      hide Without, Ordered, Distinct, TouchedSince, Elements, Touch, LastN, Accounted;
      Membership(order, key);
      var lifetime := match ttl case None => defaultTtl case Some(t) => t;
      var entry := Entry(now + lifetime as real, value);
      MoveToEnd(order, touches, key);
      AccountedAfterSet(latest, entries.Keys, touches, maxEntries, clock, now, key, entry);
      clock := now;
      entries, latest := entries[key := entry], latest[key := entry];
      order, touches := Touch(order, key), touches + [key];
      stats := stats.(sets := stats.sets + 1);
      assert entries.Keys == old(entries).Keys + {key};
      LastTouched(old(order), key, maxEntries);
      Shrink();
    }

    /** Drop the least recently touched entries beyond the limit. */
    method Shrink()
      requires Consistent() && |order| <= maxEntries + 1
      modifies this`order, this`entries, this`stats
      ensures Valid() && order == LastN(old(order), maxEntries)
      ensures stats == old(stats).(evictions := old(stats).evictions + if |old(order)| > maxEntries then 1 else 0)
    {
      hide Without, Ordered, Distinct, TouchedSince, Elements;
      while |order| > maxEntries
        invariant Consistent() && |order| <= maxEntries + 1
        invariant |order| > maxEntries ==> order == old(order) && stats == old(stats)
        invariant |order| <= maxEntries ==> order == LastN(old(order), maxEntries)
        invariant |order| <= maxEntries ==>
                    stats == old(stats).(evictions := old(stats).evictions + if |old(order)| > maxEntries then 1 else 0)
      {
        FirstIsOldest(order, touches);
        DropFirst(order, touches);
        entries, order := entries - {order[0]}, order[1..];
        stats := stats.(evictions := stats.evictions + 1);
      }
    }

    method Delete(key: Key)
      requires Valid()
      modifies this
      ensures Valid() && clock == old(clock) && touches == old(touches) && latest == old(latest) - {key}
      ensures stats == old(stats)
    {
      hide Without, Ordered, Distinct, TouchedSince, Elements;
      Membership(order, key);
      WithoutOrdered(order, touches, key);
      WithoutDistinct(order, key);
      entries, order, latest := entries - {key}, Without(order, key), latest - {key};
    }

    /** Clears everything, or the keys that start with the namespace and `prefix`. */
    method Clear(prefix: Option<string>) returns (count: nat)
      requires Valid()
      modifies this
      ensures Valid() && clock == old(clock) && touches == old(touches) && stats == old(stats)
      ensures forall k :: k in entries <==>
                k in old(entries) && prefix.Some? && !(namespace + ":" + prefix.value <= k)
      ensures forall k :: k in latest <==>
                k in old(latest) && prefix.Some? && !(namespace + ":" + prefix.value <= k)
      ensures forall k :: k in entries ==> entries[k] == old(entries)[k]
      ensures forall k :: k in latest ==> latest[k] == old(latest)[k]
      ensures count == |old(entries)| - |entries|
    {
      hide Without, Ordered, Distinct, TouchedSince, Elements, Doomed, Survivors;
      ClearedAccounted(namespace, prefix, latest, entries, touches, maxEntries, clock);
      NothingLeft(touches);
      SurvivorsOf(namespace, prefix, latest);
      SurvivorsOf(namespace, prefix, entries);
      ghost var left, known := Survivors(namespace, prefix, entries), Survivors(namespace, prefix, latest);
      if prefix.None? {
        NoSurvivors(namespace, entries);
        NoSurvivors(namespace, latest);
        count := |entries|;
        order, entries, latest := [], map[], map[];
      } else {
        count := ClearPrefix(prefix.value);
        latest := known;
        SameMap(entries, left);
      }
    }

    method ClearPrefix(prefix: string) returns (count: nat)
      requires Distinct(order) && entries.Keys == Elements(order) && Ordered(order, touches)
      modifies this`order, this`entries
      ensures Distinct(order) && entries.Keys == Elements(order) && Ordered(order, touches) && |order| <= |old(order)|
      ensures count == |old(entries)| - |entries|
      ensures forall k :: k in entries <==> k in old(entries) && !Doomed(namespace, Some(prefix), k)
      ensures forall k :: k in entries ==> entries[k] == old(entries)[k]
    {
      hide Without, Ordered, Distinct, TouchedSince, Elements, Doomed;
      var keys := order;
      ghost var before := entries;
      count := 0;
      for i := 0 to |keys|
        invariant Distinct(order) && entries.Keys == Elements(order) && Ordered(order, touches)
        invariant |order| <= |old(order)|
        invariant count == |before| - |entries|
        invariant forall k :: k in entries <==> k in before && !(k in keys[..i] && Doomed(namespace, Some(prefix), k))
        invariant forall k :: k in entries ==> entries[k] == before[k]
      {
        Prefixes(keys, i);
        if Doomed(namespace, Some(prefix), keys[i]) {
          var removed := Remove(keys[i]);
          if removed { count := count + 1; }
        }
      }
      assert keys[..|keys|] == keys;
      Membership(keys, "");
    }

    method Remove(key: Key) returns (removed: bool)
      requires Distinct(order) && entries.Keys == Elements(order) && Ordered(order, touches)
      modifies this`order, this`entries
      ensures Distinct(order) && entries.Keys == Elements(order) && Ordered(order, touches) && |order| <= |old(order)|
      ensures entries == old(entries) - {key} && removed == (key in old(entries))
      ensures |entries| == |old(entries)| - if removed then 1 else 0
    {
      hide Without, Ordered, Distinct, TouchedSince, Elements;
      Membership(order, key);
      WithoutOrdered(order, touches, key);
      WithoutDistinct(order, key);
      removed := key in entries;
      assert (entries - {key}).Keys == entries.Keys - {key};
      entries, order := entries - {key}, Without(order, key);
    }

    /**
     A cached value is returned as it is, and nothing is stored.  Otherwise `factory` gives the result, which is stored
     from `later` on for its lifetime.  With every cached value computed by `factory` the cache is transparent.
     */
    method GetOrSet(key: Key, factory: Key -> Option<V>, ttl: Option<int>, now: real, later: real)
      returns (r: Option<V>)
      requires Valid() && clock <= now <= later
      modifies this
      ensures Valid()
      ensures var entry := if key in old(entries) then Some(old(entries)[key]) else None;
              if entry.Some? && entry.value.expiresAt > now && entry.value.value.Some? then
                && r == entry.value.value && clock == now
                && latest == old(latest) && entries == old(entries) && stats.sets == old(stats).sets
              else
                && r == factory(key) && clock == later && key in entries && stats.sets == old(stats).sets + 1
                && latest == old(latest)[
                   key := Entry(later + (if ttl.None? then defaultTtl else ttl.value) as real, factory(key))]
      ensures ComputedBy(old(latest), factory) ==> ComputedBy(latest, factory) && r == factory(key)
    {
      var cached := Get(key, now);
      if cached.Some? { return cached; }
      r := factory(key);
      Set(key, r, ttl, later);
    }
  }

  predicate Doomed(namespace: string, prefix: Option<string>, key: Key) {
    prefix.None? || namespace + ":" + prefix.value <= key
  }

  function Survivors<V>(namespace: string, prefix: Option<string>, m: map<Key, Entry<V>>): map<Key, Entry<V>> {
    map k | k in m && !Doomed(namespace, prefix, k) :: m[k]
  }

  lemma SurvivorsOf<V>(namespace: string, prefix: Option<string>, m: map<Key, Entry<V>>)
    ensures var left := Survivors(namespace, prefix, m);
            && (forall k :: k in left <==> k in m && !Doomed(namespace, prefix, k))
            && (forall k :: k in left <==> k in m && prefix.Some? && !(namespace + ":" + prefix.value <= k))
            && (forall k :: k in left ==> left[k] == m[k])
  {
  }

  lemma NoSurvivors<V>(namespace: string, m: map<Key, Entry<V>>)
    ensures Survivors(namespace, None, m) == map[]
  {
  }

  ghost predicate ComputedBy<V>(latest: map<Key, Entry<V>>, factory: Key -> Option<V>) {
    forall k :: k in latest ==> latest[k].value == factory(k)
  }

  // ---------- What the operations keep ----------

  lemma Membership(order: seq<Key>, key: Key)
    ensures forall k :: k in order <==> k in Elements(order)
    ensures Elements(Without(order, key)) == Elements(order) - {key} && |Without(order, key)| <= |order|
    ensures Elements(Touch(order, key)) == Elements(order) + {key}
  {
  }

  lemma LastTouched(order: seq<Key>, key: Key, n: nat)
    requires n > 0
    ensures key in Elements(LastN(Touch(order, key), n))
  {
    var touched := Touch(order, key);
    assert touched[|touched| - 1] == key;
    assert LastN(touched, n)[|LastN(touched, n)| - 1] == key;
  }

  lemma Prefixes(keys: seq<Key>, i: nat)
    requires i < |keys|
    ensures forall k :: k in keys[..i + 1] <==> k in keys[..i] || k == keys[i]
  {
    assert keys[..i + 1] == keys[..i] + [keys[i]];
  }

  lemma ClearedAccounted<V>(
      namespace: string, prefix: Option<string>, latest: map<Key, Entry<V>>, entries: map<Key, Entry<V>>,
      touches: seq<Key>, n: nat, clock: real)
    requires Accounted(latest, entries.Keys, touches, n, clock)
    ensures Accounted(Survivors(namespace, prefix, latest), Survivors(namespace, prefix, entries).Keys, touches, n,
            clock)
  {
    hide Doomed, TouchedSince;
  }

  lemma NothingLeft(touches: seq<Key>)
    ensures Distinct<Key>([]) && Ordered([], touches) && Elements([]) == {}
  {
  }

  lemma AccountedAfterSet<V>(
      latest: map<Key, Entry<V>>, keys: set<Key>, touches: seq<Key>, n: nat, clock: real, now: real, key: Key,
      entry: Entry<V>)
    requires Accounted(latest, keys, touches, n, clock) && clock <= now
    ensures Accounted(latest[key := entry], keys + {key}, touches + [key], n, now)
  {
    AccountedAfterTouch(latest, keys + {key}, touches, n, now, key);
  }

  lemma MoveToEnd(order: seq<Key>, touches: seq<Key>, key: Key)
    requires Distinct(order) && Ordered(order, touches)
    ensures Distinct(Touch(order, key)) && Ordered(Touch(order, key), touches + [key])
    ensures |Touch(order, key)| == if key in order then |order| else |order| + 1
  {
    WithoutOrdered(order, touches, key);
    WithoutDistinct(order, key);
    AppendOrdered(Without(order, key), touches, key);
    if key in order { WithoutPresent(order, key); } else { WithoutAbsent(order, key); }
  }

  lemma DropFirst(order: seq<Key>, touches: seq<Key>)
    requires order != [] && Distinct(order) && Ordered(order, touches)
    ensures Distinct(order[1..]) && Ordered(order[1..], touches) && Elements(order[1..]) == Elements(order) - {order[0]}
  {
    assert forall k :: k in order <==> k == order[0] || k in order[1..];
  }

  lemma AccountedAfterTouch<V>(
      latest: map<Key, Entry<V>>, keys: set<Key>, touches: seq<Key>, n: nat, clock: real, key: Key)
    requires Accounted(latest, keys, touches, n, clock) && key in keys
    ensures Accounted(latest, keys, touches + [key], n, clock)
  {
    forall k | k in latest && k !in keys
      ensures latest[k].expiresAt <= clock || |TouchedSince(touches + [key], k)| >= n
    {
      TouchedStep(touches, key, k);
      FewerElements(TouchedSince(touches, k), TouchedSince(touches + [key], k));
    }
  }
}
