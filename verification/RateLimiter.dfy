/**
 The token-bucket limiter (app/api/security.py:285-334) and the Retry-After arithmetic of its
 middleware (security.py:360-376).

 The clock is a parameter of each call.  It is read before the lock is taken, so the times of
 successive calls need not be in order.
 */
module RateLimiter {
  import opened Collections
  import opened Options
  import opened SeenKeys

  datatype Bucket = Bucket(tokens: real, updatedAt: real)

  datatype Limits = Limits(rate: real, capacity: real)

  datatype Call = Call(key: Key, now: real, cost: real)

  // ---------- One bucket ----------

  /** The bucket of a call before it is charged: a full new one, or the old one refilled up to capacity. */
  function Refilled(p: Limits, b: Option<Bucket>, now: real): Bucket {
    match b
    case None => Bucket(p.capacity, now)
    case Some(b) =>
      var tokens := b.tokens + (now - b.updatedAt) * p.rate;
      Bucket(if tokens < p.capacity then tokens else p.capacity, now)
  }

  predicate Admits(p: Limits, b: Option<Bucket>, now: real, cost: real) {
    Refilled(p, b, now).tokens >= cost
  }

  function Charged(p: Limits, b: Option<Bucket>, now: real, cost: real): Bucket {
    var bucket := Refilled(p, b, now);
    if bucket.tokens >= cost then bucket.(tokens := bucket.tokens - cost) else bucket
  }

  function RetryAfter(p: Limits, b: Option<Bucket>, now: real, cost: real): real {
    if Admits(p, b, now, cost) then 0.0
    else if p.rate != 0.0 then (cost - Refilled(p, b, now).tokens) / p.rate
    else 60.0
  }

  /** `max(1, int(retry_after) + 1)`, for a wait that is not negative. */
  function RetryHeader(retryAfter: real): int {
    if retryAfter.Floor + 1 > 1 then retryAfter.Floor + 1 else 1
  }

  /** The bucket of `key` after calls on any keys, when it started as `b` and was never evicted. */
  function BucketAfter(p: Limits, b: Option<Bucket>, calls: seq<Call>, key: Key): Option<Bucket> {
    if calls == [] then b
    else
      var before, last := BucketAfter(p, b, calls[..|calls| - 1], key), calls[|calls| - 1];
      if last.key == key then Some(Charged(p, before, last.now, last.cost)) else before
  }

  /** The total cost admitted for `key`. */
  function Admitted(p: Limits, b: Option<Bucket>, calls: seq<Call>, key: Key): real {
    if calls == [] then 0.0
    else
      var before, last := calls[..|calls| - 1], calls[|calls| - 1];
      var admitted := last.key == key && Admits(p, BucketAfter(p, b, before, key), last.now, last.cost);
      Admitted(p, b, before, key) + if admitted then last.cost else 0.0
  }

  // ---------- The limiter ----------

  class TokenBucketLimiter {
    const limits: Limits
    const maxKeys: nat
    var order: seq<Key>
    var buckets: map<Key, Bucket>
    ghost var calls: seq<Call>
    ghost var answers: seq<bool>
    ghost var entered: map<Key, nat>

    ghost predicate Valid()
      reads this
    {
      && order == LastN(Recency(KeysOfCalls(calls)), maxKeys)
      && buckets.Keys == Elements(order)
      && |answers| == |calls|
      && (forall key :: key in buckets ==> key in entered && Replayed(limits, calls, entered[key], key, buckets[key]))
      && (forall key :: key in buckets ==> Answered(limits, calls, answers, entered[key], key))
    }

    function Lookup(key: Key): Option<Bucket>
      reads this`buckets
    {
      if key in buckets then Some(buckets[key]) else None
    }

    constructor (limits: Limits, maxKeys: nat)
      ensures Valid() && this.limits == limits && this.maxKeys == maxKeys && calls == []
    {
      this.limits, this.maxKeys := limits, maxKeys;
      order, buckets, calls, answers, entered := [], map[], [], [], map[];
    }

    /** Drop the least recently used buckets beyond the limit. */
    method Evict()
      requires Distinct(order) && buckets.Keys == Elements(order)
      modifies this`order, this`buckets
      ensures order == LastN(old(order), maxKeys) && buckets.Keys == Elements(order)
      ensures forall key :: key in buckets ==> key in old(buckets) && buckets[key] == old(buckets)[key]
    {
      hide Distinct, Elements;
      ghost var start := order;
      while |order| > maxKeys
        invariant |order| <= |start| && order == start[|start| - |order|..]
        invariant |start| > maxKeys ==> |order| >= maxKeys
        invariant |start| <= maxKeys ==> order == start
        invariant Distinct(order) && buckets.Keys == Elements(order)
        invariant forall key :: key in buckets ==> key in old(buckets) && buckets[key] == old(buckets)[key]
      {
        WithoutFirst(order);
        buckets := buckets - {order[0]};
        order := order[1..];
      }
    }

    /** Take the cost from a refilled bucket if it covers it, or else say how long to wait. */
    method Spend(bucket: Bucket, cost: real, ghost found: Option<Bucket>, ghost now: real)
      returns (left: Bucket, allowed: bool, retryAfter: real, remaining: int)
      requires bucket == Refilled(limits, found, now)
      ensures left == Charged(limits, found, now, cost) && allowed == Admits(limits, found, now, cost)
      ensures retryAfter == RetryAfter(limits, found, now, cost)
      ensures remaining == if allowed then (bucket.tokens - cost).Floor else 0
    {
      hide Refilled;
      if bucket.tokens >= cost {
        left := bucket.(tokens := bucket.tokens - cost);
        return left, true, 0.0, left.tokens.Floor;
      }
      var deficit := cost - bucket.tokens;
      return bucket, false, if limits.rate != 0.0 then deficit / limits.rate else 60.0, 0;
    }

    method Check(key: Key, now: real, cost: real) returns (allowed: bool, retryAfter: real, remaining: int)
      requires Valid()
      modifies this
      ensures Valid() && calls == old(calls) + [Call(key, now, cost)] && answers == old(answers) + [allowed]
      ensures allowed == Admits(limits, old(Lookup(key)), now, cost)
      ensures retryAfter == RetryAfter(limits, old(Lookup(key)), now, cost)
      ensures remaining == if allowed then (Refilled(limits, old(Lookup(key)), now).tokens - cost).Floor else 0
      ensures maxKeys > 0 ==> Lookup(key) == Some(Charged(limits, old(Lookup(key)), now, cost))
      ensures forall k :: k != key && k in buckets ==> Lookup(k) == old(Lookup(k))
      // a key that has no bucket has its whole capacity
      ensures key !in old(buckets) ==>
                && allowed == (cost <= limits.capacity)
                && (!allowed && limits.rate > 0.0 ==> retryAfter == (cost - limits.capacity) / limits.rate)
                && remaining == (if allowed then (limits.capacity - cost).Floor else 0)
                && (maxKeys > 0 ==>
                     Lookup(key) == Some(Bucket(if allowed then limits.capacity - cost else limits.capacity, now)))
    {
      hide Recency, LastN, Touch, Elements, KeysOfCalls, BucketAfter, Replayed, Answered, Admits, Charged, Refilled,
        RetryAfter;
      ghost var call, found, was := Call(key, now, cost), Lookup(key), buckets;
      var bucket := Locate(key, now);
      KeysStep(calls, call, maxKeys);
      FullBucket(limits, now, cost);
      bucket, allowed, retryAfter, remaining := Spend(bucket, cost, found, now);
      // an evicted bucket is no longer in the table
      if key in buckets { buckets := buckets[key := bucket]; }
      calls, answers := calls + [call], answers + [allowed];
      ReplayKept(limits, old(calls), call, old(entered), entered, was, buckets, found);
      AnswersKept(limits, old(calls), call, old(answers), allowed, old(entered), entered, was, buckets, found);
    }

    /**
     The refilled bucket of a key, which becomes the most recently used one; a new bucket is full and may push
     old ones out.
     */
    method Locate(key: Key, now: real) returns (bucket: Bucket)
      requires Valid()
      modifies this`order, this`buckets, this`entered
      ensures bucket == Refilled(limits, old(Lookup(key)), now)
      ensures order == NextKeys(old(order), key, maxKeys) && buckets.Keys == Elements(order)
      ensures maxKeys > 0 ==> key in buckets
      ensures forall k :: k in buckets && k != key ==> k in old(buckets) && buckets[k] == old(buckets)[k]
      ensures entered == if key in old(buckets) then old(entered) else old(entered)[key := |calls|]
    {
      hide Recency, LastN, Touch, Elements, Without, KeysOfCalls, BucketAfter, Replayed, Answered;
      OrderDistinct(calls, maxKeys);
      Members(order, key, maxKeys);
      if key in buckets {
        var elapsed := now - buckets[key].updatedAt;
        var tokens := buckets[key].tokens + elapsed * limits.rate;
        bucket := Bucket(if limits.capacity < tokens then limits.capacity else tokens, now);
        order := Touch(order, key);
      } else {
        bucket := Bucket(limits.capacity, now);
        buckets := buckets[key := bucket];
        order := order + [key];
        Evict();
        entered := entered[key := |calls|];
      }
    }
  }

  lemma FullBucket(p: Limits, now: real, cost: real)
    ensures Refilled(p, None, now).tokens == p.capacity
    ensures Admits(p, None, now, cost) <==> cost <= p.capacity
    ensures Charged(p, None, now, cost) == Bucket(if cost <= p.capacity then p.capacity - cost else p.capacity, now)
    ensures cost > p.capacity && p.rate > 0.0 ==> RetryAfter(p, None, now, cost) == (cost - p.capacity) / p.rate
  {
  }

  /** The keys of the table after one more use of `key`. */
  function NextKeys(order: seq<Key>, key: Key, n: nat): seq<Key> {
    if key in order then Touch(order, key) else LastN(order + [key], n)
  }

  lemma OrderDistinct(calls: seq<Call>, n: nat)
    ensures Distinct(LastN(Recency(KeysOfCalls(calls)), n))
  {
    RecencyDistinct(KeysOfCalls(calls));
  }

  function KeysOfCalls(calls: seq<Call>): seq<Key> {
    if calls == [] then [] else KeysOfCalls(calls[..|calls| - 1]) + [calls[|calls| - 1].key]
  }

  lemma WithoutFirst(order: seq<Key>)
    requires Distinct(order) && order != []
    ensures Distinct(order[1..]) && Elements(order[1..]) == Elements(order) - {order[0]}
  {
    assert forall key :: key in order <==> key == order[0] || key in order[1..];
  }

  lemma Members(order: seq<Key>, key: Key, n: nat)
    requires Distinct(order)
    ensures key in Elements(order) <==> key in order
    ensures key in order ==> Elements(Touch(order, key)) == Elements(order)
    ensures key !in order ==> Distinct(order + [key]) && Elements(order + [key]) == Elements(order) + {key}
    ensures Elements(LastN(order + [key], n)) <= Elements(order) + {key}
    ensures forall k :: k in LastN(order + [key], n) <==> k in Elements(LastN(order + [key], n))
    ensures n > 0 ==> key in LastN(order + [key], n)
  {
    if n > 0 { assert (order + [key])[|order|] == key; }
    var last := LastN(order + [key], n);
    if n > 0 { assert last[|last| - 1] == key; }
    forall k | k in last ensures k in Elements(order) + {key} {
      assert k in order + [key];
    }
  }

  /** `bucket` is what the calls on `key` since index `from`, which created it, left. */
  ghost predicate Replayed(p: Limits, calls: seq<Call>, from: nat, key: Key, bucket: Bucket) {
    from < |calls| && calls[from].key == key && BucketAfter(p, None, calls[from..], key) == Some(bucket)
  }

  /** Every answer to `key` since index `from` is what replaying the calls from there gives. */
  ghost predicate Answered(p: Limits, calls: seq<Call>, answers: seq<bool>, from: nat, key: Key) {
    && |answers| == |calls|
    && forall j :: from <= j < |calls| && calls[j].key == key ==> AnsweredAt(p, calls, answers, from, key, j)
  }

  ghost predicate AnsweredAt(p: Limits, calls: seq<Call>, answers: seq<bool>, from: nat, key: Key, j: nat)
    requires from <= j < |calls| == |answers|
  {
    answers[j] == Admits(p, BucketAfter(p, None, calls[from..j], key), calls[j].now, calls[j].cost)
  }

  lemma RecencyNext(calls: seq<Call>, call: Call)
    ensures Recency(KeysOfCalls(calls + [call])) == Touch(Recency(KeysOfCalls(calls)), call.key)
    ensures Distinct(Recency(KeysOfCalls(calls)))
  {
    hide Touch, Distinct;
    var keys := KeysOfCalls(calls);
    assert (calls + [call])[..|calls|] == calls;
    assert (keys + [call.key])[..|keys|] == keys;
    RecencyDistinct(keys);
  }

  lemma KeysStep(calls: seq<Call>, call: Call, n: nat)
    ensures LastN(Recency(KeysOfCalls(calls + [call])), n)
            == NextKeys(LastN(Recency(KeysOfCalls(calls)), n), call.key, n)
  {
    hide Touch, Distinct, Recency, KeysOfCalls, LastN;
    RecencyNext(calls, call);
    var recent := Recency(KeysOfCalls(calls));
    if n == 0 {
      NoneOf(recent, call.key);
    } else {
      AddKeepsRecency(recent, n, call.key);
    }
  }

  lemma NoneOf(recent: seq<Key>, key: Key)
    ensures LastN(Touch(recent, key), 0) == NextKeys(LastN(recent, 0), key, 0)
  {
    hide Touch;
  }

  lemma ReplayStep(p: Limits, calls: seq<Call>, call: Call, from: nat, key: Key, b: Bucket)
    requires Replayed(p, calls, from, key, b)
    ensures Replayed(p, calls + [call], from, key,
            if call.key == key then Charged(p, Some(b), call.now, call.cost) else b)
  {
    assert (calls + [call])[from..] == calls[from..] + [call];
    assert (calls[from..] + [call])[..|calls| - from] == calls[from..];
  }

  lemma ReplayFresh(p: Limits, calls: seq<Call>, call: Call)
    ensures Replayed(p, calls + [call], |calls|, call.key, Charged(p, None, call.now, call.cost))
  {
    assert (calls + [call])[|calls|..] == [call];
    assert [call][..0] == [];
  }

  lemma ReplayKept(
      p: Limits, calls: seq<Call>, call: Call, entered: map<Key, nat>, enteredNow: map<Key, nat>,
      before: map<Key, Bucket>, after: map<Key, Bucket>, found: Option<Bucket>)
    requires forall key :: key in before ==> key in entered && Replayed(p, calls, entered[key], key, before[key])
    requires found == if call.key in before then Some(before[call.key]) else None
    requires enteredNow == if call.key in before then entered else entered[call.key := |calls|]
    requires forall key :: key in after && key != call.key ==> key in before && after[key] == before[key]
    requires call.key in after ==> after[call.key] == Charged(p, found, call.now, call.cost)
    ensures forall key :: key in after ==>
            key in enteredNow && Replayed(p, calls + [call], enteredNow[key], key, after[key])
  {
    forall key | key in after
      ensures key in enteredNow && Replayed(p, calls + [call], enteredNow[key], key, after[key])
    {
      if key in before {
        ReplayStep(p, calls, call, entered[key], key, before[key]);
      } else {
        ReplayFresh(p, calls, call);
      }
    }
  }

  /** The answers so far stay right, and the next one follows from the bucket the calls so far have left. */
  lemma AnswerStep(p: Limits, calls: seq<Call>, call: Call, answers: seq<bool>, answer: bool, from: nat, key: Key)
    requires from <= |calls| && Answered(p, calls, answers, from, key)
    requires call.key == key ==> answer == Admits(p, BucketAfter(p, None, calls[from..], key), call.now, call.cost)
    ensures Answered(p, calls + [call], answers + [answer], from, key)
  {
    hide Admits, BucketAfter;
    var longer, more := calls + [call], answers + [answer];
    forall j | from <= j < |longer| && longer[j].key == key ensures AnsweredAt(p, longer, more, from, key, j) {
      if j < |calls| {
        assert AnsweredAt(p, calls, answers, from, key, j);
        assert longer[from..j] == calls[from..j];
      } else {
        assert longer[from..j] == calls[from..];
      }
    }
  }

  lemma AnswersKept(
      p: Limits, calls: seq<Call>, call: Call, answers: seq<bool>, answer: bool, entered: map<Key, nat>,
      enteredNow: map<Key, nat>,
      before: map<Key, Bucket>, after: map<Key, Bucket>, found: Option<Bucket>)
    requires |answers| == |calls| && answer == Admits(p, found, call.now, call.cost)
    requires forall key :: key in before ==> key in entered && Replayed(p, calls, entered[key], key, before[key])
    requires forall key :: key in before ==> Answered(p, calls, answers, entered[key], key)
    requires found == if call.key in before then Some(before[call.key]) else None
    requires enteredNow == if call.key in before then entered else entered[call.key := |calls|]
    requires forall key :: key in after && key != call.key ==> key in before
    ensures forall key :: key in after ==>
            key in enteredNow && Answered(p, calls + [call], answers + [answer], enteredNow[key], key)
  {
    hide Admits, Answered;
    forall key | key in after
      ensures key in enteredNow && Answered(p, calls + [call], answers + [answer], enteredNow[key], key)
    {
      if key !in before { NothingAnswered(p, calls, answers, key); }
      AnswerStep(p, calls, call, answers, answer, enteredNow[key], key);
    }
  }

  lemma NothingAnswered(p: Limits, calls: seq<Call>, answers: seq<bool>, key: Key)
    requires |answers| == |calls|
    ensures Answered(p, calls, answers, |calls|, key) && BucketAfter(p, None, calls[|calls|..], key) == None
  {
  }

  /** A key has a bucket exactly when it was used, and fewer than `maxKeys` other keys were used since. */
  lemma ResidentExactly(limiter: TokenBucketLimiter, key: Key)
    requires limiter.Valid()
    ensures key in limiter.buckets <==>
              key in KeysOfCalls(limiter.calls) && |TouchedSince(KeysOfCalls(limiter.calls), key)| < limiter.maxKeys
  {
    RemembersExactly(KeysOfCalls(limiter.calls), limiter.maxKeys, key);
    assert key in limiter.buckets <==> key in Elements(limiter.order);
  }

  // ---------- The rate bound ----------

  /** What a bucket can still give, less what it will have earned by its last update: never raised by a call. */
  function Potential(p: Limits, b: Bucket): real {
    b.tokens - p.rate * b.updatedAt
  }

  lemma RefillKeepsPotential(p: Limits, b: Bucket, now: real)
    ensures Potential(p, Refilled(p, Some(b), now)) <= Potential(p, b)
  {
    assert (now - b.updatedAt) * p.rate == p.rate * now - p.rate * b.updatedAt;
  }

  lemma CallStep(p: Limits, b: Bucket, call: Call)
    ensures (if Admits(p, Some(b), call.now, call.cost) then call.cost else 0.0)
            + Potential(p, Charged(p, Some(b), call.now, call.cost))
         <= Potential(p, b)
  {
    RefillKeepsPotential(p, b, call.now);
  }

  lemma {:induction false} PotentialBound(p: Limits, b: Option<Bucket>, calls: seq<Call>, key: Key)
    requires calls != [] && calls[0].key == key
    ensures BucketAfter(p, b, calls, key).Some?
    ensures Admitted(p, b, calls, key) + Potential(p, BucketAfter(p, b, calls, key).value)
            <= p.capacity - p.rate * calls[0].now
    decreases |calls|
  {
    hide Potential, Refilled, Charged, Admits;
    var before, last := calls[..|calls| - 1], calls[|calls| - 1];
    if before == [] {
      assert BucketAfter(p, b, before, key) == b && Admitted(p, b, before, key) == 0.0;
      FirstCall(p, b, last);
    } else {
      PotentialBound(p, b, before, key);
      if last.key == key { CallStep(p, BucketAfter(p, b, before, key).value, last); }
    }
  }

  lemma FirstCall(p: Limits, b: Option<Bucket>, call: Call)
    ensures (if Admits(p, b, call.now, call.cost) then call.cost else 0.0)
            + Potential(p, Charged(p, b, call.now, call.cost))
         <= p.capacity - p.rate * call.now
  {
  }

  /**
   Whatever calls on other keys come between, and in whatever order the times are, the cost admitted
   for a resident key from one of its calls up to an admitted one is at most the capacity plus the
   rate times the time between the two.
   */
  lemma RateBound(p: Limits, b: Option<Bucket>, calls: seq<Call>, key: Key)
    requires calls != [] && calls[0].key == key
    requires var before, last := calls[..|calls| - 1], calls[|calls| - 1];
             last.key == key && Admits(p, BucketAfter(p, b, before, key), last.now, last.cost)
    ensures Admitted(p, b, calls, key) <= p.capacity + p.rate * (calls[|calls| - 1].now - calls[0].now)
  {
    var first, last := calls[0], calls[|calls| - 1];
    PotentialBound(p, b, calls, key);
    assert p.rate * (last.now - first.now) == p.rate * last.now - p.rate * first.now;
    var bucket := BucketAfter(p, b, calls, key).value;
    assert bucket.updatedAt == last.now && bucket.tokens >= 0.0;
  }

  // ---------- The bound for a limiter's own answers ----------

  /** The cost granted to `key` by the calls from `i` up to, but not including, `j`. */
  function Granted(calls: seq<Call>, answers: seq<bool>, key: Key, i: nat, j: nat): real
    requires i <= j <= |calls| == |answers|
  {
    if i == j then 0.0
    else
      var granted := calls[j - 1].key == key && answers[j - 1];
      Granted(calls, answers, key, i, j - 1) + if granted then calls[j - 1].cost else 0.0
  }

  lemma {:induction false} ReplayInTwo(p: Limits, b: Option<Bucket>, first: seq<Call>, more: seq<Call>, key: Key)
    ensures BucketAfter(p, BucketAfter(p, b, first, key), more, key) == BucketAfter(p, b, first + more, key)
    decreases |more|
  {
    hide Charged;
    if more == [] {
      assert first + more == first;
    } else {
      assert (first + more)[..|first + more| - 1] == first + more[..|more| - 1];
      ReplayInTwo(p, b, first, more[..|more| - 1], key);
    }
  }

  lemma AdmittedStep(p: Limits, b: Option<Bucket>, calls: seq<Call>, call: Call, key: Key)
    ensures Admitted(p, b, calls + [call], key) == Admitted(p, b, calls, key) +
              if call.key == key && Admits(p, BucketAfter(p, b, calls, key), call.now, call.cost) then call.cost
                  else 0.0
  {
    hide Admits, BucketAfter;
    assert (calls + [call])[..|calls|] == calls;
  }

  /** The bucket that replaying leaves from `from` on, in two stretches. */
  lemma ReplayFrom(p: Limits, calls: seq<Call>, from: nat, key: Key, i: nat, j: nat)
    requires from <= i <= j <= |calls|
    ensures BucketAfter(p, BucketAfter(p, None, calls[from..i], key), calls[i..j], key)
            == BucketAfter(p, None, calls[from..j], key)
  {
    hide BucketAfter;
    ReplayInTwo(p, None, calls[from..i], calls[i..j], key);
    assert calls[from..i] + calls[i..j] == calls[from..j];
  }

  lemma AnsweredMeans(p: Limits, calls: seq<Call>, answers: seq<bool>, from: nat, key: Key, j: nat)
    requires Answered(p, calls, answers, from, key) && from <= j < |calls| && calls[j].key == key
    ensures answers[j] == Admits(p, BucketAfter(p, None, calls[from..j], key), calls[j].now, calls[j].cost)
  {
    hide Admits, BucketAfter;
    assert AnsweredAt(p, calls, answers, from, key, j);
  }

  /** What was granted is what replaying the calls admits. */
  lemma {:induction false} GrantedIsAdmitted(
      p: Limits, calls: seq<Call>, answers: seq<bool>, from: nat, key: Key, i: nat, j: nat)
    requires from <= i <= j <= |calls| && Answered(p, calls, answers, from, key)
    ensures |answers| == |calls|
    ensures Granted(calls, answers, key, i, j)
            == Admitted(p, BucketAfter(p, None, calls[from..i], key), calls[i..j], key)
    decreases j
  {
    hide Admits, BucketAfter, Admitted, AnsweredAt;
    var b := BucketAfter(p, None, calls[from..i], key);
    if i == j {
      assert calls[i..j] == [];
      NoneAdmitted(p, b, key);
    } else {
      hide Answered;
      var last := calls[j - 1];
      GrantedIsAdmitted(p, calls, answers, from, key, i, j - 1);
      AdmittedStep(p, b, calls[i..j - 1], last, key);
      assert calls[i..j] == calls[i..j - 1] + [last];
      ReplayFrom(p, calls, from, key, i, j - 1);
      if last.key == key { AnsweredMeans(p, calls, answers, from, key, j - 1); }
    }
  }

  lemma NoneAdmitted(p: Limits, b: Option<Bucket>, key: Key)
    ensures Admitted(p, b, [], key) == 0.0
  {
  }

  lemma GrantedBound(p: Limits, calls: seq<Call>, answers: seq<bool>, from: nat, key: Key, i: nat, j: nat)
    requires from <= i <= j < |calls| == |answers| && Answered(p, calls, answers, from, key)
    requires calls[i].key == key && calls[j].key == key && answers[j]
    ensures Granted(calls, answers, key, i, j + 1) <= p.capacity + p.rate * (calls[j].now - calls[i].now)
  {
    hide Admits, BucketAfter, Granted, Admitted, Answered, AnsweredAt;
    GrantedIsAdmitted(p, calls, answers, from, key, i, j + 1);
    AnsweredMeans(p, calls, answers, from, key, j);
    ReplayFrom(p, calls, from, key, i, j);
    var window := calls[i..j + 1];
    assert window[..|window| - 1] == calls[i..j];
    RateBound(p, BucketAfter(p, None, calls[from..i], key), window, key);
  }

  /**
   A limiter never grants a key more than its capacity plus what the rate earns: over any calls on the key since
   its bucket was made, up to one that was admitted, and whatever happened to other keys in between.
   */
  lemma NeverAboveRate(limiter: TokenBucketLimiter, key: Key, i: nat, j: nat)
    requires limiter.Valid() && key in limiter.buckets && limiter.entered[key] <= i <= j < |limiter.calls|
    requires limiter.calls[i].key == key && limiter.calls[j].key == key && limiter.answers[j]
    ensures Granted(limiter.calls, limiter.answers, key, i, j + 1)
         <= limiter.limits.capacity + limiter.limits.rate * (limiter.calls[j].now - limiter.calls[i].now)
  {
    hide Answered, Replayed, Granted, Recency, LastN, KeysOfCalls, Elements;
    GrantedBound(limiter.limits, limiter.calls, limiter.answers, limiter.entered[key], key, i, j);
  }

  // ---------- What a limiter must grant ----------

  /** What the bound leaves at a time, counting from the `i`-th call on, after what was granted before the `j`-th. */
  function Allowance(p: Limits, calls: seq<Call>, answers: seq<bool>, key: Key, i: nat, j: nat, now: real): real
    requires i <= j <= |calls| == |answers| && i < |calls|
  {
    p.capacity + Earned(p, calls[i].now, now) - Granted(calls, answers, key, i, j)
  }

  function Earned(p: Limits, since: real, now: real): real {
    p.rate * (now - since)
  }

  lemma EarnedInTwo(p: Limits, since: real, middle: real, now: real)
    ensures Earned(p, since, now) == Earned(p, since, middle) + Earned(p, middle, now)
    ensures Earned(p, since, since) == 0.0
  {
    assert p.rate * (now - since) == p.rate * (middle - since) + p.rate * (now - middle);
  }

  /** The tokens a call at this time would find. */
  function TokensAt(p: Limits, calls: seq<Call>, from: nat, key: Key, j: nat, now: real): real
    requires from <= j <= |calls|
  {
    Refilled(p, BucketAfter(p, None, calls[from..j], key), now).tokens
  }

  /** `tokens` is the least of the capacity and what the bound leaves counting from each earlier call on the key. */
  ghost predicate IsLeast(p: Limits, calls: seq<Call>, answers: seq<bool>, from: nat, key: Key, j: nat, now: real,
        tokens: real)
    requires from <= j <= |calls| == |answers|
  {
    && tokens <= p.capacity
    && (forall i :: from <= i < j && calls[i].key == key ==> tokens <= Allowance(p, calls, answers, key, i, j, now))
    && (tokens == p.capacity ||
        exists i :: from <= i < j && calls[i].key == key && tokens == Allowance(p, calls, answers, key, i, j, now))
  }

  /** The next refill: what an earlier least leaves after a call, and what is earned since, up to the capacity. */
  lemma LeastNext(p: Limits, calls: seq<Call>, answers: seq<bool>, from: nat, key: Key, j: nat, now: real, tokens: real,
        next: real)
    requires from <= j < |calls| == |answers| && calls[j].key == key
    requires IsLeast(p, calls, answers, from, key, j, calls[j].now, tokens)
    requires var moved := tokens - (if answers[j] then calls[j].cost else 0.0) + Earned(p, calls[j].now, now);
             next == if moved < p.capacity then moved else p.capacity
    ensures IsLeast(p, calls, answers, from, key, j + 1, now, next)
  {
    hide Earned;
    forall i | from <= i < j && calls[i].key == key
      ensures Allowance(p, calls, answers, key, i, j + 1, now)
           == Allowance(p, calls, answers, key, i, j, calls[j].now) + Earned(p, calls[j].now, now)
              - if answers[j] then calls[j].cost else 0.0
    {
      EarnedInTwo(p, calls[i].now, calls[j].now, now);
    }
    EarnedInTwo(p, calls[j].now, calls[j].now, now);
    assert Allowance(p, calls, answers, key, j, j + 1, now)
        == p.capacity + Earned(p, calls[j].now, now) - if answers[j] then calls[j].cost else 0.0 by {
      assert Granted(calls, answers, key, j, j) == 0.0;
    }
    if next != p.capacity {
      if tokens == p.capacity {
        assert next == Allowance(p, calls, answers, key, j, j + 1, now);
      } else {
        var i :| from <= i < j && calls[i].key == key
          && tokens == Allowance(p, calls, answers, key, i, j, calls[j].now);
        assert next == Allowance(p, calls, answers, key, i, j + 1, now);
      }
    }
  }

  /** Calls on other keys change nothing. */
  lemma LeastAside(
      p: Limits, calls: seq<Call>, answers: seq<bool>, from: nat, key: Key, j: nat, now: real, tokens: real)
    requires from <= j < |calls| == |answers| && calls[j].key != key
    requires IsLeast(p, calls, answers, from, key, j, now, tokens)
    ensures IsLeast(p, calls, answers, from, key, j + 1, now, tokens)
  {
    hide Earned;
    forall i | from <= i < j
      ensures Allowance(p, calls, answers, key, i, j + 1, now) == Allowance(p, calls, answers, key, i, j, now)
    {
    }
  }

  lemma EarnedIs(p: Limits, since: real, now: real)
    ensures (now - since) * p.rate == Earned(p, since, now)
  {
  }

  /** A bucket that was charged, refilled again. */
  lemma RefilledNext(p: Limits, b: Option<Bucket>, call: Call, now: real)
    ensures var tokens := Refilled(p, b, call.now).tokens;
            var moved := tokens - (if tokens >= call.cost then call.cost else 0.0) + Earned(p, call.now, now);
            Refilled(p, Some(Charged(p, b, call.now, call.cost)), now).tokens
            == if moved < p.capacity then moved else p.capacity
  {
    hide Earned;
    var bucket := Charged(p, b, call.now, call.cost);
    assert bucket.updatedAt == call.now;
    EarnedIs(p, call.now, now);
    hide Charged;
  }

  lemma TokensNext(p: Limits, calls: seq<Call>, answers: seq<bool>, from: nat, key: Key, j: nat, now: real)
    requires from <= j < |calls| && Answered(p, calls, answers, from, key)
    ensures |answers| == |calls|
    ensures calls[j].key != key ==> TokensAt(p, calls, from, key, j + 1, now) == TokensAt(p, calls, from, key, j, now)
    ensures calls[j].key == key ==>
      (answers[j] <==> TokensAt(p, calls, from, key, j, calls[j].now) >= calls[j].cost)
    ensures calls[j].key == key ==>
      var tokens := TokensAt(p, calls, from, key, j, calls[j].now);
      var moved := tokens - (if answers[j] then calls[j].cost else 0.0) + Earned(p, calls[j].now, now);
      TokensAt(p, calls, from, key, j + 1, now) == if moved < p.capacity then moved else p.capacity
  {
    assert calls[from..j + 1][..j - from] == calls[from..j] && calls[from..j + 1][j - from] == calls[j];
    if calls[j].key == key {
      AnsweredMeans(p, calls, answers, from, key, j);
      RefilledNext(p, BucketAfter(p, None, calls[from..j], key), calls[j], now);
    }
    hide Refilled, Charged, Earned;
  }

  /** The tokens a call finds are the least the bound leaves, whatever the rate and in whatever order the times are. */
  lemma {:induction false} TokensAreLeast(
      p: Limits, calls: seq<Call>, answers: seq<bool>, from: nat, key: Key, j: nat, now: real)
    requires from <= j <= |calls| && Answered(p, calls, answers, from, key)
    ensures |answers| == |calls| && IsLeast(p, calls, answers, from, key, j, now, TokensAt(p, calls, from, key, j, now))
    decreases j
  {
    hide Answered, TokensAt, IsLeast, Earned;
    if j == from {
      NothingGranted(p, calls, answers, from, key, now);
    } else {
      TokensNext(p, calls, answers, from, key, j - 1, now);
      if calls[j - 1].key == key {
        TokensAreLeast(p, calls, answers, from, key, j - 1, calls[j - 1].now);
        LeastNext(p, calls, answers, from, key, j - 1, now, TokensAt(p, calls, from, key, j - 1, calls[j - 1].now),
          TokensAt(p, calls, from, key, j, now));
      } else {
        TokensAreLeast(p, calls, answers, from, key, j - 1, now);
        LeastAside(p, calls, answers, from, key, j - 1, now, TokensAt(p, calls, from, key, j - 1, now));
      }
    }
  }

  lemma NothingGranted(p: Limits, calls: seq<Call>, answers: seq<bool>, from: nat, key: Key, now: real)
    requires from <= |calls| && Answered(p, calls, answers, from, key)
    ensures |answers| == |calls|
    ensures IsLeast(p, calls, answers, from, key, from, now, TokensAt(p, calls, from, key, from, now))
  {
    assert calls[from..from] == [];
  }

  /** Granting the `j`-th call would break the bound, counting from the `i`-th call on. */
  predicate WouldExceed(p: Limits, calls: seq<Call>, answers: seq<bool>, key: Key, i: nat, j: nat)
    requires i <= j < |calls| == |answers|
  {
    Granted(calls, answers, key, i, j) + calls[j].cost > p.capacity + p.rate * (calls[j].now - calls[i].now)
  }

  lemma ExceedsAllowance(p: Limits, calls: seq<Call>, answers: seq<bool>, key: Key, i: nat, j: nat)
    requires i <= j < |calls| == |answers|
    ensures WouldExceed(p, calls, answers, key, i, j)
       <==> calls[j].cost > Allowance(p, calls, answers, key, i, j, calls[j].now)
  {
    hide Granted;
  }

  lemma ExceedsAlone(p: Limits, calls: seq<Call>, answers: seq<bool>, key: Key, j: nat)
    requires j < |calls| == |answers|
    ensures WouldExceed(p, calls, answers, key, j, j) <==> calls[j].cost > p.capacity
  {
    assert p.rate * (calls[j].now - calls[j].now) == 0.0;
  }

  lemma DeniedWhenExceeding(p: Limits, calls: seq<Call>, answers: seq<bool>, from: nat, key: Key, j: nat)
    requires from <= j < |calls| && calls[j].key == key && Answered(p, calls, answers, from, key)
    ensures |answers| == |calls|
    ensures !answers[j] <==>
              exists i :: from <= i <= j && calls[i].key == key && WouldExceed(p, calls, answers, key, i, j)
  {
    hide Answered, TokensAt, Granted, WouldExceed, Allowance;
    var now := calls[j].now;
    TokensNext(p, calls, answers, from, key, j, now);
    TokensAreLeast(p, calls, answers, from, key, j, now);
    var tokens := TokensAt(p, calls, from, key, j, now);
    ExceedsAlone(p, calls, answers, key, j);
    forall i | from <= i < j && calls[i].key == key
      ensures WouldExceed(p, calls, answers, key, i, j) <==>
                calls[j].cost > Allowance(p, calls, answers, key, i, j, now)
    {
      ExceedsAllowance(p, calls, answers, key, i, j);
    }
  }

  /**
   A limiter denies a call exactly when granting it would break the bound: counting from some call on the key since
   its bucket was made, that call included, more would be granted than the capacity and what the rate earned.  So
   a first call is admitted exactly up to the capacity.
   */
  lemma DeniesOnlyTheExcess(limiter: TokenBucketLimiter, key: Key, j: nat)
    requires limiter.Valid() && key in limiter.buckets && limiter.entered[key] <= j < |limiter.calls|
    requires limiter.calls[j].key == key
    ensures !limiter.answers[j] <==>
      exists i :: limiter.entered[key] <= i <= j && limiter.calls[i].key == key
        && WouldExceed(limiter.limits, limiter.calls, limiter.answers, key, i, j)
  {
    hide Answered, Replayed, Granted, Recency, LastN, KeysOfCalls, Elements, WouldExceed;
    DeniedWhenExceeding(limiter.limits, limiter.calls, limiter.answers, limiter.entered[key], key, j);
  }

  // ---------- Retrying after a denial ----------

  lemma Quotient(deficit: real, rate: real, wait: real)
    requires rate > 0.0
    ensures wait * rate >= deficit <==> wait >= deficit / rate
  {
    var q := deficit / rate;
    assert q * rate == deficit;
    if wait >= q { assert (wait - q) * rate >= 0.0; } else { assert (q - wait) * rate > 0.0; }
    assert (wait - q) * rate == wait * rate - q * rate;
  }

  /**
   The wait a denial names is exact: with no other call on the key in between, the same cost is
   admitted at a later time if and only if the rate is positive, the cost is within the capacity and
   the wait has passed.  In particular the 60 seconds named at rate 0 are never enough.
   */
  lemma RetryAfterIsExact(p: Limits, b: Option<Bucket>, now: real, cost: real, later: real)
    requires later >= now && !Admits(p, b, now, cost)
    ensures Admits(p, Some(Charged(p, b, now, cost)), later, cost) <==>
              p.rate > 0.0 && cost <= p.capacity && later >= now + RetryAfter(p, b, now, cost)
  {
    var tokens := Refilled(p, b, now).tokens;
    if p.rate > 0.0 {
      Quotient(cost - tokens, p.rate, later - now);
    } else {
      NothingEarned(later - now, p.rate);
    }
  }

  lemma NothingEarned(elapsed: real, rate: real)
    requires elapsed >= 0.0 && rate <= 0.0
    ensures elapsed * rate <= 0.0
  {
  }

  /** At rate 0 the 60 seconds named are not enough, nor is any other wait. */
  lemma SixtySecondsNeverEnough(later: real)
    requires later >= 0.0
    ensures var p := Limits(0.0, 1.0);
            var spent := Charged(p, None, 0.0, 1.0);
            && RetryAfter(p, Some(spent), 0.0, 1.0) == 60.0
            && !Admits(p, Some(Charged(p, Some(spent), 0.0, 1.0)), later, 1.0)
  {
    assert (later - 0.0) * 0.0 == 0.0;
  }

  /** The header never sends a client back early, and at most one second late. */
  lemma HeaderCoversTheWait(retryAfter: real)
    requires retryAfter >= 0.0
    ensures retryAfter < RetryHeader(retryAfter) as real <= retryAfter + 1.0
  {
  }
}
