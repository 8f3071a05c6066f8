/**
 The job queue (app/workers/queue.py:73-257), one call at a time: a worker running a job with retries,
 and submitting, cancelling and pruning.  `JobProtocol` interleaves them.

 A handler is given by what each attempt does.  Job ids are left to the caller.
 */
module JobQueue {
  import opened Options

  datatype Status = Pending | Running | Retrying | Succeeded | Failed | Cancelled

  predicate Terminal(status: Status) {
    status.Succeeded? || status.Failed? || status.Cancelled?
  }

  /**
   The work done on a job: attempts begun, time slept between them, and the outcome.  `escaped` says that
   an exception left the worker, which is then done while the status stays as it was.
   */
  datatype Work = Work(status: Status, attempts: nat, maxRetries: int, slept: real, result: Option<int>, escaped: bool)

  function NewWork(maxRetries: int): Work {
    Work(Pending, 0, maxRetries, 0.0, None, false)
  }

  // ---------- Attempts ----------

  /** What one call of a handler does; `Exits` is an exception that is not an `Exception`, such as SystemExit. */
  datatype Outcome = Succeeds(value: int) | Throws | Exits

  /**
   The backoff of the queue, the longest sleep the platform can express, and the number of powers of 2
   the backoff can be multiplied by (1024 for a float).
   */
  datatype Sleeping = Sleeping(backoff: real, longest: real, powers: nat)

  function Pow2(n: nat): int {
    if n == 0 then 1 else 2 * Pow2(n - 1)
  }

  /** The sleep after a failed attempt. */
  function Delay(p: Sleeping, attempt: nat): real
    requires attempt >= 1
  {
    p.backoff * Pow2(attempt - 1) as real
  }

  /** The delay cannot be computed, or `time.sleep` refuses it: it is negative, or longer than can be expressed. */
  predicate SleepRaises(p: Sleeping, attempt: nat)
    requires attempt >= 1
  {
    attempt > p.powers || Delay(p, attempt) < 0.0 || Delay(p, attempt) > p.longest
  }

  /** The work after one more attempt: done, failed for good, asleep before the next, or left by an exception. */
  function Attempted(w: Work, outcome: Outcome, p: Sleeping): Work {
    var attempt := w.attempts + 1;
    match outcome
    case Succeeds(v) => w.(attempts := attempt, status := Succeeded, result := Some(v))
    case Exits => w.(attempts := attempt, escaped := true)
    case Throws =>
      if attempt > w.maxRetries then w.(attempts := attempt, status := Failed)
      else if SleepRaises(p, attempt) then w.(attempts := attempt, status := Retrying, escaped := true)
      else w.(attempts := attempt, status := Retrying, slept := w.slept + Delay(p, attempt))
  }

  /** The worker has another attempt to make. */
  predicate Runnable(w: Work) {
    (w.status.Running? || w.status.Retrying?) && !w.escaped && w.attempts < w.maxRetries + 1
  }

  /** The total sleep after `n` failed attempts. */
  function Backoff(n: nat, backoff: real): real {
    backoff * (Pow2(n) - 1) as real
  }

  lemma BackoffStep(n: nat, p: Sleeping)
    ensures Backoff(n, p.backoff) + Delay(p, n + 1) == Backoff(n + 1, p.backoff) && Backoff(0, p.backoff) == 0.0
  {
    assert (Pow2(n + 1) - 1) as real == (Pow2(n) - 1) as real + Pow2(n) as real;
    assert p.backoff * ((Pow2(n) - 1) as real + Pow2(n) as real)
        == p.backoff * (Pow2(n) - 1) as real + p.backoff * Pow2(n) as real;
  }

  /**
   What every stage of a job's work satisfies.  A failed job used up all its attempts and slept
   `backoff * (2^max_retries - 1)` in all; a pending or cancelled one never ran.
   */
  predicate Accounted(w: Work, backoff: real) {
    && (w.escaped ==> w.status.Running? || w.status.Retrying?)
    && match w.status
       case Pending => w.attempts == 0 && w.slept == 0.0
       case Cancelled => w.attempts == 0 && w.slept == 0.0
       case Running => w.slept == 0.0 && w.attempts == (if w.escaped then 1 else 0)
       case Retrying =>
         if w.escaped then 1 <= w.attempts <= w.maxRetries + 1 && w.slept == Backoff(w.attempts - 1, backoff)
         else 1 <= w.attempts <= w.maxRetries && w.slept == Backoff(w.attempts, backoff)
       case Succeeded => 1 <= w.attempts <= w.maxRetries + 1 && w.slept == Backoff(w.attempts - 1, backoff)
           && w.result.Some?
       case Failed => w.attempts == w.maxRetries + 1 && w.maxRetries >= 0 && w.slept == Backoff(w.maxRetries, backoff)
  }

  lemma AttemptAccounted(w: Work, outcome: Outcome, p: Sleeping)
    requires Accounted(w, p.backoff) && Runnable(w)
    ensures Accounted(Attempted(w, outcome, p), p.backoff)
  {
    hide Backoff, Delay;
    BackoffStep(w.attempts, p);
    BackoffStep(0, p);
  }

  /** The work once the retry loop is over. */
  function Finished(w: Work, outcomes: nat -> Outcome, p: Sleeping): Work
    decreases w.maxRetries + 1 - w.attempts
  {
    if !Runnable(w) then w else Finished(Attempted(w, outcomes(w.attempts + 1), p), outcomes, p)
  }

  // ---------- Jobs and the queue ----------

  class Job {
    const id: nat
    var work: Work

    constructor (id: nat, maxRetries: int)
      ensures this.id == id && work == NewWork(maxRetries)
    {
      this.id, work := id, NewWork(maxRetries);
    }

    /** Execute the job with retries; `left` when an exception leaves the worker. */
    method Run(outcomes: nat -> Outcome, p: Sleeping) returns (left: bool)
      requires work == NewWork(work.maxRetries)
      modifies this
      ensures work == Finished(old(work).(status := Running), outcomes, p) && left == work.escaped
    {
      work := work.(status := Running);
      ghost var start := work;
      var attempt := 1;
      while attempt < work.maxRetries + 2
        invariant attempt == work.attempts + 1 && (work.status.Running? || work.status.Retrying?) && !work.escaped
        invariant work.maxRetries == start.maxRetries
        invariant Finished(start, outcomes, p) == Finished(work, outcomes, p)
        decreases work.maxRetries + 2 - attempt
      {
        ghost var before := work;
        work := work.(attempts := attempt);
        var outcome := outcomes(attempt);
        if outcome.Exits? {
          work := work.(escaped := true);
          assert work == Attempted(before, outcome, p);
          return true;
        }
        if outcome.Throws? {
          if attempt > work.maxRetries {
            work := work.(status := Failed);
            assert work == Attempted(before, outcome, p);
            return false;
          }
          work := work.(status := Retrying);
          if SleepRaises(p, attempt) {
            work := work.(escaped := true);
            assert work == Attempted(before, outcome, p);
            return true;
          }
          work := work.(slept := work.slept + Delay(p, attempt));
          assert work == Attempted(before, outcome, p);
          attempt := attempt + 1;
          continue;
        }
        work := work.(status := Succeeded, result := Some(outcome.value));
        assert work == Attempted(before, outcome, p);
        return false;
      }
      return false;
    }
  }

  // ---------- What a prune is for ----------

  function CountOf(finished: seq<bool>): (n: nat)
    ensures n <= |finished|
  {
    if finished == [] then 0
    else CountOf(finished[..|finished| - 1]) + if finished[|finished| - 1] then 1 else 0
  }

  /** The items without the first `k` finished ones, the others in order. */
  function Remaining<T>(items: seq<T>, finished: seq<bool>, k: nat): seq<T>
    requires |items| == |finished|
  {
    if items == [] then []
    else
      var n := |items| - 1;
      var dropped := finished[n] && CountOf(finished[..n]) < k;
      Remaining(items[..n], finished[..n], k) + if dropped then [] else [items[n]]
  }

  /** How many go: what is beyond the limit, as far as there are finished ones. */
  function ToDrop(n: nat, max: nat, finished: nat): nat {
    if n <= max then 0 else if n - max < finished then n - max else finished
  }

  ghost function Finishes(tracked: seq<Job>): seq<bool>
    reads tracked
  {
    seq(|tracked|, i requires 0 <= i < |tracked| reads tracked => Terminal(tracked[i].work.status))
  }

  /** What a prune leaves of the tracked jobs. */
  ghost function Left(tracked: seq<Job>, max: nat): seq<Job>
    reads tracked
  {
    Remaining(tracked, Finishes(tracked), ToDrop(|tracked|, max, CountOf(Finishes(tracked))))
  }

  lemma {:induction false} RemainingAll<T>(items: seq<T>, finished: seq<bool>)
    requires |items| == |finished|
    ensures Remaining(items, finished, 0) == items
    decreases |items|
  {
    if items != [] { RemainingAll(items[..|items| - 1], finished[..|items| - 1]); }
  }

  lemma {:induction false} NoneFinished(finished: seq<bool>)
    requires forall j :: 0 <= j < |finished| ==> !finished[j]
    ensures CountOf(finished) == 0
    decreases |finished|
  {
    if finished != [] { NoneFinished(finished[..|finished| - 1]); }
  }

  lemma RemainingStep<T>(items: seq<T>, finished: seq<bool>, item: T, done: bool, k: nat)
    requires |items| == |finished|
    ensures CountOf(finished + [done]) == CountOf(finished) + if done then 1 else 0
    ensures Remaining(items + [item], finished + [done], k)
         == Remaining(items, finished, k) + if done && CountOf(finished) < k then [] else [item]
  {
    assert (items + [item])[..|items|] == items && (finished + [done])[..|finished|] == finished;
  }

  lemma Without<T>(s: seq<T>, i: nat)
    requires i < |s|
    ensures s == s[..|s| - 1] + [s[|s| - 1]]
    ensures var rest := s[..|s| - 1];
            s[..i] + s[i + 1..] == if i == |s| - 1 then rest else rest[..i] + rest[i + 1..] + [s[|s| - 1]]
  {
  }

  /** Dropping the first finished item leaves one less to drop. */
  lemma {:induction false} DropFirst<T>(items: seq<T>, finished: seq<bool>, i: nat, k: nat)
    requires |items| == |finished| && i < |items| && finished[i] && (forall j :: 0 <= j < i ==> !finished[j]) && k >= 1
    ensures var fewer := finished[..i] + finished[i + 1..];
            && CountOf(fewer) == CountOf(finished) - 1
            && Remaining(items[..i] + items[i + 1..], fewer, k - 1) == Remaining(items, finished, k)
    decreases |items|
  {
    hide Remaining, CountOf;
    var n := |items| - 1;
    var before, done := items[..n], finished[..n];
    Without(items, i);
    Without(finished, i);
    RemainingStep(before, done, items[n], finished[n], k);
    if i == n {
      NoneFinished(done);
      NothingToDrop(before, done, k - 1);
      NothingToDrop(before, done, k);
    } else {
      DropFirst(before, done, i, k);
      RemainingStep(before[..i] + before[i + 1..], done[..i] + done[i + 1..], items[n], finished[n], k - 1);
    }
  }

  lemma {:induction false} NothingToDrop<T>(items: seq<T>, finished: seq<bool>, k: nat)
    requires |items| == |finished| && CountOf(finished) == 0
    ensures Remaining(items, finished, k) == items
    decreases |items|
  {
    if items != [] { NothingToDrop(items[..|items| - 1], finished[..|items| - 1], k); }
  }

  /** The first terminal job of a list of jobs, or its length. */
  ghost function FirstTerminal(tracked: seq<Job>): (i: nat)
    reads tracked
    ensures i <= |tracked| && (i < |tracked| ==> Terminal(tracked[i].work.status))
    ensures forall j :: 0 <= j < i ==> !Terminal(tracked[j].work.status)
  {
    if tracked == [] then 0
    else if Terminal(tracked[0].work.status) then 0
    else
      assert forall j :: 1 <= j < |tracked| ==> tracked[j] == tracked[1..][j - 1];
      FirstTerminal(tracked[1..]) + 1
  }

  /** The oldest terminal jobs dropped until `max` are left or none of those left is terminal. */
  ghost function Pruned(tracked: seq<Job>, max: nat): seq<Job>
    reads tracked
    decreases |tracked|
  {
    var i := FirstTerminal(tracked);
    if |tracked| <= max || i == |tracked| then tracked else Pruned(tracked[..i] + tracked[i + 1..], max)
  }

  class Queue {
    const maxHistory: nat
    const defaultMaxRetries: int
    var tracked: seq<Job>
    var shutDown: bool

    constructor (maxHistory: int, defaultMaxRetries: int)
      ensures this.maxHistory == (if maxHistory < 10 then 10 else maxHistory)
      ensures this.defaultMaxRetries == defaultMaxRetries
      ensures tracked == [] && !shutDown
    {
      this.maxHistory := if maxHistory < 10 then 10 else maxHistory;
      this.defaultMaxRetries, tracked, shutDown := defaultMaxRetries, [], false;
    }

    /** `known` says whether a handler of that name is registered. */
    method Submit(id: nat, known: bool, maxRetries: Option<int>) returns (r: Attempt<Job>)
      modifies this`tracked
      ensures r.Raises? <==> shutDown || !known
      ensures r.Raises? ==> tracked == old(tracked)
      ensures r.Returns? ==>
                && fresh(r.value) && r.value.id == id
                && r.value.work == NewWork(match maxRetries case None => defaultMaxRetries case Some(n) => n)
                && tracked == Left(old(tracked) + [r.value], maxHistory)
      ensures r.Returns? && |old(tracked)| < maxHistory ==> tracked == old(tracked) + [r.value]
    {
      if shutDown { return Raises; }
      if !known { return Raises; }
      var job := new Job(id, match maxRetries case None => defaultMaxRetries case Some(n) => n);
      tracked := tracked + [job];
      Prune();
      return Returns(job);
    }

    method ShutDown()
      modifies this`shutDown
      ensures shutDown
    {
      shutDown := true;
    }

    method Prune()
      modifies this`tracked
      ensures tracked == Left(old(tracked), maxHistory)
      ensures |old(tracked)| <= maxHistory ==> tracked == old(tracked)
    {
      hide Left, Remaining, CountOf, ToDrop, Finishes, Terminal;
      PrunedIsLeft(tracked, maxHistory);
      while |tracked| > maxHistory
        invariant Pruned(old(tracked), maxHistory) == Pruned(tracked, maxHistory)
        decreases |tracked|
      {
        var i := 0;
        while i < |tracked| && !Terminal(tracked[i].work.status)
          invariant i <= FirstTerminal(tracked)
        {
          i := i + 1;
        }
        if i == |tracked| { return; }
        assert i == FirstTerminal(tracked);
        tracked := tracked[..i] + tracked[i + 1..];
      }
    }
  }

  // ---------- What a run of a job comes to ----------

  /** An exception leaves the worker in this attempt, if it is made. */
  predicate Escapes(maxRetries: int, outcomes: nat -> Outcome, p: Sleeping, attempt: nat)
    requires attempt >= 1
  {
    outcomes(attempt).Exits? || (outcomes(attempt).Throws? && attempt <= maxRetries && SleepRaises(p, attempt))
  }

  /** After `done` attempts, no attempt escapes before one succeeds. */
  ghost predicate StaysInside(done: nat, maxRetries: int, outcomes: nat -> Outcome, p: Sleeping) {
    forall k: nat :: done < k <= maxRetries + 1 && Escapes(maxRetries, outcomes, p, k) ==>
      exists j: nat :: done < j < k && outcomes(j).Succeeds?
  }

  lemma StaysInsideStep(done: nat, maxRetries: int, outcomes: nat -> Outcome, p: Sleeping)
    requires done < maxRetries + 1
    ensures outcomes(done + 1).Succeeds? ==> StaysInside(done, maxRetries, outcomes, p)
    ensures Escapes(maxRetries, outcomes, p, done + 1) ==> !StaysInside(done, maxRetries, outcomes, p)
    ensures done + 1 >= maxRetries + 1 ==> StaysInside(done + 1, maxRetries, outcomes, p)
    ensures !outcomes(done + 1).Succeeds? && !Escapes(maxRetries, outcomes, p, done + 1) ==>
              (StaysInside(done, maxRetries, outcomes, p) <==> StaysInside(done + 1, maxRetries, outcomes, p))
  {
    hide SleepRaises;
    if !outcomes(done + 1).Succeeds? && !Escapes(maxRetries, outcomes, p, done + 1) {
      if StaysInside(done, maxRetries, outcomes, p) {
        forall k: nat | done + 1 < k <= maxRetries + 1 && Escapes(maxRetries, outcomes, p, k)
          ensures exists j: nat :: done + 1 < j < k && outcomes(j).Succeeds?
        {
          var j: nat :| done < j < k && outcomes(j).Succeeds?;
        }
      }
      if StaysInside(done + 1, maxRetries, outcomes, p) {
        forall k: nat | done < k <= maxRetries + 1 && Escapes(maxRetries, outcomes, p, k)
          ensures exists j: nat :: done < j < k && outcomes(j).Succeeds?
        {
          var j: nat :| done + 1 < j < k && outcomes(j).Succeeds?;
        }
      }
    }
  }

  /**
   A job that ran alone is accounted for.  It ends terminal exactly when `max_retries` is not negative
   and no attempt lets an exception out, from its handler or from its sleep, before one succeeds.
   */
  lemma {:induction false} FinishedAccounted(w: Work, outcomes: nat -> Outcome, p: Sleeping)
    requires Accounted(w, p.backoff) && (w.status.Running? || w.status.Retrying?) && !w.escaped
    ensures var done := Finished(w, outcomes, p);
            && Accounted(done, p.backoff) && done.maxRetries == w.maxRetries
            && (Terminal(done.status) <==> w.maxRetries >= 0 && StaysInside(w.attempts, w.maxRetries, outcomes, p))
    decreases w.maxRetries + 1 - w.attempts
  {
    hide Backoff, SleepRaises, Delay, StaysInside;
    if Runnable(w) {
      var next := Attempted(w, outcomes(w.attempts + 1), p);
      AttemptAccounted(w, outcomes(w.attempts + 1), p);
      StaysInsideStep(w.attempts, w.maxRetries, outcomes, p);
      if next.status.Retrying? && !next.escaped { FinishedAccounted(next, outcomes, p); }
    }
  }

  /** The attempts between two counts all failed and slept. */
  ghost predicate OnlyRetries(from: nat, to: nat, outcomes: nat -> Outcome, p: Sleeping) {
    forall j: nat :: from < j < to ==> outcomes(j).Throws? && !SleepRaises(p, j)
  }

  /**
   A job succeeds exactly when one of its `max_retries + 1` attempts does after failures it slept
   through, and its result is that of the first that does.
   */
  lemma {:induction false} FinishedSucceeds(w: Work, outcomes: nat -> Outcome, p: Sleeping)
    requires (w.status.Running? || w.status.Retrying?) && !w.escaped
    ensures var done := Finished(w, outcomes, p);
            && (done.status.Succeeded? <==>
                 exists k: nat :: w.attempts < k <= w.maxRetries + 1 && outcomes(k).Succeeds?
                     && OnlyRetries(w.attempts, k, outcomes, p))
            && (done.status.Succeeded? ==>
                 && w.attempts < done.attempts <= w.maxRetries + 1
                 && outcomes(done.attempts).Succeeds? && done.result == Some(outcomes(done.attempts).value)
                 && OnlyRetries(w.attempts, done.attempts, outcomes, p))
    decreases w.maxRetries + 1 - w.attempts
  {
    hide SleepRaises, Delay;
    var n := w.attempts;
    if Runnable(w) {
      var next := Attempted(w, outcomes(n + 1), p);
      if outcomes(n + 1).Succeeds? {
        assert OnlyRetries(n, n + 1, outcomes, p);
      } else if Runnable(next) {
        FinishedSucceeds(next, outcomes, p);
        RetriesFromNext(n, w.maxRetries, outcomes, p);
      } else {
        forall k: nat | n < k <= w.maxRetries + 1 && outcomes(k).Succeeds? ensures !OnlyRetries(n, k, outcomes, p) {
          assert n < n + 1 < k;
        }
      }
    }
  }

  lemma RetriesFromNext(n: nat, maxRetries: int, outcomes: nat -> Outcome, p: Sleeping)
    requires outcomes(n + 1).Throws? && !SleepRaises(p, n + 1)
    ensures forall k: nat :: n + 1 < k <= maxRetries + 1 ==>
              (OnlyRetries(n, k, outcomes, p) <==> OnlyRetries(n + 1, k, outcomes, p))
  {
    hide SleepRaises;
  }

  // ---------- Jobs that never end ----------

  /** With a negative `max_retries` no attempt is made and the job stays running. */
  lemma NegativeRetries(outcomes: nat -> Outcome, p: Sleeping)
    ensures Finished(NewWork(-1).(status := Running), outcomes, p) == NewWork(-1).(status := Running)
  {
  }

  /**
   With a negative backoff the sleep after a first failure raises: the job stays retrying, whatever a second
   attempt would do.
   */
  lemma NegativeBackoff(second: Outcome, longest: real, powers: nat)
    ensures var outcomes: nat -> Outcome := k => if k == 1 then Throws else second;
            var done := Finished(NewWork(1).(status := Running), outcomes, Sleeping(-1.0, longest, powers));
            done.status.Retrying? && done.escaped && done.attempts == 1
  {
    assert Delay(Sleeping(-1.0, longest, powers), 1) == -1.0;
  }

  lemma {:induction false} LongestLast(p: Sleeping, k: nat, n: nat)
    requires 1 <= k <= n && p.backoff >= 0.0
    ensures 0.0 <= Delay(p, k) <= Delay(p, n)
    decreases n - k
  {
    if k == n {
      DelayDoubles(p, n);
    } else {
      LongestLast(p, k, n - 1);
      DelayDoubles(p, n - 1);
    }
  }

  lemma {:induction false} DelayDoubles(p: Sleeping, k: nat)
    requires k >= 1
    ensures Delay(p, k + 1) == 2.0 * Delay(p, k) && Delay(p, 1) == p.backoff
    ensures p.backoff >= 0.0 ==> Delay(p, k) >= 0.0
    decreases k
  {
    var power := Pow2(k - 1);
    assert Pow2(k) as real == 2.0 * power as real;
    assert p.backoff * (2.0 * power as real) == 2.0 * (p.backoff * power as real);
    if k > 1 { DelayDoubles(p, k - 1); }
  }

  /** No sleep after up to `n` failures raises exactly when the backoff is not negative and the last sleep fits. */
  lemma SleepsFit(p: Sleeping, n: nat)
    ensures (forall k :: 1 <= k <= n ==> !SleepRaises(p, k)) <==>
              n == 0 || (p.backoff >= 0.0 && n <= p.powers && p.backoff * Pow2(n - 1) as real <= p.longest)
  {
    hide Delay, Pow2;
    if n >= 1 && p.backoff >= 0.0 {
      forall k | 1 <= k <= n ensures 0.0 <= Delay(p, k) <= Delay(p, n) { LongestLast(p, k, n); }
    }
    if n >= 1 {
      DelayDoubles(p, 1);
      LastDelay(p, n);
      assert p.backoff < 0.0 ==> SleepRaises(p, 1);
      assert Delay(p, n) > p.longest || n > p.powers ==> SleepRaises(p, n);
    }
  }

  lemma LastDelay(p: Sleeping, n: nat)
    requires n >= 1
    ensures Delay(p, n) == p.backoff * Pow2(n - 1) as real
  {
  }

  /** A handler that exits leaves its job running, however many retries remain. */
  lemma ExitingHandler(maxRetries: nat, p: Sleeping)
    ensures var done := Finished(NewWork(maxRetries).(status := Running), _ => Exits, p);
            done.status.Running? && done.escaped && done.attempts == 1
  {
  }

  // ---------- What pruning leaves ----------

  lemma FinishesWithout(tracked: seq<Job>, i: nat)
    requires i < |tracked|
    ensures Finishes(tracked[..i] + tracked[i + 1..]) == Finishes(tracked)[..i] + Finishes(tracked)[i + 1..]
  {
  }

  lemma CountSome(finished: seq<bool>, i: nat)
    requires i < |finished| && finished[i]
    ensures CountOf(finished) >= 1
    decreases |finished|
  {
    if i < |finished| - 1 { CountSome(finished[..|finished| - 1], i); }
  }

  lemma LeftAlone(tracked: seq<Job>, max: nat)
    requires |tracked| <= max || FirstTerminal(tracked) == |tracked|
    ensures Left(tracked, max) == tracked
  {
    RemainingAll(tracked, Finishes(tracked));
    if |tracked| > max { NoneFinished(Finishes(tracked)); }
  }

  /** Dropping one terminal job after the other drops the oldest ones, as many as are too many. */
  lemma {:induction false} PrunedIsLeft(tracked: seq<Job>, max: nat)
    ensures Pruned(tracked, max) == Left(tracked, max)
    decreases |tracked|
  {
    hide Remaining, CountOf, Finishes;
    var finished, i := Finishes(tracked), FirstTerminal(tracked);
    if |tracked| <= max || i == |tracked| {
      LeftAlone(tracked, max);
    } else {
      var rest := tracked[..i] + tracked[i + 1..];
      FlagAt(tracked, i);
      CountSome(finished, i);
      FinishesWithout(tracked, i);
      PrunedIsLeft(rest, max);
      DropFirst(tracked, finished, i, ToDrop(|tracked|, max, CountOf(finished)));
    }
  }

  lemma FlagAt(tracked: seq<Job>, i: nat)
    requires i < |tracked| && i == FirstTerminal(tracked)
    ensures |Finishes(tracked)| == |tracked| && Finishes(tracked)[i] && forall j :: 0 <= j < i ==> !Finishes(tracked)[j]
  {
  }

  /** Pruning keeps the order, drops only terminal jobs, and ends within the limit or with no terminal job left. */
  lemma {:induction false} PrunedDropsOnlyTerminal(tracked: seq<Job>, max: nat)
    ensures var left := Pruned(tracked, max);
            && (|left| <= max || forall job :: job in left ==> !Terminal(job.work.status))
            && (forall job :: job in left ==> job in tracked)
            && (forall job :: job in tracked && job !in left ==> Terminal(job.work.status))
            && (|tracked| > max ==> |left| >= max)
    decreases |tracked|
  {
    var i := FirstTerminal(tracked);
    if |tracked| > max && i < |tracked| {
      var rest := tracked[..i] + tracked[i + 1..];
      assert forall job :: job in tracked ==> job in rest || job == tracked[i];
      PrunedDropsOnlyTerminal(rest, max);
    }
  }
}
