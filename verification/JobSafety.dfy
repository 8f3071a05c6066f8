/**
 What the job queue keeps over whole runs (app/workers/queue.py:151-280): how jobs end, and exactly which
 terminal jobs a prune can leave beyond the limit.
 */
module JobSafety {
  import opened JobQueue
  import opened JobProtocol

  // ---------- The theorems ----------

  /** In every run a terminal job never changes again. */
  lemma {:induction false} TerminalIsForGood(run: seq<State>, max: nat, p: Sleeping, i: nat, j: nat)
    requires IsRun(run, max, p) && i <= j < |run|
    ensures Settled(run[i].jobs, run[j].jobs)
    decreases j
  {
    hide Inv, Next;
    if i < j {
      TerminalIsForGood(run, max, p, i, j - 1);
      RunInv(run, max, p, j - 1);
      NextKeeps(run[j - 1], run[j], max, p);
      SettledTrans(run[i].jobs, run[j - 1].jobs, run[j].jobs);
    }
  }

  /**
   In every run a cancelled job never ran, and a failed one used all `max_retries + 1` attempts and
   slept `backoff * (2^max_retries - 1)` in all.
   */
  lemma OutcomesAccounted(run: seq<State>, max: nat, p: Sleeping, i: nat, id: Id)
    requires IsRun(run, max, p) && i < |run| && id in run[i].jobs
    ensures var w := run[i].jobs[id].work;
            && (w.status.Cancelled? ==> w.attempts == 0 && run[i].jobs[id].future.Dropped?)
            && (w.status.Failed? ==>
                 w.maxRetries >= 0 && w.attempts == w.maxRetries + 1
                     && w.slept == p.backoff * (Pow2(w.maxRetries) - 1) as real)
  {
    hide Pow2;
    RunInv(run, max, p, i);
    assert EntryInv(run[i].jobs[id], p);
  }

  /**
   A job whose worker is done is terminal exactly when its `max_retries` is not negative and no exception left
   the worker.
   */
  lemma DoneIsTerminal(run: seq<State>, max: nat, p: Sleeping, i: nat, id: Id)
    requires IsRun(run, max, p) && i < |run| && id in run[i].jobs && run[i].jobs[id].future.Done?
    ensures Terminal(run[i].jobs[id].work.status) <==>
            run[i].jobs[id].work.maxRetries >= 0 && !run[i].jobs[id].work.escaped
  {
    RunInv(run, max, p, i);
    assert EntryInv(run[i].jobs[id], p);
  }

  /** Step `j` is an attempt that lets an exception out: the handler exits, or the sleep after a failure raises. */
  ghost predicate LetsOut(run: seq<State>, p: Sleeping, j: nat, id: Id)
    requires j + 1 < |run|
  {
    && id in run[j].jobs
    && var w := run[j].jobs[id].work;
       exists outcome :: TryOnce(run[j], run[j + 1], id, outcome, p)
         && (outcome.Exits? || (outcome.Throws? && w.attempts < w.maxRetries && SleepRaises(p, w.attempts + 1)))
  }

  /** An exception left the worker of a job exactly when some attempt of the run let one out. */
  lemma {:induction false} EscapedExactly(run: seq<State>, max: nat, p: Sleeping, i: nat, id: Id)
    requires IsRun(run, max, p) && i < |run| && id in run[i].jobs
    ensures run[i].jobs[id].work.escaped <==> exists j: nat :: j < i && LetsOut(run, p, j, id)
    decreases i
  {
    hide Inv;
    if i > 0 {
      var s, t := run[i - 1], run[i];
      assert Next(s, t, max, p);
      RunInv(run, max, p, i - 1);
      if id in s.jobs {
        EscapedExactly(run, max, p, i - 1, id);
        EscapeStep(run, max, p, i, id);
      } else {
        NotYetSubmitted(run, max, p, i, id);
      }
    }
  }

  lemma EscapeStep(run: seq<State>, max: nat, p: Sleeping, i: nat, id: Id)
    requires IsRun(run, max, p) && 0 < i < |run| && id in run[i - 1].jobs && id in run[i].jobs
    requires Inv(run[i - 1], max, p)
    ensures run[i].jobs[id].work.escaped <==> run[i - 1].jobs[id].work.escaped || LetsOut(run, p, i - 1, id)
  {
    hide Accounted, SleepRaises, Delay;
    var s, t := run[i - 1], run[i];
    assert Next(s, t, max, p);
    if other :| JobStep(s, t, other, p) {
      if outcome :| TryOnce(s, t, other, outcome, p) {
      }
    }
  }

  lemma {:induction false} NotYetSubmitted(run: seq<State>, max: nat, p: Sleeping, i: nat, id: Id)
    requires IsRun(run, max, p) && 0 < i < |run| && id !in run[i - 1].jobs && id in run[i].jobs
    ensures !run[i].jobs[id].work.escaped && forall j: nat :: j < i ==> !LetsOut(run, p, j, id)
  {
    hide Inv, EntryInv;
    assert Next(run[i - 1], run[i], max, p);
    forall j: nat | j < i ensures !LetsOut(run, p, j, id) {
      TerminalIsForGood(run, max, p, j, i - 1);
    }
  }

  /** In every run a job that is no longer tracked is terminal. */
  lemma {:induction false} OnlyTerminalAreEvicted(run: seq<State>, max: nat, p: Sleeping, i: nat, j: nat, id: Id)
    requires IsRun(run, max, p) && i <= j < |run| && id in run[i].tracked && id !in run[j].tracked
    ensures id in run[j].jobs && Terminal(run[j].jobs[id].work.status)
    decreases j
  {
    hide Inv, Next;
    RunInv(run, max, p, j - 1);
    NextKeeps(run[j - 1], run[j], max, p);
    if id !in run[j - 1].tracked { OnlyTerminalAreEvicted(run, max, p, i, j - 1, id); }
  }

  /** At step `j` of the run a worker or a cancellation makes the job terminal. */
  ghost predicate BecomesTerminal(run: seq<State>, p: Sleeping, j: nat, id: Id)
    requires j + 1 < |run|
  {
    && id in run[j].jobs && !Terminal(run[j].jobs[id].work.status)
    && id in run[j + 1].jobs && Terminal(run[j + 1].jobs[id].work.status)
    && (MarkCancelled(run[j], run[j + 1], id) || Tries(run[j], run[j + 1], id, p))
  }

  /** From the check at `b` to `i`, the run is one scan. */
  ghost predicate OneScan(run: seq<State>, b: nat, i: nat)
    requires i < |run|
  {
    && b < i && run[i].lock.Scanning? && run[b].lock.Checking? && run[b + 1].lock == Scanning(0)
       && run[b].jobs == run[b + 1].jobs
    && forall j :: b < j <= i ==>
       run[j].lock.Scanning? && run[j].tracked == run[i].tracked && run[j].lock.next <= run[i].lock.next
  }

  /** The `k`-th tracked job is terminal. */
  predicate TerminalAt(s: State, k: nat) {
    k < |s.tracked| && s.tracked[k] in s.jobs && Terminal(s.jobs[s.tracked[k]].work.status)
  }

  /** The `k`-th tracked job became terminal after the scan had passed it. */
  ghost predicate FinishedBehind(run: seq<State>, p: Sleeping, b: nat, i: nat, k: nat)
    requires i < |run| && k < |run[i].tracked|
  {
    exists j: nat :: b < j < i && run[j].lock.Scanning? && run[j].lock.next > k
        && BecomesTerminal(run, p, j, run[i].tracked[k])
  }

  /** A step that makes a job terminal is a worker's or a cancellation's on that job. */
  lemma TerminalStep(s: State, t: State, max: nat, p: Sleeping, id: Id)
    requires Inv(s, max, p) && Next(s, t, max, p)
    requires id in s.jobs && !Terminal(s.jobs[id].work.status) && id in t.jobs && Terminal(t.jobs[id].work.status)
    ensures MarkCancelled(s, t, id) || Tries(s, t, id, p)
    ensures t.lock == s.lock && t.tracked == s.tracked
  {
    hide EntryInv;
    if other :| JobStep(s, t, other, p) {
      assert EntryInv(s.jobs[other], p);
      JobStepEntry(s, t, other, p);
      assert other == id;
    }
  }

  lemma {:induction false} LastScan(run: seq<State>, max: nat, p: Sleeping, i: nat) returns (b: nat)
    requires IsRun(run, max, p) && i < |run| && run[i].lock.Scanning?
    ensures OneScan(run, b, i)
    ensures forall k: nat :: k < run[i].lock.next && TerminalAt(run[i], k) ==> FinishedBehind(run, p, b, i, k)
    decreases i
  {
    hide Inv, JobStep;
    var s, t := run[i - 1], run[i];
    assert Next(s, t, max, p);
    RunInv(run, max, p, i - 1);
    if Check(s, t, max) {
      b := i - 1;
    } else {
      StillScanning(s, t, max, p);
      b := LastScan(run, max, p, i - 1);
      forall k: nat | k < t.lock.next && TerminalAt(t, k)
        ensures FinishedBehind(run, p, b, i, k)
      {
        PassedOver(run, max, p, b, i, k);
      }
    }
  }

  /**
   A scan goes on from a scan: it looks at the next job, which is not terminal, or some job is changed by a
   thread.
   */
  lemma StillScanning(s: State, t: State, max: nat, p: Sleeping)
    requires Inv(s, max, p) && Next(s, t, max, p) && t.lock.Scanning? && !Check(s, t, max)
    ensures s.lock.Scanning? && t.tracked == s.tracked
    ensures t.lock == s.lock || (&& t.jobs == s.jobs && t.lock.next == s.lock.next + 1 && s.lock.next < |s.tracked|
                                 && s.tracked[s.lock.next] in s.jobs
                                    && !Terminal(s.jobs[s.tracked[s.lock.next]].work.status))
  {
    hide EntryInv;
    if id :| JobStep(s, t, id, p) { JobStepKeeps(s, t, id, max, p); }
  }

  lemma PassedOver(run: seq<State>, max: nat, p: Sleeping, b: nat, i: nat, k: nat)
    requires IsRun(run, max, p) && 0 < i < |run| && !Check(run[i - 1], run[i], max)
    requires run[i].lock.Scanning? && OneScan(run, b, i - 1) && run[i].tracked == run[i - 1].tracked
    requires k < run[i].lock.next && TerminalAt(run[i], k)
    requires k < run[i - 1].lock.next && TerminalAt(run[i - 1], k) ==> FinishedBehind(run, p, b, i - 1, k)
    ensures FinishedBehind(run, p, b, i, k)
  {
    hide EntryInv, JobStep;
    var s, t, id := run[i - 1], run[i], run[i].tracked[k];
    RunInv(run, max, p, i - 1);
    StillScanning(s, t, max, p);
    assert s.tracked[k] in s.jobs;
    if !Terminal(s.jobs[id].work.status) {
      TerminalStep(s, t, max, p, id);
      assert BecomesTerminal(run, p, i - 1, id);
    } else {
      var j: nat :| b < j < i - 1 && run[j].lock.Scanning? && run[j].lock.next > k && BecomesTerminal(run, p, j, id);
    }
  }

  /**
   When a prune ends above the limit, its last scan is a stretch of the run, and a tracked job is
   terminal then if and only if, in that stretch and after the scan had passed it, a worker finished it
   or a cancellation marked it.
   */
  lemma PruneEnds(run: seq<State>, max: nat, p: Sleeping, i: nat) returns (b: nat)
    requires IsRun(run, max, p) && 0 < i < |run| && !run[i - 1].lock.Idle? && run[i].lock.Idle?
    requires |run[i].tracked| > max
    ensures OneScan(run, b, i - 1) && run[i - 1].tracked == run[i].tracked && run[i - 1].jobs == run[i].jobs
    ensures forall k: nat :: k < |run[i].tracked| ==>
              run[i].tracked[k] in run[i].jobs && (TerminalAt(run[i], k) <==> FinishedBehind(run, p, b, i - 1, k))
  {
    hide Inv, IsRun, Next;
    GivenUp(run, max, p, i);
    b := LastScan(run, max, p, i - 1);
    forall k: nat | k < |run[i].tracked| && FinishedBehind(run, p, b, i - 1, k) ensures TerminalAt(run[i], k) {
      StaysFinished(run, max, p, b, i - 1, k);
    }
  }

  lemma GivenUp(run: seq<State>, max: nat, p: Sleeping, i: nat)
    requires IsRun(run, max, p) && 0 < i < |run| && !run[i - 1].lock.Idle? && run[i].lock.Idle?
    requires |run[i].tracked| > max
    ensures GiveUp(run[i - 1], run[i]) && forall k :: 0 <= k < |run[i].tracked| ==> run[i].tracked[k] in run[i].jobs
  {
    var s, t := run[i - 1], run[i];
    RunInv(run, max, p, i - 1);
    assert Next(s, t, max, p);
    hide EntryInv, JobStep;
    if id :| JobStep(s, t, id, p) { JobStepKeeps(s, t, id, max, p); }
  }

  lemma StaysFinished(run: seq<State>, max: nat, p: Sleeping, b: nat, i: nat, k: nat)
    requires IsRun(run, max, p) && i < |run| && k < |run[i].tracked| && FinishedBehind(run, p, b, i, k)
    ensures TerminalAt(run[i], k)
  {
    hide IsRun;
    var id := run[i].tracked[k];
    var j: nat :| b < j < i && run[j].lock.Scanning? && run[j].lock.next > k && BecomesTerminal(run, p, j, id);
    TerminalIsForGood(run, max, p, j + 1, i);
  }

  /** So if no thread makes a tracked job terminal during the last scan, every tracked job is non-terminal. */
  lemma QuietPruneLeavesNoneTerminal(run: seq<State>, max: nat, p: Sleeping, i: nat) returns (b: nat)
    requires IsRun(run, max, p) && 0 < i < |run| && !run[i - 1].lock.Idle? && run[i].lock.Idle?
    requires |run[i].tracked| > max
    ensures OneScan(run, b, i - 1)
    ensures (forall j, id :: b < j < i - 1 && id in run[i].tracked ==> !BecomesTerminal(run, p, j, id)) ==>
              forall id :: id in run[i].tracked ==> id in run[i].jobs && !Terminal(run[i].jobs[id].work.status)
  {
    b := PruneEnds(run, max, p, i);
    hide BecomesTerminal, OneScan, IsRun;
    if forall j, id :: b < j < i - 1 && id in run[i].tracked ==> !BecomesTerminal(run, p, j, id) {
      forall id | id in run[i].tracked ensures id in run[i].jobs && !Terminal(run[i].jobs[id].work.status) {
        var k: nat :| k < |run[i].tracked| && run[i].tracked[k] == id;
        assert !FinishedBehind(run, p, b, i - 1, k);
      }
    }
  }

  // ---------- An undisturbed prune drops what the queue's own prune drops ----------

  /** Which tracked jobs are terminal. */
  function Ended(s: State): (r: seq<bool>)
    ensures |r| == |s.tracked|
  {
    seq(|s.tracked|, i requires 0 <= i < |s.tracked| =>
      s.tracked[i] in s.jobs && Terminal(s.jobs[s.tracked[i]].work.status))
  }

  function LeftOf(s: State, max: nat): seq<Id> {
    Remaining(s.tracked, Ended(s), ToDrop(|s.tracked|, max, CountOf(Ended(s))))
  }

  /** What the tracked jobs come to, when no thread interferes. */
  function Aim(s: State, max: nat): seq<Id> {
    if s.lock.Idle? then s.tracked else LeftOf(s, max)
  }

  /** The scan is within the jobs, found too many of them, and has passed no terminal one. */
  predicate Clear(s: State, max: nat) {
    s.lock.Scanning? ==>
      max < |s.tracked| && s.lock.next <= |s.tracked| && forall i :: 0 <= i < s.lock.next ==> !Ended(s)[i]
  }

  lemma NothingGoes(s: State, max: nat)
    requires |s.tracked| <= max || forall i :: 0 <= i < |s.tracked| ==> !Ended(s)[i]
    ensures LeftOf(s, max) == s.tracked
  {
    RemainingAll(s.tracked, Ended(s));
    if |s.tracked| > max { NoneFinished(Ended(s)); }
  }

  lemma OneGoes(s: State, t: State, max: nat)
    requires Scan(s, t) && Clear(s, max) && Ended(s)[s.lock.next]
    ensures LeftOf(t, max) == LeftOf(s, max)
  {
    hide Remaining, CountOf;
    var i := s.lock.next;
    assert Ended(t) == Ended(s)[..i] + Ended(s)[i + 1..];
    CountSome(Ended(s), i);
    DropFirst(s.tracked, Ended(s), i, ToDrop(|s.tracked|, max, CountOf(Ended(s))));
  }

  lemma AimStep(s: State, t: State, max: nat, p: Sleeping)
    requires Next(s, t, max, p) && !s.lock.Idle? && t.jobs == s.jobs && Clear(s, max)
    ensures Clear(t, max) && Aim(t, max) == Aim(s, max)
  {
    hide LeftOf, Remaining, CountOf, Attempted;
    if Check(s, t, max) {
      if t.lock.Idle? { NothingGoes(s, max); } else { SameTracked(s, t, max); }
    } else if Scan(s, t) {
      if Ended(s)[s.lock.next] { OneGoes(s, t, max); } else { SameTracked(s, t, max); }
    } else if GiveUp(s, t) {
      NothingGoes(s, max);
    } else {
      assert t == s;
    }
  }

  lemma SameTracked(s: State, t: State, max: nat)
    requires t.tracked == s.tracked && t.jobs == s.jobs
    ensures Ended(t) == Ended(s) && LeftOf(t, max) == LeftOf(s, max)
  {
    assert Ended(t) == Ended(s);
  }

  /**
   From the size check after a submit to its end, as long as no thread changes a job, a prune drops exactly the
   oldest terminal jobs, as many as are beyond the limit: what the queue's own loop drops.
   */
  lemma {:induction false} UndisturbedPrune(run: seq<State>, max: nat, p: Sleeping, a: nat, b: nat)
    requires IsRun(run, max, p) && a <= b < |run| && run[a].lock.Checking?
    requires forall j :: a <= j < b ==> !run[j].lock.Idle? && run[j + 1].jobs == run[j].jobs
    ensures Clear(run[b], max) && Aim(run[b], max) == LeftOf(run[a], max)
    ensures run[b].lock.Idle? ==> run[b].tracked == LeftOf(run[a], max)
    decreases b
  {
    hide Next, LeftOf;
    if a < b {
      UndisturbedPrune(run, max, p, a, b - 1);
      assert Next(run[b - 1], run[b], max, p);
      AimStep(run[b - 1], run[b], max, p);
    }
  }

  /** In every run a job leaves the tracked ones only while there are more of them than the limit. */
  lemma NeverBelowTheLimit(run: seq<State>, max: nat, p: Sleeping, i: nat)
    requires IsRun(run, max, p) && 0 < i < |run| && |run[i].tracked| < |run[i - 1].tracked|
    ensures |run[i - 1].tracked| > max && |run[i].tracked| == |run[i - 1].tracked| - 1
  {
    RunInv(run, max, p, i - 1);
    assert Next(run[i - 1], run[i], max, p);
  }

  // ---------- A prune can leave a terminal job beyond the limit ----------

  function Waiting(n: nat): (r: Jobs)
    ensures forall i: nat :: i in r <==> i < n
  {
    if n == 0 then map[] else Waiting(n - 1)[n - 1 := Entry(NewWork(0), Unset)]
  }

  function Ids(n: nat): (r: seq<Id>)
    ensures |r| == n && forall i :: 0 <= i < n ==> r[i] == i
  {
    seq(n, i => i)
  }

  lemma {:induction false} AllPending(n: nat, i: nat)
    requires i < n
    ensures Waiting(n)[i] == Entry(NewWork(0), Unset)
  {
    if i < n - 1 { AllPending(n - 1, i); }
  }

  lemma Extend(run: seq<State>, t: State, max: nat, p: Sleeping) returns (longer: seq<State>)
    requires IsRun(run, max, p) && Next(run[|run| - 1], t, max, p)
    ensures IsRun(longer, max, p) && longer[|longer| - 1] == t && longer == run + [t]
  {
    hide Next;
    longer := run + [t];
    forall i | 0 < i < |longer| ensures Next(longer[i - 1], longer[i], max, p) {
      if i < |run| { assert longer[i] == run[i] && longer[i - 1] == run[i - 1]; }
    }
  }

  /** `n` jobs submitted and none of them run yet. */
  lemma {:induction false} SubmitMany(n: nat, max: nat, p: Sleeping) returns (run: seq<State>)
    requires n <= max
    ensures IsRun(run, max, p) && run[|run| - 1] == State(Waiting(n), Ids(n), Idle)
  {
    if n == 0 {
      assert Ids(0) == [];
      run := [State(map[], [], Idle)];
    } else {
      run := SubmitMany(n - 1, max, p);
      assert Ids(n) == Ids(n - 1) + [n - 1];
      var checking := State(Waiting(n), Ids(n), Checking);
      assert Submit(run[|run| - 1], checking, n - 1, 0);
      run := Extend(run, checking, max, p);
      assert Check(checking, checking.(lock := Idle), max);
      run := Extend(run, checking.(lock := Idle), max, p);
    }
  }

  /** The scan passes over the jobs up to `k`, none of which is terminal when it is looked at. */
  lemma {:induction false} ScanPast(run: seq<State>, from: nat, k: nat, max: nat,
        p: Sleeping) returns (longer: seq<State>)
    requires IsRun(run, max, p)
    requires var s := run[|run| - 1];
             && s.lock == Scanning(from) && from <= k <= |s.tracked|
             && forall i :: from <= i < k ==> s.tracked[i] in s.jobs && !Terminal(s.jobs[s.tracked[i]].work.status)
    ensures IsRun(longer, max, p) && longer[|longer| - 1] == run[|run| - 1].(lock := Scanning(k))
    decreases k - from
  {
    longer := run;
    if from < k {
      var s := run[|run| - 1];
      var t := s.(lock := Scanning(from + 1));
      assert Scan(s, t);
      longer := Extend(run, t, max, p);
      longer := ScanPast(longer, from + 1, k, max, p);
    }
  }

  /** `n` jobs submitted, the first of which is running. */
  lemma FirstRuns(n: nat, max: nat, p: Sleeping) returns (run: seq<State>)
    requires 1 <= n <= max
    ensures IsRun(run, max, p)
    ensures var t := run[|run| - 1];
            && t.tracked == Ids(n) && t.lock.Idle? && t.jobs.Keys == Waiting(n).Keys
            && t.jobs[0] == Entry(NewWork(0).(status := Running), Taken)
            && forall i :: 1 <= i < n ==> t.jobs[i] == Entry(NewWork(0), Unset)
  {
    run := SubmitMany(n, max, p);
    forall i | 0 <= i < n ensures Waiting(n)[i] == Entry(NewWork(0), Unset) { AllPending(n, i); }
    var idle := run[|run| - 1];
    var waiting := SetFuture(idle, 0, Queued);
    assert Enqueue(idle, waiting, 0) && JobStep(idle, waiting, 0, p);
    run := Extend(run, waiting, max, p);
    var taken := SetFuture(SetWork(waiting, 0, waiting.jobs[0].work.(status := Running)), 0, Taken);
    assert Take(waiting, taken, 0) && JobStep(waiting, taken, 0, p);
    run := Extend(run, taken, max, p);
  }

  /**
   With any limit of at least one there is a run in which a prune ends with more jobs than the limit
   while one of them is terminal: the first job finishes after the scan has passed it.
   */
  lemma PruneCanMiss(max: nat, p: Sleeping) returns (run: seq<State>)
    requires max >= 1
    ensures IsRun(run, max, p)
    ensures var t := run[|run| - 1];
            t.lock.Idle? && |t.tracked| > max && t.tracked[0] in t.jobs && Terminal(t.jobs[t.tracked[0]].work.status)
    ensures |run| >= 2 && run[|run| - 2].lock.Scanning?
  {
    run := FirstRuns(max, max, p);
    var first := run[|run| - 1];
    // one job more is submitted, and the scan passes the first
    var more := State(first.jobs[max := Entry(NewWork(0), Unset)], first.tracked + [max], Checking);
    assert Submit(first, more, max, 0);
    run := Extend(run, more, max, p);
    var scanning := more.(lock := Scanning(0));
    assert Check(more, scanning, max);
    run := Extend(run, scanning, max, p);
    run := ScanPast(run, 0, 1, max, p);
    // it finishes, and the scan goes on to the end
    var passed := run[|run| - 1];
    var finished := SetWork(passed, 0, Attempted(passed.jobs[0].work, Succeeds(0), p));
    assert TryOnce(passed, finished, 0, Succeeds(0), p) && JobStep(passed, finished, 0, p);
    run := Extend(run, finished, max, p);
    run := ScanPast(run, 1, max + 1, max, p);
    var last := run[|run| - 1];
    assert GiveUp(last, last.(lock := Idle));
    run := Extend(run, last.(lock := Idle), max, p);
  }
}
