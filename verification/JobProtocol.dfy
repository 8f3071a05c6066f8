/**
 The job queue with its threads interleaved (app/workers/queue.py:131-272).

 Submitting holds the queue's lock from tracking the job to the end of its prune.  Workers and
 cancellation change jobs without the lock, so a prune sees each job at a different moment.  A job is
 handed to the pool only after the prune, and a queue that is shut down may never do so.
 */
module JobProtocol {
  import opened JobQueue

  type Id = nat

  /** A future: not created yet, waiting in the pool, taken by a worker, done, or cancelled. */
  datatype Future = Unset | Queued | Taken | Done | Dropped

  datatype Entry = Entry(work: Work, future: Future)

  type Jobs = map<Id, Entry>

  /** The submitter's progress: none, about to compare sizes, or about to look at a tracked job. */
  datatype Lock = Idle | Checking | Scanning(next: nat)

  datatype State = State(jobs: Jobs, tracked: seq<Id>, lock: Lock)

  // ---------- Steps ----------

  function SetWork(s: State, id: Id, work: Work): State
    requires id in s.jobs
  {
    s.(jobs := s.jobs[id := s.jobs[id].(work := work)])
  }

  function SetFuture(s: State, id: Id, future: Future): State
    requires id in s.jobs
  {
    s.(jobs := s.jobs[id := s.jobs[id].(future := future)])
  }

  predicate Submit(s: State, t: State, id: Id, maxRetries: int) {
    && s.lock.Idle? && id !in s.jobs
    && t == State(s.jobs[id := Entry(NewWork(maxRetries), Unset)], s.tracked + [id], Checking)
  }

  predicate Check(s: State, t: State, max: nat) {
    s.lock.Checking? && t == s.(lock := if |s.tracked| > max then Scanning(0) else Idle)
  }

  /** The scan looks at the next tracked job: a terminal one is dropped and the sizes are compared again. */
  predicate Scan(s: State, t: State) {
    && s.lock.Scanning? && s.lock.next < |s.tracked| && s.tracked[s.lock.next] in s.jobs
    && var i := s.lock.next;
       t == if Terminal(s.jobs[s.tracked[i]].work.status)
           then s.(tracked := s.tracked[..i] + s.tracked[i + 1..], lock := Checking)
            else s.(lock := Scanning(i + 1))
  }

  /** The scan found nothing terminal. */
  predicate GiveUp(s: State, t: State) {
    s.lock.Scanning? && s.lock.next == |s.tracked| && t == s.(lock := Idle)
  }

  predicate Enqueue(s: State, t: State, id: Id) {
    id in s.jobs && s.jobs[id].future.Unset? && t == SetFuture(s, id, Queued)
  }

  predicate Take(s: State, t: State, id: Id) {
    && id in s.jobs && s.jobs[id].future.Queued?
    && t == SetFuture(SetWork(s, id, s.jobs[id].work.(status := Running)), id, Taken)
  }

  predicate TryOnce(s: State, t: State, id: Id, outcome: Outcome, p: Sleeping) {
    && id in s.jobs && s.jobs[id].future.Taken? && Runnable(s.jobs[id].work)
    && t == SetWork(s, id, Attempted(s.jobs[id].work, outcome, p))
  }

  ghost predicate Tries(s: State, t: State, id: Id, p: Sleeping) {
    exists outcome :: TryOnce(s, t, id, outcome, p)
  }

  predicate Release(s: State, t: State, id: Id) {
    id in s.jobs && s.jobs[id].future.Taken? && !Runnable(s.jobs[id].work) && t == SetFuture(s, id, Done)
  }

  /** `Future.cancel` succeeds on a waiting or already cancelled future; the status is set after it. */
  predicate Drop(s: State, t: State, id: Id) {
    id in s.jobs && (s.jobs[id].future.Queued? || s.jobs[id].future.Dropped?) && t == SetFuture(s, id, Dropped)
  }

  predicate MarkCancelled(s: State, t: State, id: Id) {
    id in s.jobs && s.jobs[id].future.Dropped? && t == SetWork(s, id, s.jobs[id].work.(status := Cancelled))
  }

  ghost predicate JobStep(s: State, t: State, id: Id, p: Sleeping) {
    || Enqueue(s, t, id) || Take(s, t, id) || Tries(s, t, id, p)
    || Release(s, t, id) || Drop(s, t, id) || MarkCancelled(s, t, id)
  }

  ghost predicate Next(s: State, t: State, max: nat, p: Sleeping) {
    || (exists id, n :: Submit(s, t, id, n))
    || Check(s, t, max) || Scan(s, t) || GiveUp(s, t)
    || (exists id :: JobStep(s, t, id, p))
  }

  ghost predicate IsRun(run: seq<State>, max: nat, p: Sleeping) {
    && run != [] && run[0] == State(map[], [], Idle)
    && forall i :: 0 < i < |run| ==> Next(run[i - 1], run[i], max, p)
  }

  // ---------- The invariant ----------

  ghost predicate EntryInv(e: Entry, p: Sleeping) {
    && Accounted(e.work, p.backoff)
    && match e.future
       case Unset => e.work.status.Pending?
       case Queued => e.work.status.Pending?
       case Dropped => e.work.status.Pending? || e.work.status.Cancelled?
       case Taken => !e.work.status.Pending? && !e.work.status.Cancelled?
       case Done => !e.work.status.Pending? && !e.work.status.Cancelled? && !Runnable(e.work)
  }

  /** A terminal job stays as it is. */
  ghost predicate Settled(before: Jobs, after: Jobs) {
    forall id :: id in before ==>
        id in after && (Terminal(before[id].work.status) ==> after[id].work == before[id].work)
  }

  predicate ScanInv(s: State, max: nat) {
    s.lock.Scanning? ==> |s.tracked| > max && s.lock.next <= |s.tracked|
  }

  ghost predicate Inv(s: State, max: nat, p: Sleeping) {
    && (forall id :: id in s.jobs ==> EntryInv(s.jobs[id], p))
    && (forall i :: 0 <= i < |s.tracked| ==> s.tracked[i] in s.jobs)
    && ScanInv(s, max)
  }

  lemma SettledTrans(a: Jobs, b: Jobs, c: Jobs)
    requires Settled(a, b) && Settled(b, c)
    ensures Settled(a, c)
  {
  }

  /** What a worker or a cancellation does to one job. */
  lemma JobStepEntry(s: State, t: State, id: Id, p: Sleeping)
    requires JobStep(s, t, id, p) && id in s.jobs && EntryInv(s.jobs[id], p)
    ensures t == s.(jobs := s.jobs[id := t.jobs[id]]) && id in t.jobs && EntryInv(t.jobs[id], p)
    ensures Terminal(s.jobs[id].work.status) ==> t.jobs[id].work == s.jobs[id].work
  {
    hide Attempted;
    if outcome :| TryOnce(s, t, id, outcome, p) {
      AttemptAccounted(s.jobs[id].work, outcome, p);
      AttemptStatus(s.jobs[id].work, outcome, p);
    }
  }

  lemma AttemptStatus(w: Work, outcome: Outcome, p: Sleeping)
    requires w.status.Running? || w.status.Retrying?
    ensures var status := Attempted(w, outcome, p).status; !status.Pending? && !status.Cancelled?
  {
  }

  lemma JobStepKeeps(s: State, t: State, id: Id, max: nat, p: Sleeping)
    requires Inv(s, max, p) && JobStep(s, t, id, p)
    ensures Inv(t, max, p) && Settled(s.jobs, t.jobs) && t.tracked == s.tracked && t.lock == s.lock
  {
    hide EntryInv;
    JobStepEntry(s, t, id, p);
    hide JobStep;
  }

  lemma SubmitKeeps(s: State, t: State, id: Id, n: int, max: nat, p: Sleeping)
    requires Inv(s, max, p) && Submit(s, t, id, n)
    ensures Inv(t, max, p) && Settled(s.jobs, t.jobs)
  {
  }

  lemma ScanKeeps(s: State, t: State, max: nat, p: Sleeping)
    requires Inv(s, max, p) && Scan(s, t)
    ensures Inv(t, max, p) && t.jobs == s.jobs
    ensures forall id :: id in s.tracked && id !in t.tracked ==> Terminal(s.jobs[id].work.status)
  {
    hide EntryInv;
    var i := s.lock.next;
    assert forall id :: id in s.tracked ==> id == s.tracked[i] || id in s.tracked[..i] + s.tracked[i + 1..];
  }

  /** Every step keeps the invariant and every terminal job, and stops tracking only terminal ones. */
  lemma NextKeeps(s: State, t: State, max: nat, p: Sleeping)
    requires Inv(s, max, p) && Next(s, t, max, p)
    ensures Inv(t, max, p) && Settled(s.jobs, t.jobs)
    ensures forall id :: id in s.tracked && id !in t.tracked ==> id in t.jobs && Terminal(t.jobs[id].work.status)
  {
    hide EntryInv, JobStep;
    if id, n :| Submit(s, t, id, n) { SubmitKeeps(s, t, id, n, max, p); }
    else if Scan(s, t) { ScanKeeps(s, t, max, p); }
    else if id :| JobStep(s, t, id, p) { JobStepKeeps(s, t, id, max, p); }
  }

  lemma {:induction false} RunInv(run: seq<State>, max: nat, p: Sleeping, i: nat)
    requires IsRun(run, max, p) && i < |run|
    ensures Inv(run[i], max, p)
    decreases i
  {
    hide Inv, Next;
    if i == 0 {
      EmptyInv(max, p);
    } else {
      RunInv(run, max, p, i - 1);
      NextKeeps(run[i - 1], run[i], max, p);
    }
  }

  lemma EmptyInv(max: nat, p: Sleeping)
    ensures Inv(State(map[], [], Idle), max, p)
  {
  }
}
