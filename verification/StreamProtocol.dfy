/**
 The consume loop as a protocol (app/streaming/kafka_consumer.py:79-103, 121-155): poll, handle, flush,
 then commit, with crashes and restarts anywhere in between.

 A state holds the broker's log and committed offset, the files on disk, and one consumer process.
 A crash loses the process: buffer, seen keys and open files.  A restart resumes at the committed
 offset or, while there is none, at the end of the log (`auto.offset.reset: latest`, line 61).  Process
 identifiers are assumed fresh, as run ids carry the process id and the time of the flush.
 */
module StreamProtocol {
  import opened Options
  import opened SeenKeys
  import opened ParquetStore
  import opened StreamProcessor

  /** A log entry: an error, an empty message, or a message the processor handles. */
  datatype Message = Errored | Empty | Body(text: string)

  /** Where the loop stands: polling, handling a batch, flushed but not committed, or on its way out. */
  datatype Phase = Polling | Handling | Flushed | Stopping

  datatype Proc = Proc(id: nat, sequence: nat, events: seq<Event>, buffer: seq<Event>, pending: seq<nat>,
    start: nat, position: nat, phase: Phase)

  datatype Disk = Disk(writers: Files, published: Files)

  /**
   `handled` records every message handled with its verdict; `base` is where the current unbroken line of
   consumption began.
   */
  datatype State = State(log: seq<Message>, committed: Option<nat>, disk: Disk, proc: Proc,
    handled: set<(nat, Verdict)>, base: nat)

  // ---------- Steps ----------

  /** The offsets of `[from, to)` whose messages are handled. */
  function Bodies(log: seq<Message>, from: nat, to: nat): (r: seq<nat>)
    requires from <= to <= |log|
    ensures forall o :: o in r <==> from <= o < to && log[o].Body?
  {
    if from == to then [] else Bodies(log, from, to - 1) + if log[to - 1].Body? then [to - 1] else []
  }

  function ResumeAt(log: seq<Message>, committed: Option<nat>): nat {
    match committed case Some(c) => c case None => |log|
  }

  function NewProc(id: nat, at: nat): Proc {
    Proc(id, 0, [], [], [], at, at, Polling)
  }

  predicate Produce(s: State, t: State, message: Message) {
    t == s.(log := s.log + [message])
  }

  /** The process dies, with whatever a flush under way had published, and a new one starts. */
  predicate Restart(s: State, t: State) {
    && t.proc == NewProc(s.proc.id + 1, ResumeAt(s.log, s.committed))
    && t == s.(proc := t.proc, disk := s.disk.(writers := map[]),
       base := if s.committed.None? then t.proc.position else s.base)
  }

  predicate Poll(s: State, t: State, count: nat) {
    && s.proc.phase == Polling && s.proc.position + count <= |s.log|
    && var to := s.proc.position + count;
       var pending := Bodies(s.log, s.proc.position, to);
       t == s.(proc := s.proc.(position := to, pending := pending,
           phase := if pending == [] then Polling else Handling))
  }

  /** `Processor.Handle` on the next polled message. */
  predicate HandleNext(s: State, t: State, maxKeys: nat, verdict: Verdict) {
    && s.proc.phase == Handling && s.proc.pending != []
    && var events := if verdict.Accepted? then s.proc.events + [verdict.event] else s.proc.events;
       var kept := verdict.Accepted? && !Flagged(s.proc.events, maxKeys, verdict.event);
       var buffer := if kept then s.proc.buffer + [verdict.event] else s.proc.buffer;
       t == s.(handled := s.handled + {(s.proc.pending[0], verdict)},
               proc := s.proc.(events := events, buffer := buffer, pending := s.proc.pending[1..]))
  }

  function NextRun(p: Proc): RunId {
    RunId(p.id, p.sequence + 1)
  }

  predicate MayFlush(p: Proc) {
    (p.phase == Handling && p.pending == []) || p.phase == Stopping
  }

  /** `Processor.Flush` succeeds; an empty buffer is not written at all. */
  ghost predicate FlushSucceeds(s: State, t: State) {
    && MayFlush(s.proc)
    && var phase := if s.proc.phase == Stopping then Stopping else Flushed;
       if s.proc.buffer == [] then t == s.(proc := s.proc.(phase := phase))
       else
         && t == s.(disk := t.disk, proc := s.proc.(buffer := [], sequence := s.proc.sequence + 1, phase := phase))
         && t.disk.writers == map[]
         && PublishedAll(s.disk.published, FileAll(s.disk.writers, s.proc.buffer, NextRun(s.proc)), t.disk.published)
  }

  /** The loop is left, at its end or by an exception, with whatever part of the batch was not handled yet. */
  predicate Leave(s: State, t: State) {
    t == s.(proc := s.proc.(phase := Stopping))
  }

  /** `Processor.Flush` raises: the write failed part way, or some files were published and others were not. */
  ghost predicate FlushFails(s: State, t: State) {
    && MayFlush(s.proc) && s.proc.buffer != []
    && t == s.(disk := t.disk, proc := s.proc.(sequence := s.proc.sequence + 1, phase := Stopping))
    && (|| (t.disk.published == s.disk.published && OnlyRun(s.disk.writers, t.disk.writers, NextRun(s.proc)))
        || PublishedPart(s.disk.published, FileAll(s.disk.writers, s.proc.buffer, NextRun(s.proc)), t.disk.writers,
           t.disk.published))
  }

  predicate Commit(s: State, t: State, succeeds: bool) {
    && s.proc.phase == Flushed
    && t == s.(committed := if succeeds then Some(s.proc.position) else s.committed, proc := s.proc.(phase := Polling))
  }

  ghost predicate Next(s: State, t: State, maxKeys: nat) {
    || (exists m :: Produce(s, t, m))
    || Restart(s, t)
    || (exists n :: Poll(s, t, n))
    || (exists v :: HandleNext(s, t, maxKeys, v))
    || FlushSucceeds(s, t)
    || FlushFails(s, t)
    || (exists b :: Commit(s, t, b))
    || Leave(s, t)
  }

  /** A first process over any log, committed offset and files of earlier processes. */
  ghost predicate Init(s: State) {
    && (s.committed.Some? ==> s.committed.value <= |s.log|)
    && s.proc == NewProc(s.proc.id, ResumeAt(s.log, s.committed)) && s.base == s.proc.position
    && s.disk.writers == map[] && s.handled == {}
    && forall path :: path in s.disk.published ==> path.run.process < s.proc.id
  }

  ghost predicate IsRun(run: seq<State>, maxKeys: nat) {
    run != [] && Init(run[0]) && forall i :: 0 < i < |run| ==> Next(run[i - 1], run[i], maxKeys)
  }

  // ---------- What is promised ----------

  /** A record stands for an event: it has its deduplication key, or is the event itself when it has none. */
  predicate StandsFor(record: Event, event: Event) {
    if event.key.Some? then record.key == event.key else record == event
  }

  ghost predicate Published(files: Files, event: Event) {
    exists path, i :: path in files && 0 <= i < |files[path]| && StandsFor(files[path][i], event)
  }

  /** The message at `o` was empty or an error, was rejected, or has its record in a published file. */
  ghost predicate Settled(s: State, o: nat) {
    || (o < |s.log| && !s.log[o].Body?)
    || exists v :: (o, v) in s.handled && (v.Accepted? ==> Published(s.disk.published, v.event))
  }

  ghost predicate SettledFrom(s: State, from: nat) {
    s.committed.Some? ==> forall o :: from <= o < s.committed.value ==> Settled(s, o)
  }

  // ---------- The invariant ----------

  /** The event is on disk or in the buffer. */
  ghost predicate Safe(published: Files, buffer: seq<Event>, event: Event) {
    Published(published, event) || exists i :: 0 <= i < |buffer| && StandsFor(buffer[i], event)
  }

  /** The message at `o` was handled, and what it yielded is safe. */
  ghost predicate Done(s: State, o: nat) {
    || (o < |s.log| && !s.log[o].Body?)
    || exists v :: (o, v) in s.handled && (v.Accepted? ==> Safe(s.disk.published, s.proc.buffer, v.event))
  }

  ghost predicate Inv(s: State) {
    var p := s.proc;
    && s.base <= p.start <= p.position <= |s.log|
    && (s.committed.Some? ==> s.base <= s.committed.value <= p.position && p.start <= s.committed.value)
    && (s.committed.None? ==> s.base == p.start)
    && (forall o :: o in p.pending ==> p.start <= o < p.position)
    && (p.phase == Polling || p.phase == Flushed ==> p.pending == [])
    && (p.phase == Polling || p.phase == Flushed ==> p.buffer == [])
    // what the current process polled is pending or done, and what it saw is safe
    && (forall o :: p.start <= o < p.position && o !in p.pending ==> Done(s, o))
    && (forall e :: e in p.events ==> Safe(s.disk.published, p.buffer, e))
    && SettledFrom(s, s.base)
    // run ids are fresh and open files are not published
    && RunsUpTo(s.disk.writers, p.id, p.sequence) && RunsUpTo(s.disk.published, p.id, p.sequence)
    && s.disk.writers.Keys !! s.disk.published.Keys
    && (forall path :: path in s.disk.writers || path in s.disk.published ==> path.run.process <= p.id)
  }

  // ---------- Steps keep the invariant ----------

  lemma PublishedExtends(before: Files, after: Files, event: Event)
    requires Extends(before, after) && Published(before, event)
    ensures Published(after, event)
  {
    var path, i :| path in before && 0 <= i < |before[path]| && StandsFor(before[path][i], event);
    assert path in after && StandsFor(after[path][i], event);
  }

  lemma SettledExtends(s: State, t: State, o: nat)
    requires Settled(s, o) && s.log <= t.log && s.handled <= t.handled
    requires Extends(s.disk.published, t.disk.published)
    ensures Settled(t, o)
  {
    if o < |s.log| && !s.log[o].Body? {
    } else {
      var v :| (o, v) in s.handled && (v.Accepted? ==> Published(s.disk.published, v.event));
      if v.Accepted? { PublishedExtends(s.disk.published, t.disk.published, v.event); }
      assert (o, v) in t.handled;
    }
  }

  /** Everything safe in `s` is safe in `t`. */
  ghost predicate KeepsSafe(s: State, t: State) {
    forall e: Event :: Safe(s.disk.published, s.proc.buffer, e) ==> Safe(t.disk.published, t.proc.buffer, e)
  }

  lemma DoneKept(s: State, t: State, o: nat)
    requires Done(s, o) && s.log <= t.log && s.handled <= t.handled && KeepsSafe(s, t)
    ensures Done(t, o)
  {
    if o < |s.log| && !s.log[o].Body? {
    } else {
      var v :| (o, v) in s.handled && (v.Accepted? ==> Safe(s.disk.published, s.proc.buffer, v.event));
      assert (o, v) in t.handled;
    }
  }

  lemma SettledFromKept(s: State, t: State)
    requires SettledFrom(s, s.base) && s.log <= t.log && s.handled <= t.handled
    requires t.committed == s.committed && Extends(s.disk.published, t.disk.published)
    ensures SettledFrom(t, s.base)
  {
    if t.committed.Some? {
      forall o | s.base <= o < t.committed.value ensures Settled(t, o) { SettledExtends(s, t, o); }
    }
  }

  lemma ProduceKeeps(s: State, t: State, message: Message)
    requires Inv(s) && Produce(s, t, message)
    ensures Inv(t)
  {
    assert s.log <= t.log;
    forall o | t.proc.start <= o < t.proc.position && o !in t.proc.pending ensures Done(t, o) { DoneKept(s, t, o); }
    SettledFromKept(s, t);
  }

  lemma RestartKeeps(s: State, t: State)
    requires Inv(s) && Restart(s, t)
    ensures Inv(t)
  {
    if t.committed.Some? { SettledFromKept(s, t); }
  }

  lemma PollKeeps(s: State, t: State, count: nat)
    requires Inv(s) && Poll(s, t, count)
    ensures Inv(t)
  {
    forall o | t.proc.start <= o < t.proc.position && o !in t.proc.pending ensures Done(t, o) {
      if o < s.proc.position { DoneKept(s, t, o); }
    }
    SettledFromKept(s, t);
  }

  lemma BufferGrowsSafe(published: Files, buffer: seq<Event>, added: seq<Event>, e: Event)
    requires Safe(published, buffer, e)
    ensures Safe(published, buffer + added, e)
  {
    if !Published(published, e) {
      var i :| 0 <= i < |buffer| && StandsFor(buffer[i], e);
      assert StandsFor((buffer + added)[i], e);
    }
  }

  lemma {:induction false} KeyOwner(events: seq<Event>, key: Key) returns (e: Event)
    requires key in KeysOf(events)
    ensures e in events && e.key == Some(key)
    decreases |events|
  {
    var before, last := events[..|events| - 1], events[|events| - 1];
    if last.key == Some(key) {
      e := last;
    } else {
      e := KeyOwner(before, key);
    }
  }

  /** An accepted event is safe after it was handled: it is buffered, or flagged because of one that is safe. */
  lemma HandledIsSafe(s: State, maxKeys: nat, e: Event, buffer: seq<Event>)
    requires forall x :: x in s.proc.events ==> Safe(s.disk.published, s.proc.buffer, x)
    requires buffer == if Flagged(s.proc.events, maxKeys, e) then s.proc.buffer else s.proc.buffer + [e]
    ensures Safe(s.disk.published, buffer, e)
  {
    if Flagged(s.proc.events, maxKeys, e) {
      RemembersExactly(KeysOf(s.proc.events), maxKeys, e.key.value);
      var owner := KeyOwner(s.proc.events, e.key.value);
      assert Safe(s.disk.published, s.proc.buffer, owner);
    } else {
      assert StandsFor(buffer[|buffer| - 1], e);
    }
  }

  lemma HandleKeeps(s: State, t: State, maxKeys: nat, verdict: Verdict)
    requires Inv(s) && HandleNext(s, t, maxKeys, verdict)
    ensures Inv(t)
  {
    var o := s.proc.pending[0];
    var published := s.disk.published;
    forall e: Event | Safe(published, s.proc.buffer, e) ensures Safe(published, t.proc.buffer, e) {
      if verdict.Accepted? { BufferGrowsSafe(published, s.proc.buffer, [verdict.event], e); }
    }
    if verdict.Accepted? { HandledIsSafe(s, maxKeys, verdict.event, t.proc.buffer); }
    assert (o, verdict) in t.handled;
    assert Done(t, o);
    assert forall q :: q in t.proc.pending ==> q in s.proc.pending;
    forall q | t.proc.start <= q < t.proc.position && q !in t.proc.pending ensures Done(t, q) {
      if q != o {
        assert q !in s.proc.pending;
        DoneKept(s, t, q);
      }
    }
    SettledFromKept(s, t);
  }

  lemma {:induction false} SelectHas(events: seq<Event>, i: nat)
    requires i < |events|
    ensures events[i] in Select(events, events[i].partition)
    decreases |events|
  {
    if i < |events| - 1 { SelectHas(events[..|events| - 1], i); }
  }

  /** Publishing the buffer makes every safe event published. */
  lemma FlushPublishes(before: Files, writers: Files, buffer: seq<Event>, run: RunId, after: Files, e: Event)
    requires PublishedAll(before, FileAll(writers, buffer, run), after) && Safe(before, buffer, e)
    ensures Published(after, e)
  {
    if Published(before, e) {
      PublishedExtends(before, after, e);
    } else {
      var i :| 0 <= i < |buffer| && StandsFor(buffer[i], e);
      var path := Path(buffer[i].partition, run);
      SelectHas(buffer, i);
      assert buffer[i].partition in Partitions(buffer);
      FileAllRows(writers, buffer, run, path);
      var files := FileAll(writers, buffer, run);
      assert path in files && after[path] == files[path];
      var rows := files[path];
      assert buffer[i] in Select(buffer, buffer[i].partition) && buffer[i] in rows;
      var j :| 0 <= j < |rows| && rows[j] == buffer[i];
      assert path in after && StandsFor(after[path][j], e);
    }
  }

  lemma FlushSucceedsKeeps(s: State, t: State)
    requires Inv(s) && FlushSucceeds(s, t)
    ensures Inv(t)
  {
    if s.proc.buffer == [] {
      forall o | t.proc.start <= o < t.proc.position && o !in t.proc.pending ensures Done(t, o) { DoneKept(s, t, o); }
      SettledFromKept(s, t);
    } else {
      var run := NextRun(s.proc);
      var files := FileAll(s.disk.writers, s.proc.buffer, run);
      forall e: Event | Safe(s.disk.published, s.proc.buffer, e) ensures Safe(t.disk.published, t.proc.buffer, e) {
        FlushPublishes(s.disk.published, s.disk.writers, s.proc.buffer, run, t.disk.published, e);
      }
      forall o | t.proc.start <= o < t.proc.position && o !in t.proc.pending ensures Done(t, o) { DoneKept(s, t, o); }
      RunIsFresh(s.disk.writers, s.proc.buffer, run, s.disk.published, s.proc.id, s.proc.sequence + 1);
      OldRuns(s, files, run);
      SettledFromKept(s, t);
    }
  }

  lemma OldRuns(s: State, files: Files, run: RunId)
    requires Inv(s) && run == NextRun(s.proc) && files == FileAll(s.disk.writers, s.proc.buffer, run)
    ensures forall path :: path in files ==> path.run.process <= s.proc.id
  {
    forall path: Path | path in files ensures path.run.process <= s.proc.id {
      FileAllRows(s.disk.writers, s.proc.buffer, run, path);
    }
  }

  lemma FlushFailsKeeps(s: State, t: State)
    requires Inv(s) && FlushFails(s, t)
    ensures Inv(t)
  {
    var run := NextRun(s.proc);
    assert Extends(s.disk.published, t.disk.published);
    forall e: Event | Safe(s.disk.published, s.proc.buffer, e) ensures Safe(t.disk.published, t.proc.buffer, e) {
      if Published(s.disk.published, e) { PublishedExtends(s.disk.published, t.disk.published, e); }
    }
    forall o | t.proc.start <= o < t.proc.position && o !in t.proc.pending ensures Done(t, o) { DoneKept(s, t, o); }
    RunIsFresh(s.disk.writers, s.proc.buffer, run, s.disk.published, s.proc.id, s.proc.sequence + 1);
    OldRuns(s, FileAll(s.disk.writers, s.proc.buffer, run), run);
    if t.disk.published == s.disk.published {
      if OnlyRun(s.disk.writers, t.disk.writers, run) {
        OnlyRunFresh(s.disk.writers, t.disk.writers, run, s.disk.published, s.proc.id, s.proc.sequence + 1);
      }
    }
    SettledFromKept(s, t);
  }

  lemma CommitKeeps(s: State, t: State, succeeds: bool)
    requires Inv(s) && Commit(s, t, succeeds)
    ensures Inv(t)
  {
    forall o | t.proc.start <= o < t.proc.position && o !in t.proc.pending ensures Done(t, o) { DoneKept(s, t, o); }
    if succeeds {
      forall o | t.base <= o < t.committed.value ensures Settled(t, o) {
        if o < s.proc.start {
          assert s.committed.Some? && Settled(s, o);
          SettledExtends(s, t, o);
        } else {
          assert Done(s, o);
        }
      }
    } else {
      SettledFromKept(s, t);
    }
  }

  lemma LeaveKeeps(s: State, t: State)
    requires Inv(s) && Leave(s, t)
    ensures Inv(t)
  {
    forall o | t.proc.start <= o < t.proc.position && o !in t.proc.pending ensures Done(t, o) { DoneKept(s, t, o); }
    SettledFromKept(s, t);
  }

  lemma NextKeeps(s: State, t: State, maxKeys: nat)
    requires Inv(s) && Next(s, t, maxKeys)
    ensures Inv(t) && Extends(s.disk.published, t.disk.published)
    ensures s.committed.Some? ==> t.committed.Some? && t.base == s.base
  {
    if m :| Produce(s, t, m) { ProduceKeeps(s, t, m); }
    else if Restart(s, t) { RestartKeeps(s, t); }
    else if n :| Poll(s, t, n) { PollKeeps(s, t, n); }
    else if v :| HandleNext(s, t, maxKeys, v) { HandleKeeps(s, t, maxKeys, v); }
    else if FlushSucceeds(s, t) { FlushSucceedsKeeps(s, t); }
    else if FlushFails(s, t) { FlushFailsKeeps(s, t); }
    else if Leave(s, t) { LeaveKeeps(s, t); }
    else {
      var b :| Commit(s, t, b);
      CommitKeeps(s, t, b);
    }
  }

  lemma InitInv(s: State)
    requires Init(s)
    ensures Inv(s)
  {
  }

  lemma {:induction false} RunInv(run: seq<State>, maxKeys: nat, i: nat)
    requires IsRun(run, maxKeys) && i < |run|
    ensures Inv(run[i]) && Extends(run[0].disk.published, run[i].disk.published)
    ensures run[0].committed.Some? ==> run[i].committed.Some? && run[i].base == run[0].base
    decreases i
  {
    hide Next, Inv;
    if i == 0 {
      InitInv(run[0]);
    } else {
      RunInv(run, maxKeys, i - 1);
      assert Next(run[i - 1], run[i], maxKeys);
      NextKeeps(run[i - 1], run[i], maxKeys);
    }
  }
}
