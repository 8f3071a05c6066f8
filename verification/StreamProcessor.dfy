/**
 The stream processor (app/streaming/processor.py:193-314, 342-346): every message ends rejected,
 flagged as a duplicate, buffered or written, and no flush replaces a file published before.

 What the parser, the transformation chain and the validator say of a message is its verdict.
 */
module StreamProcessor {
  import opened Collections
  import opened Options
  import opened SeenKeys
  import opened ParquetStore

  datatype Verdict = Unparseable | TransformError | Invalid | Accepted(event: Event)

  /** Every file of `before` is still there, unchanged. */
  ghost predicate Extends(before: Files, after: Files) {
    forall path :: path in before ==> path in after && after[path] == before[path]
  }

  /** The runs of `files` by this process are at most `flush`. */
  ghost predicate RunsUpTo(files: Files, process: nat, flush: nat) {
    forall path :: path in files && path.run.process == process ==> path.run.flush <= flush
  }

  datatype Stats = Stats(messages: nat, parsed: nat, valid: nat, rejected: nat, duplicates: nat, written: nat,
      flushes: nat)

  /** The counters balance: what was accepted is exactly what was flushed and then what is buffered, in order. */
  ghost predicate Balanced(stats: Stats, accepted: seq<Event>, flushed: seq<Event>, buffer: seq<Event>) {
    && accepted == flushed + buffer
    && stats.messages == stats.rejected + stats.duplicates + stats.written + |buffer|
    && stats.written == |flushed|
    && stats.valid == stats.messages - stats.rejected && stats.valid <= stats.parsed <= stats.messages
  }

  /**
   What goes wrong in one flush: the append of the write that fails, before its file is open or after, and what
   happens to each file.
   */
  datatype Trouble = Trouble(writeFailsAt: Option<nat>, isOpen: bool, faults: map<Path, Fault>) {
    predicate None() {
      writeFailsAt == Option.None && faults == map[]
    }
  }

  class Processor {
    const process: nat
    const dedup: Deduplicator
    const store: Store
    var buffer: seq<Event>
    var sequence: nat
    var stats: Stats
    ghost var flushed: seq<Event>

    /** Files of this process carry its earlier flush numbers, and open files are not published. */
    ghost predicate RunsAreFresh()
      reads this`sequence, store
    {
      && RunsUpTo(store.writers, process, sequence) && RunsUpTo(store.published, process, sequence)
      && store.writers.Keys !! store.published.Keys
    }

    ghost predicate Valid()
      reads this, dedup, dedup.tracker, store
    {
      && dedup.Valid() && store.Valid() && RunsAreFresh()
      && Balanced(stats, dedup.kept, flushed, buffer)
      && stats.duplicates == dedup.duplicates
    }

    constructor (process: nat, maxTrackedKeys: nat, batchSize: nat, published: Files)
      requires maxTrackedKeys >= 1 && batchSize >= 1
      requires forall path :: path in published ==> path.run.process != process
      ensures Valid() && fresh(dedup) && fresh(dedup.tracker) && fresh(store)
      ensures buffer == [] && stats == Stats(0, 0, 0, 0, 0, 0, 0) && dedup.events == [] && sequence == 0
      ensures store.writers == map[] && store.published == published
    {
      this.process := process;
      dedup := new Deduplicator(maxTrackedKeys);
      store := new Store(batchSize, published);
      buffer, flushed, sequence, stats := [], [], 0, Stats(0, 0, 0, 0, 0, 0, 0);
    }

    /** Process one message; the event when it was accepted. */
    method Handle(verdict: Verdict) returns (accepted: Option<Event>)
      requires Valid()
      modifies this`buffer, this`stats, dedup, dedup.tracker
      ensures Valid()
      ensures stats == old(stats).(
                messages := old(stats).messages + 1,
                parsed := old(stats).parsed + (if verdict.Unparseable? then 0 else 1),
                valid := old(stats).valid + (if verdict.Accepted? then 1 else 0),
                rejected := old(stats).rejected + (if verdict.Accepted? then 0 else 1),
                duplicates := old(stats).duplicates + (if verdict.Accepted? && accepted.None? then 1 else 0))
      ensures !verdict.Accepted? ==> accepted == None && dedup.events == old(dedup.events)
      ensures verdict.Accepted? ==> dedup.events == old(dedup.events) + [verdict.event]
      ensures verdict.Accepted? ==>
                accepted == if Flagged(old(dedup.events), dedup.tracker.maxSize, verdict.event) then None
                    else Some(verdict.event)
      ensures accepted.None? ==> buffer == old(buffer)
      ensures accepted.Some? ==> buffer == old(buffer) + [accepted.value]
    {
      hide RunsAreFresh, Flagged, Kept, KeysOf, Recency, LastN, Elements;
      stats := stats.(messages := stats.messages + 1);
      if verdict.Unparseable? {
        stats := stats.(rejected := stats.rejected + 1);
        return None;
      }
      stats := stats.(parsed := stats.parsed + 1);
      if verdict.TransformError? || verdict.Invalid? {
        stats := stats.(rejected := stats.rejected + 1);
        return None;
      }
      stats := stats.(valid := stats.valid + 1);
      accepted := Admit(verdict.event);
      if accepted.None? {
        stats := stats.(duplicates := stats.duplicates + 1);
      }
    }

    /** Buffer a valid event unless it is a duplicate. */
    method Admit(event: Event) returns (accepted: Option<Event>)
      requires dedup.Valid() && dedup.kept == flushed + buffer
      modifies this`buffer, dedup, dedup.tracker
      ensures dedup.Valid() && dedup.kept == flushed + buffer && dedup.events == old(dedup.events) + [event]
      ensures accepted == if Flagged(old(dedup.events), dedup.tracker.maxSize, event) then None else Some(event)
      ensures buffer == if accepted.Some? then old(buffer) + [event] else old(buffer)
      ensures dedup.duplicates == old(dedup.duplicates) + (if accepted.Some? then 0 else 1)
    {
      var duplicate := dedup.IsDuplicate(event);
      if duplicate { return None; }
      Regroup(flushed, buffer, [event]);
      buffer := buffer + [event];
      return Some(event);
    }

    /** The run id of the next flush. */
    function NextRun(): RunId
      reads this
    {
      RunId(process, sequence + 1)
    }

    /** Write the buffer under a fresh run id; false when the store raised. */
    method Flush(trouble: Trouble) returns (ok: bool)
      requires Valid()
      modifies this, store
      ensures Valid() && Extends(old(store.published), store.published)
      ensures ok ==> buffer == [] && flushed == old(flushed) + old(buffer)
      ensures !ok ==> buffer == old(buffer) && flushed == old(flushed) && stats == old(stats)
      ensures old(buffer) == [] ==> ok && stats == old(stats)
      ensures old(buffer) == [] ==> store.published == old(store.published) && store.writers == old(store.writers)
      ensures sequence == old(sequence) + if old(buffer) == [] then 0 else 1
      ensures ok && old(buffer) != [] ==>
                && store.writers == map[] && stats
                   == old(stats).(written := stats.written, flushes := old(stats.flushes) + 1)
                && PublishedAll(old(store.published), FileAll(old(store.writers), old(buffer), old(NextRun())),
                   store.published)
      ensures !ok ==>
                || (store.published == old(store.published)
                   && OnlyRun(old(store.writers), store.writers, old(NextRun())))
                || PublishedPart(old(store.published), FileAll(old(store.writers), old(buffer), old(NextRun())),
                    store.writers, store.published)
      ensures trouble.None() ==> ok
      ensures stats.messages == old(stats.messages)
    {
      hide FileAll, PublishedAll, PublishedPart, OnlyRun, RunsUpTo;
      if buffer == [] { return true; }
      var batch := buffer;
      buffer := [];
      sequence := sequence + 1;
      ok := Persist(batch, RunId(process, sequence), trouble);
      if ok {
        stats := stats.(written := stats.written + |batch|, flushes := stats.flushes + 1);
        flushed := flushed + batch;
        assert flushed + [] == flushed;
      } else {
        buffer := batch + buffer;
        assert batch + [] == batch;
      }
    }

    /** Hand a batch to the store and publish it; false when either raised. */
    method Persist(batch: seq<Event>, run: RunId, trouble: Trouble) returns (ok: bool)
      requires store.Valid() && run == RunId(process, sequence) && sequence >= 1
      requires RunsUpTo(store.writers, process, sequence - 1) && RunsUpTo(store.published, process, sequence - 1)
      requires store.writers.Keys !! store.published.Keys
      modifies store
      ensures store.Valid() && Extends(old(store.published), store.published)
      ensures RunsUpTo(store.writers, process, sequence) && RunsUpTo(store.published, process, sequence)
      ensures store.writers.Keys !! store.published.Keys
      ensures ok ==> store.writers == map[]
      ensures ok ==> PublishedAll(old(store.published), FileAll(old(store.writers), batch, run), store.published)
      ensures !ok ==>
                || (store.published == old(store.published) && OnlyRun(old(store.writers), store.writers, run))
                || PublishedPart(old(store.published), FileAll(old(store.writers), batch, run), store.writers,
                   store.published)
      ensures trouble.None() ==> ok
    {
      hide FileAll, Publishes, PublishedAll, PublishedPart, OnlyRun, RunsUpTo, LeftOpen, NoneFailed, Extends;
      RunIsFresh(store.writers, batch, run, store.published, process, sequence);
      var paths;
      ok, paths := store.Write(batch, run, trouble.writeFailsAt, trouble.isOpen);
      if !ok {
        OnlyRunFresh(old(store.writers), store.writers, run, store.published, process, sequence);
        return false;
      }
      ghost var files := store.writers;
      var broke;
      ok, broke := store.Flush(trouble.faults);
      PublishesFresh(old(store.published), files, trouble.faults, broke, store.writers, store.published, process,
          sequence);
    }

    /** Handle a batch and flush it. */
    method ProcessBatch(verdicts: seq<Verdict>, trouble: Trouble) returns (ok: bool)
      requires Valid()
      modifies this, dedup, dedup.tracker, store
      ensures Valid() && Extends(old(store.published), store.published)
      ensures dedup.events == old(dedup.events) + EventsOf(verdicts)
      ensures stats.messages == old(stats.messages) + |verdicts|
      ensures ok ==> buffer == [] && flushed == dedup.kept
      ensures !ok ==> flushed == old(flushed) && flushed + buffer == dedup.kept
    {
      for i := 0 to |verdicts|
        invariant Valid() && store.published == old(store.published) && flushed == old(flushed)
        invariant dedup.events == old(dedup.events) + EventsOf(verdicts[..i])
        invariant stats.messages == old(stats.messages) + i
      {
        assert verdicts[..i + 1][..i] == verdicts[..i];
        var _ := Handle(verdicts[i]);
      }
      assert verdicts[..|verdicts|] == verdicts;
      ok := Flush(trouble);
    }

    /** Whether the buffer is full, or old enough by the clock. */
    predicate ShouldFlush(maxBatch: nat, due: bool)
      reads this`buffer
    {
      buffer != [] && (|buffer| >= maxBatch || due)
    }

    /**
     The loop over a source: `n` messages are taken, flushing whenever the buffer is full or old, and the
     buffer is drained on the way out.  A failed flush ends the loop, after one more attempt to drain.
     */
    method Run(verdicts: seq<Verdict>, stopAt: Option<nat>, maxBatch: nat, due: nat -> bool, trouble: nat -> Trouble)
      returns (ok: bool, n: nat)
      requires Valid() && |buffer| < maxBatch
      modifies this, dedup, dedup.tracker, store
      ensures Valid() && Extends(old(store.published), store.published)
      ensures n <= |verdicts| && dedup.events == old(dedup.events) + EventsOf(verdicts[..n])
      ensures stats.messages == old(stats.messages) + n && |buffer| <= maxBatch
      ensures ok ==> buffer == [] && flushed == dedup.kept && (n == |verdicts| || stopAt == Some(n))
      ensures stopAt.Some? && n > 0 ==> n <= stopAt.value
      // as many flushes as the rounds ask for, and one more when anything is left
      ensures ok ==>
                var p := ProgressOf(|old(buffer)|, old(dedup.events), dedup.tracker.maxSize, verdicts, n, maxBatch,
                  due);
                stats.flushes == old(stats.flushes) + p.flushes + if p.held > 0 then 1 else 0
      ensures !ok ==> exists i: nat :: i <= |verdicts| && !trouble(i).None()
    {
      hide EventsOf, ProgressOf, Round, Extends, RunsUpTo, RunsAreFresh, Balanced;
      hide Flagged, Kept, KeysOf, Recency, LastN;
      n, ok := 0, true;
      NoEvents();
      assert verdicts[..0] == [];
      ghost var held, events, maxKeys := |buffer|, dedup.events, dedup.tracker.maxSize;
      ghost var p := Progress(held, 0);
      NoProgress(held, events, maxKeys, verdicts, maxBatch, due);
      NothingGone(store.published);
      while n < |verdicts| && ok && stopAt != Some(n)
        invariant Valid() && Extends(old(store.published), store.published)
        invariant n <= |verdicts| && dedup.events == events + EventsOf(verdicts[..n])
        invariant stats.messages == old(stats.messages) + n
        invariant |buffer| <= maxBatch && (ok ==> |buffer| < maxBatch)
        invariant !ok ==> exists i: nat :: i <= |verdicts| && !trouble(i).None()
        invariant stopAt.Some? && n > 0 ==> n <= stopAt.value
        invariant p == ProgressOf(held, events, maxKeys, verdicts, n, maxBatch, due)
        invariant ok ==> |buffer| == p.held && stats.flushes == old(stats.flushes) + p.flushes
        decreases |verdicts| - n
      {
        ghost var before := store.published;
        NextEvents(verdicts, n);
        NextProgress(held, events, maxKeys, verdicts, n, maxBatch, due);
        RoundShift(p, old(stats.flushes), dedup.events, maxKeys, verdicts[n], maxBatch, due(n));
        p := Round(p, dedup.events, maxKeys, verdicts[n], maxBatch, due(n));
        ok := Take(verdicts[n], maxBatch, due(n), trouble(n));
        StillThere(old(store.published), before, store.published);
        n := n + 1;
      }
      // always drain
      ghost var before := store.published;
      var drained := Drain(trouble(|verdicts|));
      StillThere(old(store.published), before, store.published);
      ok := ok && drained;
    }

    /** One round of the loop. */
    method Take(verdict: Verdict, maxBatch: nat, due: bool, trouble: Trouble) returns (ok: bool)
      requires Valid() && |buffer| < maxBatch
      modifies this, dedup, dedup.tracker, store
      ensures Valid() && Extends(old(store.published), store.published)
      ensures dedup.events == old(dedup.events) + if verdict.Accepted? then [verdict.event] else []
      ensures stats.messages == old(stats.messages) + 1
      ensures |buffer| <= maxBatch && (ok ==> |buffer| < maxBatch) && (!ok ==> !trouble.None())
      ensures ok ==>
                Progress(|buffer|, stats.flushes) == Round(Progress(|old(buffer)|, old(stats.flushes)),
                  old(dedup.events), dedup.tracker.maxSize, verdict, maxBatch, due)
    {
      hide FileAll, PublishedAll, PublishedPart, OnlyRun, Flagged, Balanced, RunsUpTo;
      var _ := Handle(verdict);
      ok := true;
      if ShouldFlush(maxBatch, due) {
        ok := Flush(trouble);
      }
    }

    method Drain(trouble: Trouble) returns (ok: bool)
      requires Valid()
      modifies this, store
      ensures Valid() && Extends(old(store.published), store.published) && stats.messages == old(stats.messages)
      ensures ok ==> stats.flushes == old(stats.flushes) + if old(buffer) == [] then 0 else 1
      ensures |buffer| <= |old(buffer)| && (ok ==> buffer == [] && flushed == dedup.kept) && (!ok ==> !trouble.None())
    {
      hide FileAll, PublishedAll, PublishedPart, OnlyRun, Flagged, RunsUpTo;
      ok := Flush(trouble);
    }
  }

  // ---------- How often the buffer is flushed ----------

  datatype Progress = Progress(held: nat, flushes: nat)

  /** A round that goes well: the message may be buffered, and a buffer that is full, or old, is flushed. */
  function Round(p: Progress, events: seq<Event>, maxKeys: nat, verdict: Verdict, maxBatch: nat, due: bool): Progress {
    var held := p.held + if verdict.Accepted? && !Flagged(events, maxKeys, verdict.event) then 1 else 0;
    if held >= 1 && (held >= maxBatch || due) then Progress(0, p.flushes + 1) else Progress(held, p.flushes)
  }

  lemma RoundShift(p: Progress, base: nat, events: seq<Event>, maxKeys: nat, verdict: Verdict, maxBatch: nat, due: bool)
    ensures Round(Progress(p.held, base + p.flushes), events, maxKeys, verdict, maxBatch, due)
         == var q := Round(p, events, maxKeys, verdict, maxBatch, due); Progress(q.held, base + q.flushes)
  {
  }

  function ProgressOf(held: nat, events: seq<Event>, maxKeys: nat, verdicts: seq<Verdict>, n: nat, maxBatch: nat,
      due: nat -> bool): Progress
    requires n <= |verdicts|
  {
    if n == 0 then Progress(held, 0)
    else
      Round(ProgressOf(held, events, maxKeys, verdicts, n - 1, maxBatch, due), events + EventsOf(verdicts[..n - 1]),
        maxKeys, verdicts[n - 1], maxBatch, due(n - 1))
  }

  lemma NoProgress(held: nat, events: seq<Event>, maxKeys: nat, verdicts: seq<Verdict>, maxBatch: nat,
        due: nat -> bool)
    ensures ProgressOf(held, events, maxKeys, verdicts, 0, maxBatch, due) == Progress(held, 0)
  {
  }

  lemma NextProgress(held: nat, events: seq<Event>, maxKeys: nat, verdicts: seq<Verdict>, n: nat, maxBatch: nat,
        due: nat -> bool)
    requires n < |verdicts|
    ensures ProgressOf(held, events, maxKeys, verdicts, n + 1, maxBatch, due)
         == Round(ProgressOf(held, events, maxKeys, verdicts, n, maxBatch, due), events + EventsOf(verdicts[..n]),
              maxKeys, verdicts[n], maxBatch, due(n))
  {
  }

  lemma NothingGone(files: Files)
    ensures Extends(files, files)
  {
  }

  lemma StillThere(a: Files, b: Files, c: Files)
    requires Extends(a, b) && Extends(b, c)
    ensures Extends(a, c)
  {
  }

  lemma NoEvents()
    ensures EventsOf([]) == []
  {
  }

  lemma NextEvents(verdicts: seq<Verdict>, n: nat)
    requires n < |verdicts|
    ensures EventsOf(verdicts[..n + 1])
            == EventsOf(verdicts[..n]) + if verdicts[n].Accepted? then [verdicts[n].event] else []
  {
    assert verdicts[..n + 1][..n] == verdicts[..n];
  }

  lemma Regroup<T>(a: seq<T>, b: seq<T>, c: seq<T>)
    ensures a + b + c == a + (b + c)
  {
  }

  function EventsOf(verdicts: seq<Verdict>): seq<Event> {
    if verdicts == [] then []
    else
      var last := verdicts[|verdicts| - 1];
      EventsOf(verdicts[..|verdicts| - 1]) + if last.Accepted? then [last.event] else []
  }

  // ---------- Publishing under fresh run ids ----------

  /** Every file of `files` became visible and nothing else changed. */
  ghost predicate PublishedAll(before: Files, files: Files, after: Files) {
    after == before + files && before.Keys !! files.Keys
  }

  /** Some of `files` became visible, some may still be open, and nothing else changed. */
  ghost predicate PublishedPart(before: Files, files: Files, open: Files, after: Files) {
    && Extends(before, after) && PartOf(open, files) && open.Keys !! after.Keys
    && forall path :: path in after && path !in before ==> path in files && after[path] == files[path]
  }

  lemma RunIsFresh(open: Files, batch: seq<Event>, run: RunId, visible: Files, process: nat, sequence: nat)
    requires run == RunId(process, sequence) && sequence >= 1
    requires RunsUpTo(open, process, sequence - 1) && RunsUpTo(visible, process, sequence - 1)
    requires open.Keys !! visible.Keys
    ensures var files := FileAll(open, batch, run);
            RunsUpTo(files, process, sequence) && files.Keys !! visible.Keys
    ensures RunsUpTo(visible, process, sequence) && Extends(visible, visible)
  {
    var files := FileAll(open, batch, run);
    forall path: Path | path in files
      ensures path !in visible && (path.run.process == process ==> path.run.flush <= sequence)
    {
      FileAllRows(open, batch, run, path);
    }
  }

  lemma OnlyRunFresh(open: Files, after: Files, run: RunId, visible: Files, process: nat, sequence: nat)
    requires run == RunId(process, sequence) && sequence >= 1
    requires RunsUpTo(open, process, sequence - 1) && RunsUpTo(visible, process, sequence - 1)
    requires open.Keys !! visible.Keys && OnlyRun(open, after, run)
    ensures RunsUpTo(after, process, sequence) && after.Keys !! visible.Keys
  {
    forall path: Path | path in after
      ensures path !in visible && (path.run.process == process ==> path.run.flush <= sequence)
    {
      if path.run != run { assert path in open; }
    }
  }

  /** Publishing files none of which is visible yet replaces nothing. */
  lemma PublishesFresh(
      before: Files, files: Files, faults: map<Path, Fault>, broke: bool, open: Files, after: Files, process: nat,
      sequence: nat)
    requires files.Keys !! before.Keys && LeftOpen(files, faults, broke, open)
    requires Publishes(before, files, files.Keys - open.Keys, faults, after)
    requires RunsUpTo(files, process, sequence) && RunsUpTo(before, process, sequence)
    ensures PublishedPart(before, files, open, after) && Extends(before, after)
    ensures RunsUpTo(after, process, sequence) && RunsUpTo(open, process, sequence) && open.Keys !! after.Keys
    ensures NoneFailed(before, files.Keys, faults) ==> open == map[] && PublishedAll(before, files, after)
    ensures faults == map[] ==> NoneFailed(before, files.Keys, faults)
  {
    forall path: Path
      ensures path in before ==> path in after && after[path] == before[path]
      ensures path in after && path !in before ==> path in files && path !in open && after[path] == files[path]
      ensures path in files && path !in open && !Failed(before, faults, path) ==>
              path in after && after[path] == files[path]
    {
      PublishedWhere(before, files, files.Keys - open.Keys, faults, after, path);
    }
    hide Publishes, RunsUpTo;
    if NoneFailed(before, files.Keys, faults) {
      assert open == map[] by { hide PublishedPart; }
      forall path: Path ensures path in after <==> path in before + files {
      }
    }
  }

  lemma PublishedWhere(
      before: Files, files: Files, paths: set<Path>, faults: map<Path, Fault>, after: Files, path: Path)
    requires Publishes(before, files, paths, faults, after)
    ensures Lookup(after, path) == if path in paths && path in files
                                   then Outcome(Lookup(before, path), files[path], Lookup(faults, path))
                                   else Lookup(before, path)
  {
  }
}
