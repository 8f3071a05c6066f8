/**
 The consumer loop (app/streaming/kafka_consumer.py:79-103, 121-155) over the real stream processor:
 poll a batch, handle it, flush, and only then commit.

 Every call is shown to be a sequence of steps of `StreamProtocol`, so what that protocol keeps over
 all runs holds of this loop.  One partition is modelled; messages arrive between the rounds of the loop.
 */
module KafkaConsumer {
  import opened Options
  import opened SeenKeys
  import opened ParquetStore
  import opened StreamProcessor
  import opened StreamProtocol

  /** `trace` leads from `from` to `to` by steps of the protocol. */
  ghost predicate Leads(trace: seq<State>, maxKeys: nat, from: State, to: State) {
    && trace != [] && trace[0] == from && trace[|trace| - 1] == to
    && forall i :: 0 < i < |trace| ==> Next(trace[i - 1], trace[i], maxKeys)
  }

  lemma OneMore(trace: seq<State>, maxKeys: nat, from: State, to: State, next: State)
    requires Leads(trace, maxKeys, from, to) && Next(to, next, maxKeys)
    ensures Leads(trace + [next], maxKeys, from, next)
  {
    hide Next;
    var longer := trace + [next];
    forall i | 0 < i < |longer| ensures Next(longer[i - 1], longer[i], maxKeys) {
      if i < |trace| { assert longer[i] == trace[i] && longer[i - 1] == trace[i - 1]; }
    }
  }

  predicate AllBodies(log: seq<Message>, pending: seq<nat>) {
    forall i :: 0 <= i < |pending| ==> pending[i] < |log| && log[pending[i]].Body?
  }

  /** The texts at some offsets. */
  function Texts(log: seq<Message>, pending: seq<nat>): seq<string>
    requires AllBodies(log, pending)
  {
    if pending == [] then [] else Texts(log, pending[..|pending| - 1]) + [log[pending[|pending| - 1]].text]
  }

  /** A processor that has done nothing yet, over files of earlier processes. */
  ghost predicate Fresh(p: Processor)
    reads p, p.dedup, p.store
  {
    && p.buffer == [] && p.sequence == 0 && p.dedup.events == [] && p.store.writers == map[]
    && forall path :: path in p.store.published ==> path.run.process < p.process
  }

  /**
   What one round meets: the messages that arrived before it, how many polls return before a timeout, the
   place in the batch where handling raises, what goes wrong in the flush, and whether the commit fails.
   */
  datatype Round = Round(arrives: seq<Message>, polls: nat, raisesAt: Option<nat>, trouble: Trouble, commitFails: bool)

  /** No message of `[from, to)` is one that a processor handles. */
  predicate NoBodies(log: seq<Message>, from: nat, to: nat) {
    forall o :: from <= o < to && o < |log| ==> !log[o].Body?
  }

  /** The first `n` polled messages with their verdicts. */
  ghost function Judgements(
      verdictOf: string -> Verdict, log: seq<Message>, pending: seq<nat>, n: nat): set<(nat, Verdict)>
    requires AllBodies(log, pending) && n <= |pending|
  {
    set i | 0 <= i < n :: (pending[i], verdictOf(log[pending[i]].text))
  }

  /** Exactly the messages of `[from, to)` that are not `left` were handled in between, each with its own verdict. */
  ghost predicate Judged(verdictOf: string -> Verdict, log: seq<Message>, before: set<(nat, Verdict)>,
        after: set<(nat, Verdict)>, from: nat, to: nat, left: seq<nat>)
  {
    forall o: nat, v :: (o, v) in after <==> (o, v) in before || JudgedAt(verdictOf, log, from, to, left, o, v)
  }

  predicate JudgedAt(
      verdictOf: string -> Verdict, log: seq<Message>, from: nat, to: nat, left: seq<nat>, o: nat, v: Verdict)
  {
    from <= o < to && o < |log| && log[o].Body? && o !in left && v == verdictOf(log[o].text)
  }

  /** Where a round ended, and whether it had messages, flushed them and tried to commit. */
  datatype Ended = Ended(position: nat, counted: bool)

  /** The committed offset after some rounds: that of the last one that was counted and whose commit did not fail. */
  function Acknowledged(committed: Option<nat>, rounds: seq<Round>, ends: seq<Ended>): Option<nat>
    requires |ends| <= |rounds|
  {
    if ends == [] then committed
    else
      var last := |ends| - 1;
      if ends[last].counted && !rounds[last].commitFails then Some(ends[last].position)
      else Acknowledged(committed, rounds, ends[..last])
  }

  /**
   Resuming at the committed offset, or where consumption began while there is none newer, misses no message polled
   since.
   */
  predicate Resumes(before: Option<nat>, start: nat, committed: Option<nat>, log: seq<Message>, position: nat) {
    || (committed == before && NoBodies(log, start, position))
    || (committed.Some? && start <= committed.value <= position && NoBodies(log, committed.value, position))
  }

  class KafkaLogConsumer {
    const processor: Processor
    const maxBatch: nat
    var log: seq<Message>
    var position: nat
    var committed: Option<nat>
    ghost var start: nat
    ghost var base: nat
    ghost var handled: set<(nat, Verdict)>

    ghost predicate Valid()
      reads this, processor, processor.dedup, processor.dedup.tracker, processor.store
    {
      processor.Valid() && maxBatch >= 1 && position <= |log|
    }

    /** The protocol state of this consumer. */
    ghost function View(phase: Phase, pending: seq<nat>): State
      reads this, processor, processor.dedup, processor.store
    {
      State(log, committed, Disk(processor.store.writers, processor.store.published),
        Proc(processor.process, processor.sequence, processor.dedup.events, processor.buffer, pending, start,
            position, phase),
        handled, base)
    }

    ghost function MaxKeys(): nat
      reads this
    {
      processor.dedup.tracker.maxSize
    }

    /** A new process resumes at the committed offset, or at the end of the log while there is none. */
    constructor (processor: Processor, maxBatch: nat, log: seq<Message>, committed: Option<nat>)
      requires processor.Valid() && maxBatch >= 1 && (committed.Some? ==> committed.value <= |log|)
      ensures Valid() && this.processor == processor && this.log == log && this.committed == committed
      ensures position == ResumeAt(log, committed) && start == position && base == position && handled == {}
      ensures Fresh(processor) ==> Init(View(Polling, []))
    {
      this.processor, this.maxBatch, this.log, this.committed := processor, maxBatch, log, committed;
      position, start, base, handled :=
        ResumeAt(log, committed), ResumeAt(log, committed), ResumeAt(log, committed), {};
    }

    /**
     Poll until the batch is full or `polls` messages came before a timeout; errors and empty messages are
     skipped.
     */
    method PollBatch(polls: nat) returns (messages: seq<string>, ghost pending: seq<nat>)
      requires Valid()
      modifies this`position
      ensures Valid() && old(position) <= position
      ensures pending == Bodies(log, old(position), position) && AllBodies(log, pending)
      ensures messages == Texts(log, pending) && |messages| == |pending| <= maxBatch
      ensures position - old(position) <= polls
      ensures position < |log| ==> |messages| == maxBatch || position == old(position) + polls
    {
      hide Texts;
      messages, pending := [], [];
      NoTexts(log);
      var budget := polls;
      while |messages| < maxBatch
        invariant old(position) <= position <= |log| && position - old(position) == polls - budget
        invariant pending == Bodies(log, old(position), position) && AllBodies(log, pending)
        invariant messages == Texts(log, pending) && |messages| == |pending| <= maxBatch
        decreases |log| - position
      {
        if position == |log| || budget == 0 { break; }
        var message := log[position];
        position, budget := position + 1, budget - 1;
        if message.Errored? { continue; }
        if message.Empty? { continue; }
        NextText(log, pending, position - 1);
        messages := messages + [message.text];
        pending := pending + [position - 1];
      }
    }

    /** More messages reach the broker. */
    method Arrive(messages: seq<Message>) returns (ghost trace: seq<State>)
      requires Valid()
      modifies this`log
      ensures Valid() && log == old(log) + messages
      ensures Leads(trace, MaxKeys(), old(View(Polling, [])), View(Polling, []))
    {
      hide Leads, Next;
      ghost var from := View(Polling, []);
      trace := [from];
      Begins(from, MaxKeys());
      for i := 0 to |messages|
        invariant Valid() && log == old(log) + messages[..i] && Leads(trace, MaxKeys(), from, View(Polling, []))
      {
        ghost var s := View(Polling, []);
        log := log + [messages[i]];
        assert messages[..i + 1] == messages[..i] + [messages[i]];
        ghost var t := View(Polling, []);
        ProduceIsStep(s, t, MaxKeys(), messages[i]);
        OneMore(trace, MaxKeys(), from, s, t);
        trace := trace + [t];
      }
      assert messages[..|messages|] == messages;
    }

    /** Handle the polled messages in order; `raisesAt` is the one at which handling raises, if any. */
    method HandleBatch(
        messages: seq<string>, verdictOf: string -> Verdict, raisesAt: Option<nat>, ghost pending: seq<nat>)
      returns (ok: bool, ghost left: seq<nat>, ghost trace: seq<State>)
      requires Valid() && AllBodies(log, pending)
      requires messages == Texts(log, pending) && |messages| == |pending|
      modifies this`handled, processor`buffer, processor`stats, processor.dedup, processor.dedup.tracker
      ensures Valid() && trace != [] && Leads(trace, MaxKeys(), old(View(Handling, pending)), View(Handling, left))
      ensures if raisesAt.Some? && raisesAt.value < |messages| then !ok && left == pending[raisesAt.value..]
              else ok && left == []
      ensures handled == old(handled) + Judgements(verdictOf, log, pending, |pending| - |left|)
    {
      hide Texts, Leads, Next, Flagged, Balanced, RunsUpTo, Judgements, Kept, KeysOf, Recency, LastN;
      ghost var from := View(Handling, pending);
      NoJudgements(verdictOf, log, pending, handled);
      trace := [from];
      Begins(from, MaxKeys());
      assert pending[0..] == pending;
      for i := 0 to |messages|
        invariant Valid() && trace != [] && Leads(trace, MaxKeys(), from, View(Handling, pending[i..]))
        invariant raisesAt.Some? ==> i <= raisesAt.value
        invariant handled == old(handled) + Judgements(verdictOf, log, pending, i)
      {
        TextAt(log, pending, i);
        NextJudgement(verdictOf, log, pending, i, old(handled));
        if raisesAt == Some(i) { return false, pending[i..], trace; }
        var verdict := verdictOf(messages[i]);
        ghost var s := View(Handling, pending[i..]);
        var _ := processor.Handle(verdict);
        handled := handled + {(pending[i], verdict)};
        ghost var t := View(Handling, pending[i + 1..]);
        assert pending[i..][1..] == pending[i + 1..] && pending[i..][0] == pending[i];
        assert HandleNext(s, t, MaxKeys(), verdict);
        HandleIsStep(s, t, MaxKeys(), verdict);
        OneMore(trace, MaxKeys(), from, s, t);
        trace := trace + [t];
      }
      assert pending[|messages|..] == [];
      return true, [], trace;
    }

    /** Flush, as a step: after a batch, or on the way out. */
    method Flush(ghost phase: Phase, ghost left: seq<nat>, trouble: Trouble) returns (ok: bool)
      requires Valid() && ((phase.Handling? && left == []) || phase.Stopping?)
      modifies processor, processor.store
      ensures Valid()
      ensures Flushes(old(View(phase, left)), View(if ok && phase.Handling? then Flushed else Stopping, left), ok)
      ensures ok ==> processor.buffer == []
      ensures trouble.None() ==> ok
    {
      hide FileAll, PublishedAll, PublishedPart, OnlyRun;
      ok := processor.Flush(trouble);
    }

    /** Acknowledge the polled offsets; a failed commit is only logged. */
    method Commit(fails: bool)
      modifies this`committed
      ensures committed == if fails then old(committed) else Some(position)
    {
      if !fails { committed := Some(position); }
    }

    /** What arrived before the round, and the messages polled. */
    method PollRound(round: Round) returns (messages: seq<string>, ghost pending: seq<nat>, ghost trace: seq<State>)
      requires Valid()
      modifies this`log, this`position
      ensures Valid() && log == old(log) + round.arrives && old(position) <= position
      ensures pending == Bodies(log, old(position), position) && AllBodies(log, pending)
      ensures pending == [] <==> NoBodies(log, old(position), position)
      ensures messages == Texts(log, pending) && |messages| == |pending|
      ensures Leads(trace, MaxKeys(), old(View(Polling, [])),
                View(if pending == [] then Polling else Handling, pending))
    {
      hide Leads, Next, Texts, Bodies, AllBodies, NoBodies;
      ghost var from, keys := View(Polling, []), MaxKeys();
      trace := Arrive(round.arrives);
      ghost var grown := View(Polling, []);
      messages, pending := PollBatch(round.polls);
      BodiesAre(log, old(position), position);
      ghost var polled := View(if pending == [] then Polling else Handling, pending);
      PollIsStep(grown, polled, keys, position - old(position));
      OneMore(trace, keys, from, grown, polled);
      trace := trace + [polled];
    }

    /**
     One round of the loop.  The flush comes before the commit; when handling or the flush raises, the loop is
     left without a commit, and `left` is what was not handled.
     */
    method ConsumeBatch(verdictOf: string -> Verdict, round: Round)
      returns (ok: bool, counted: bool, ghost left: seq<nat>, ghost trace: seq<State>)
      requires Valid() && processor.buffer == []
      modifies this, processor, processor.dedup, processor.dedup.tracker, processor.store
      ensures Valid() && Leads(trace, MaxKeys(), old(View(Polling, [])), View(if ok then Polling else Stopping, left))
      ensures ok ==> processor.buffer == [] && left == []
      ensures log == old(log) + round.arrives && old(position) <= position
      ensures committed == if counted && !round.commitFails then Some(position) else old(committed)
      ensures ok ==> (counted <==> !NoBodies(log, old(position), position))
      ensures counted ==> ok
      ensures round.trouble.None() && round.raisesAt.None? ==> ok
      ensures Judged(verdictOf, log, old(handled), handled, old(position), position, left)
      ensures forall o :: o in left ==> old(position) <= o
    {
      hide Leads, Next, Texts, Bodies, AllBodies, Balanced, RunsUpTo, Judged, Judgements, NoBodies;
      hide Kept, KeysOf, Recency, LastN;
      ghost var from, keys := View(Polling, []), MaxKeys();
      ghost var pending;
      var messages;
      messages, pending, trace := PollRound(round);
      ghost var polled := View(if pending == [] then Polling else Handling, pending);
      JudgedBatch(verdictOf, log, handled, old(position), position, []);
      NoJudgements(verdictOf, log, pending, handled);
      if messages == [] { return true, false, [], trace; }
      ghost var steps;
      ok, left, steps := HandleBatch(messages, verdictOf, round.raisesAt, pending);
      ghost var ready := View(Handling, left);
      LeftInside(log, old(position), position, left);
      JudgedBatch(verdictOf, log, old(handled), old(position), position, left);
      trace := Joined(trace, steps, keys, from, polled, ready);
      if !ok {
        LeaveIsStep(ready, View(Stopping, left), keys);
        OneMore(trace, keys, from, ready, View(Stopping, left));
        return false, false, left, trace + [View(Stopping, left)];
      }
      ghost var rest;
      ok, rest := FlushAndCommit(round);
      trace := Joined(trace, rest, keys, from, ready, View(if ok then Polling else Stopping, []));
      counted := ok;
    }

    /** The flush after a batch, and the commit when it succeeded. */
    method FlushAndCommit(round: Round) returns (ok: bool, ghost trace: seq<State>)
      requires Valid()
      modifies this`committed, processor, processor.store
      ensures Valid() && Leads(trace, MaxKeys(), old(View(Handling, [])), View(if ok then Polling else Stopping, []))
      ensures ok ==> processor.buffer == [] && committed == if round.commitFails then old(committed) else Some(position)
      ensures !ok ==> committed == old(committed)
      ensures round.trouble.None() ==> ok
    {
      hide Leads, Next, Flushes, Balanced, RunsUpTo;
      ghost var ready, keys := View(Handling, []), MaxKeys();
      Begins(ready, keys);
      ok := Flush(Handling, [], round.trouble);
      ghost var flushed := View(if ok then Flushed else Stopping, []);
      FlushIsStep(ready, flushed, keys, ok);
      OneMore([ready], keys, ready, ready, flushed);
      trace := [ready] + [flushed];
      if !ok { return false, trace; }
      Commit(round.commitFails);
      ghost var done := View(Polling, []);
      CommitIsStep(flushed, done, keys, !round.commitFails);
      OneMore(trace, keys, ready, flushed, done);
      return true, trace + [done];
    }

    /** Leaving the loop, from its end or after an exception, flushes once more and commits nothing. */
    method Close(ghost phase: Phase, ghost left: seq<nat>, trouble: Trouble) returns (ok: bool, ghost trace: seq<State>)
      requires Valid()
      modifies processor, processor.store
      ensures Valid() && Leads(trace, MaxKeys(), old(View(phase, left)), View(Stopping, left))
    {
      hide Leads, Next, Flushes;
      ghost var from, keys, leaving := View(phase, left), MaxKeys(), View(Stopping, left);
      Begins(from, keys);
      LeaveIsStep(from, leaving, keys);
      OneMore([from], keys, from, from, leaving);
      ok := Flush(Stopping, left, trouble);
      ghost var closed := View(Stopping, left);
      FlushIsStep(leaving, closed, keys, ok);
      OneMore([from] + [leaving], keys, from, leaving, closed);
      trace := [from] + [leaving] + [closed];
    }

    /**
     The whole loop: rounds until one raises, enough batches were committed or the stop is asked for, and then
     the flush on the way out.  From any state that keeps the protocol's invariant, whatever the rounds meet,
     every message below the committed offset is settled and no published file is replaced or lost.

     `ends` holds where each round ended.  The committed offset is that of the last counted round whose commit
     did not fail, so that with no failure a restart misses and repeats nothing.
     */
    method Consume(verdictOf: string -> Verdict, rounds: seq<Round>, maxBatches: Option<nat>, last: Trouble)
      returns (ok: bool, ghost left: seq<nat>, ghost ends: seq<Ended>, ghost trace: seq<State>)
      requires Valid() && processor.buffer == []
      modifies this, processor, processor.dedup, processor.dedup.tracker, processor.store
      ensures Valid() && Leads(trace, MaxKeys(), old(View(Polling, [])), View(Stopping, left))
      ensures old(Inv(View(Polling, []))) ==>
        SettledFrom(View(Stopping, left), base) && Extends(old(processor.store.published), processor.store.published)
      ensures Records(old(committed), old(position), rounds, ends, committed, log, position, false)
      ensures Judged(verdictOf, log, old(handled), handled, old(position), position, left)
      ensures (forall i :: 0 <= i < |rounds| ==> Smooth(rounds[i])) ==>
        && Resumes(old(committed), old(position), committed, log, position)
        && (|ends| == |rounds| || maxBatches == Some(CountedIn(ends)))
    {
      hide Leads, Next, Flushes, Inv, SettledFrom, Resumes, NoBodies, CountedIn, Records, Judged;
      ghost var from, keys := View(Polling, []), MaxKeys();
      trace, left, ok, ends := [from], [], true, [];
      Begins(from, keys);
      var batches, i := 0, 0;
      NothingYet(committed, position, rounds, log);
      NoneJudged(verdictOf, log, handled, position);
      while i < |rounds| && ok && maxBatches != Some(batches)
        invariant Valid() && i == |ends| <= |rounds| && batches == CountedIn(ends) && keys == MaxKeys()
        invariant ok ==> processor.buffer == [] && left == []
        invariant old(position) <= position
        invariant Leads(trace, keys, from, View(if ok then Polling else Stopping, left))
        invariant Records(old(committed), old(position), rounds, ends, committed, log, position, ok)
        invariant Judged(verdictOf, log, old(handled), handled, old(position), position, left)
        invariant !ok ==> exists j :: 0 <= j < |rounds| && !Smooth(rounds[j])
        decreases |rounds| - i
      {
        ghost var middle, steps := View(Polling, []), [];
        ghost var at, known, offset, seen := position, log, committed, handled;
        var counted;
        ok, counted, left, steps := ConsumeBatch(verdictOf, rounds[i]);
        trace := Joined(trace, steps, keys, from, middle, View(if ok then Polling else Stopping, left));
        JudgedNext(verdictOf, known, rounds[i].arrives, old(handled), seen, handled, old(position), at, position, left);
        ghost var end := Ended(position, counted);
        RecordsNext(old(committed), old(position), rounds, ends, offset, known, at, end, committed, log, ok);
        CountedNext(ends, end);
        ends := ends + [end];
        if counted { batches := batches + 1; }
        i := i + 1;
      }
      RecordsEnd(old(committed), old(position), rounds, ends, committed, log, position, ok);
      ghost var middle, steps := View(if ok then Polling else Stopping, left), [];
      var closed;
      closed, steps := Close(if ok then Polling else Stopping, left, last);
      trace := Joined(trace, steps, keys, from, middle, View(Stopping, left));
      ok := ok && closed;
      if Inv(from) { LeadsKeeps(trace, keys, from, View(Stopping, left)); }
    }
  }

  /**
   What the ends of some rounds say of the consumer: its position is the last of them, its committed offset the
   last that was acknowledged, and each was counted exactly when its round polled messages to handle; of the
   last round, which may have been left early, only when `ok`.
   */
  predicate Records(before: Option<nat>, start: nat, rounds: seq<Round>, ends: seq<Ended>, committed: Option<nat>,
        log: seq<Message>, position: nat, ok: bool)
  {
    && |ends| <= |rounds| && committed == Acknowledged(before, rounds, ends)
    && start <= position == (if ends == [] then start else ends[|ends| - 1].position)
    && Tells(log, start, ends, if ok then |ends| else |ends| - 1)
    && (ok && (forall i :: 0 <= i < |ends| ==> Smooth(rounds[i])) ==> Resumes(before, start, committed, log, position))
  }

  /** Nothing goes wrong in a round. */
  predicate Smooth(round: Round) {
    round.trouble.None() && round.raisesAt.None? && !round.commitFails
  }

  /** A round was counted only when it polled messages to handle, and the first `done` ones whenever they did. */
  predicate Tells(log: seq<Message>, start: nat, ends: seq<Ended>, done: int) {
    forall i :: 0 <= i < |ends| ==> TellsAt(log, start, ends, done, i)
  }

  predicate TellsAt(log: seq<Message>, start: nat, ends: seq<Ended>, done: int, i: nat)
    requires i < |ends|
  {
    var from := if i == 0 then start else ends[i - 1].position;
    && from <= ends[i].position <= |log|
    && (ends[i].counted ==> !NoBodies(log, from, ends[i].position))
    && (!ends[i].counted && i < done ==> NoBodies(log, from, ends[i].position))
  }

  lemma AppendedBodies(log: seq<Message>, arrives: seq<Message>, from: nat, to: nat)
    requires to <= |log|
    ensures NoBodies(log + arrives, from, to) <==> NoBodies(log, from, to)
  {
    if o :| from <= o < to && log[o].Body? { assert (log + arrives)[o].Body?; }
  }

  lemma TellsNext(log: seq<Message>, start: nat, ends: seq<Ended>, arrives: seq<Message>, end: Ended, ok: bool)
    requires Tells(log, start, ends, |ends|)
    requires var from := if ends == [] then start else ends[|ends| - 1].position;
             && from <= end.position <= |log + arrives| && (end.counted ==> ok)
             && (ok ==> (end.counted <==> !NoBodies(log + arrives, from, end.position)))
    ensures Tells(log + arrives, start, ends + [end], if ok then |ends| + 1 else |ends|)
  {
    hide NoBodies;
    var longer, done := ends + [end], if ok then |ends| + 1 else |ends|;
    forall i | 0 <= i < |longer| ensures TellsAt(log + arrives, start, longer, done, i) {
      if i < |ends| {
        assert TellsAt(log, start, ends, |ends|, i);
        AppendedBodies(log, arrives, if i == 0 then start else ends[i - 1].position, ends[i].position);
      }
    }
  }

  lemma RecordsNext(before: Option<nat>, start: nat, rounds: seq<Round>, ends: seq<Ended>, committed: Option<nat>,
        log: seq<Message>, position: nat, end: Ended, now: Option<nat>, logNow: seq<Message>, ok: bool)
    requires Records(before, start, rounds, ends, committed, log, position, true) && |ends| < |rounds|
    requires position <= |log| && logNow == log + rounds[|ends|].arrives && position <= end.position <= |logNow|
    requires now == if end.counted && !rounds[|ends|].commitFails then Some(end.position) else committed
    requires (end.counted ==> ok) && (ok ==> (end.counted <==> !NoBodies(logNow, position, end.position)))
    ensures Records(before, start, rounds, ends + [end], now, logNow, end.position, ok)
  {
    hide Resumes, NoBodies, Tells, Acknowledged;
    TellsNext(log, start, ends, rounds[|ends|].arrives, end, ok);
    AcknowledgedNext(before, rounds, ends, end);
    if ok && forall i :: 0 <= i < |ends + [end]| ==> Smooth(rounds[i]) {
      ResumesNext(before, start, committed, log, position, rounds[|ends|].arrives, now, end.position, end.counted);
    }
  }

  lemma RecordsEnd(before: Option<nat>, start: nat, rounds: seq<Round>, ends: seq<Ended>, committed: Option<nat>,
        log: seq<Message>, position: nat, ok: bool)
    requires Records(before, start, rounds, ends, committed, log, position, ok)
    ensures Records(before, start, rounds, ends, committed, log, position, false)
    ensures ok && (forall i :: 0 <= i < |rounds| ==> Smooth(rounds[i])) ==>
      Resumes(before, start, committed, log, position)
  {
    hide Resumes, NoBodies;
    var done, less := if ok then |ends| else |ends| - 1, |ends| - 1;
    forall i | 0 <= i < |ends| ensures TellsAt(log, start, ends, less, i) {
      assert TellsAt(log, start, ends, done, i);
    }
  }

  function CountedIn(ends: seq<Ended>): nat {
    if ends == [] then 0 else CountedIn(ends[..|ends| - 1]) + if ends[|ends| - 1].counted then 1 else 0
  }

  lemma CountedNext(ends: seq<Ended>, end: Ended)
    ensures CountedIn(ends + [end]) == CountedIn(ends) + if end.counted then 1 else 0
  {
    assert (ends + [end])[..|ends|] == ends;
  }

  lemma NoneJudged(verdictOf: string -> Verdict, log: seq<Message>, handled: set<(nat, Verdict)>, position: nat)
    ensures Judged(verdictOf, log, handled, handled, position, position, [])
  {
  }

  lemma NothingYet(committed: Option<nat>, position: nat, rounds: seq<Round>, log: seq<Message>)
    ensures Acknowledged(committed, rounds, []) == committed && CountedIn([]) == 0
    ensures Records(committed, position, rounds, [], committed, log, position, true)
  {
  }

  lemma LeftInside(log: seq<Message>, from: nat, to: nat, left: seq<nat>)
    requires from <= to <= |log| && |left| <= |Bodies(log, from, to)|
    requires var pending := Bodies(log, from, to); left == pending[|pending| - |left|..]
    ensures forall o :: o in left ==> from <= o
  {
    var pending := Bodies(log, from, to);
    assert forall o :: o in left ==> o in pending;
  }

  lemma BodiesAre(log: seq<Message>, from: nat, to: nat)
    requires from <= to <= |log|
    ensures Bodies(log, from, to) == [] <==> NoBodies(log, from, to)
  {
    if Bodies(log, from, to) != [] { assert Bodies(log, from, to)[0] in Bodies(log, from, to); }
  }

  lemma TextAt(log: seq<Message>, pending: seq<nat>, i: nat)
    requires AllBodies(log, pending) && i < |pending|
    ensures |Texts(log, pending)| == |pending| && Texts(log, pending)[i] == log[pending[i]].text
    decreases |pending|
  {
    var before := pending[..|pending| - 1];
    if i < |before| {
      TextAt(log, before, i);
    } else if before != [] {
      TextAt(log, before, 0);
    }
  }

  lemma {:induction false} BodiesIncrease(log: seq<Message>, from: nat, to: nat)
    requires from <= to <= |log|
    ensures AllBodies(log, Bodies(log, from, to))
    ensures forall i, j :: 0 <= i < j < |Bodies(log, from, to)| ==> Bodies(log, from, to)[i] < Bodies(log, from, to)[j]
  {
    if from < to { BodiesIncrease(log, from, to - 1); }
  }

  lemma NextJudgement(
      verdictOf: string -> Verdict, log: seq<Message>, pending: seq<nat>, i: nat, before: set<(nat, Verdict)>)
    requires AllBodies(log, pending) && i < |pending|
    ensures before + Judgements(verdictOf, log, pending, i) + {(pending[i], verdictOf(log[pending[i]].text))}
         == before + Judgements(verdictOf, log, pending, i + 1)
  {
  }

  /** Two stretches of consumption, the first of them handled in full. */
  lemma JudgedNext(verdictOf: string -> Verdict, log: seq<Message>, arrives: seq<Message>, before: set<(nat, Verdict)>,
        middle: set<(nat, Verdict)>, after: set<(nat, Verdict)>, start: nat, at: nat, to: nat, left: seq<nat>)
    requires start <= at <= to && at <= |log| && forall o :: o in left ==> at <= o
    requires Judged(verdictOf, log, before, middle, start, at, [])
    requires Judged(verdictOf, log + arrives, middle, after, at, to, left)
    ensures Judged(verdictOf, log + arrives, before, after, start, to, left)
  {
    forall o: nat, v
      ensures JudgedAt(verdictOf, log + arrives, start, to, left, o, v) <==>
        JudgedAt(verdictOf, log, start, at, [], o, v) || JudgedAt(verdictOf, log + arrives, at, to, left, o, v)
    {
      if o < at { assert o < |log| ==> (log + arrives)[o] == log[o]; }
    }
    hide JudgedAt;
    forall o: nat, v
      ensures (o, v) in after <==> (o, v) in before || JudgedAt(verdictOf, log + arrives, start, to, left, o, v)
    {
      assert (o, v) in middle <==> (o, v) in before || JudgedAt(verdictOf, log, start, at, [], o, v);
    }
  }

  lemma NoJudgements(verdictOf: string -> Verdict, log: seq<Message>, pending: seq<nat>, before: set<(nat, Verdict)>)
    requires AllBodies(log, pending)
    ensures before + Judgements(verdictOf, log, pending, 0) == before
  {
  }

  /** One of the first `n` polled messages is not among the others. */
  lemma NotLeft(log: seq<Message>, from: nat, to: nat, n: nat, i: nat)
    requires from <= to <= |log| && i < n <= |Bodies(log, from, to)|
    ensures var pending := Bodies(log, from, to);
            from <= pending[i] < to && log[pending[i]].Body? && pending[i] !in pending[n..]
  {
    BodiesIncrease(log, from, to);
    hide Bodies;
    var pending := Bodies(log, from, to);
    assert pending[i] in pending;
  }

  /** A message to handle that is not among the others is one of the first `n`. */
  lemma PlaceOf(log: seq<Message>, from: nat, to: nat, n: nat, o: nat) returns (i: nat)
    requires from <= to <= |log| && n <= |Bodies(log, from, to)|
    requires from <= o < to && log[o].Body? && o !in Bodies(log, from, to)[n..]
    ensures i < n && Bodies(log, from, to)[i] == o
  {
    var pending := Bodies(log, from, to);
    assert o in pending;
    i :| i < |pending| && pending[i] == o;
  }

  /** Handling the polled messages up to those left judges exactly the others. */
  lemma JudgedBatch(verdictOf: string -> Verdict, log: seq<Message>, before: set<(nat, Verdict)>, from: nat, to: nat,
        left: seq<nat>)
    requires from <= to <= |log| && |left| <= |Bodies(log, from, to)|
    requires var pending := Bodies(log, from, to); left == pending[|pending| - |left|..]
    ensures AllBodies(log, Bodies(log, from, to))
    ensures var pending := Bodies(log, from, to);
            Judged(verdictOf, log, before, before + Judgements(verdictOf, log, pending, |pending| - |left|), from, to,
              left)
  {
    BodiesIncrease(log, from, to);
    var pending := Bodies(log, from, to);
    var n := |pending| - |left|;
    hide Bodies, AllBodies;
    forall o: nat, v | JudgedAt(verdictOf, log, from, to, left, o, v)
      ensures (o, v) in Judgements(verdictOf, log, pending, n)
    {
      var i := PlaceOf(log, from, to, n, o);
    }
    forall o: nat, v | (o, v) in Judgements(verdictOf, log, pending, n)
      ensures JudgedAt(verdictOf, log, from, to, left, o, v)
    {
      var i: nat :| i < n && (o, v) == (pending[i], verdictOf(log[pending[i]].text));
      NotLeft(log, from, to, n, i);
    }
  }

  lemma AcknowledgedNext(committed: Option<nat>, rounds: seq<Round>, ends: seq<Ended>, end: Ended)
    requires |ends| < |rounds|
    ensures Acknowledged(committed, rounds, ends + [end])
            == if end.counted && !rounds[|ends|].commitFails then Some(end.position)
               else Acknowledged(committed, rounds, ends)
  {
    assert (ends + [end])[..|ends|] == ends;
  }

  lemma ResumesNext(before: Option<nat>, start: nat, committed: Option<nat>, log: seq<Message>, position: nat,
        arrives: seq<Message>, now: Option<nat>, next: nat, counted: bool)
    requires Resumes(before, start, committed, log, position) && start <= position <= next && position <= |log|
    requires now == if counted then Some(next) else committed
    requires counted <==> !NoBodies(log + arrives, position, next)
    ensures Resumes(before, start, now, log + arrives, next)
  {
  }

  // ---------- Each call is a step ----------

  lemma NoTexts(log: seq<Message>)
    ensures Texts(log, []) == []
  {
  }

  lemma NextText(log: seq<Message>, pending: seq<nat>, o: nat)
    requires AllBodies(log, pending) && o < |log| && log[o].Body?
    ensures AllBodies(log, pending + [o]) && Texts(log, pending + [o]) == Texts(log, pending) + [log[o].text]
  {
    assert (pending + [o])[..|pending|] == pending;
  }

  lemma Begins(s: State, maxKeys: nat)
    ensures Leads([s], maxKeys, s, s)
  {
  }

  lemma HandleIsStep(s: State, t: State, maxKeys: nat, verdict: Verdict)
    requires HandleNext(s, t, maxKeys, verdict)
    ensures Next(s, t, maxKeys)
  {
  }

  lemma PollIsStep(s: State, t: State, maxKeys: nat, count: nat)
    requires Poll(s, t, count)
    ensures Next(s, t, maxKeys)
  {
  }

  lemma ProduceIsStep(s: State, t: State, maxKeys: nat, message: Message)
    requires Produce(s, t, message)
    ensures Next(s, t, maxKeys)
  {
  }

  lemma LeaveIsStep(s: State, t: State, maxKeys: nat)
    requires Leave(s, t)
    ensures Next(s, t, maxKeys)
  {
  }

  lemma CommitIsStep(s: State, t: State, maxKeys: nat, succeeds: bool)
    requires Commit(s, t, succeeds)
    ensures Next(s, t, maxKeys)
  {
  }

  /** What `Processor.Flush` promises, in terms of protocol states. */
  ghost predicate Flushes(s: State, t: State, ok: bool) {
    if ok then FlushSucceeds(s, t) else FlushFails(s, t)
  }

  lemma FlushIsStep(s: State, t: State, maxKeys: nat, ok: bool)
    requires Flushes(s, t, ok)
    ensures Next(s, t, maxKeys)
  {
    hide FlushSucceeds, FlushFails;
  }

  lemma Joined(a: seq<State>, b: seq<State>, maxKeys: nat, from: State, middle: State, to: State)
    returns (both: seq<State>)
    requires Leads(a, maxKeys, from, middle) && Leads(b, maxKeys, middle, to)
    ensures Leads(both, maxKeys, from, to)
  {
    hide Next;
    both := a + b[1..];
    forall i | 0 < i < |both| ensures Next(both[i - 1], both[i], maxKeys) {
      if i < |a| { assert both[i] == a[i] && both[i - 1] == a[i - 1]; }
      else {
        var j := i - |a| + 1;
        assert both[i] == b[j];
        assert both[i - 1] == b[j - 1];
      }
    }
  }

  /**
   Over any call whose steps lead from a state that keeps the protocol's invariant, it is kept and no published
   file is lost.
   */
  lemma {:induction false} LeadsKeeps(trace: seq<State>, maxKeys: nat, from: State, to: State)
    requires Leads(trace, maxKeys, from, to) && Inv(from)
    ensures Inv(to) && Extends(from.disk.published, to.disk.published) && SettledFrom(to, to.base)
    decreases |trace|
  {
    hide Inv, Next;
    if |trace| > 1 {
      var before := trace[..|trace| - 1];
      var middle := before[|before| - 1];
      assert Leads(before, maxKeys, from, middle) by {
        assert forall i :: 0 <= i < |before| ==> before[i] == trace[i];
      }
      LeadsKeeps(before, maxKeys, from, middle);
      assert Next(trace[|trace| - 2], trace[|trace| - 1], maxKeys);
      NextKeeps(middle, to, maxKeys);
    }
    InvSettles(to);
  }

  lemma InvSettles(s: State)
    requires Inv(s)
    ensures SettledFrom(s, s.base)
  {
  }
}
