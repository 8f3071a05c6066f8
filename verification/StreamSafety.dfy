/**
 What the consume loop keeps over whole runs (app/streaming/kafka_consumer.py:57-66, 79-154): nothing below
 the committed offset is lost, and exactly when a group can lose a message all the same.
 */
module StreamSafety {
  import opened Options
  import opened StreamProcessor
  import opened StreamProtocol

  /**
   In every run, whatever fails and whenever the process crashes, every message between the start of
   the unbroken line of consumption and the committed offset was empty or an error, was rejected, or
   has its record in a published file.
   */
  lemma NoCommittedLoss(run: seq<State>, maxKeys: nat, i: nat)
    requires IsRun(run, maxKeys) && i < |run|
    ensures SettledFrom(run[i], run[i].base)
  {
    RunInv(run, maxKeys, i);
  }

  /** In every run no step replaces or removes a published file. */
  lemma {:induction false} PublishedForGood(run: seq<State>, maxKeys: nat, i: nat, j: nat)
    requires IsRun(run, maxKeys) && i <= j < |run|
    ensures Extends(run[i].disk.published, run[j].disk.published)
    decreases j
  {
    hide Next, Inv;
    if i < j {
      PublishedForGood(run, maxKeys, i, j - 1);
      RunInv(run, maxKeys, j - 1);
      assert Next(run[j - 1], run[j], maxKeys);
      NextKeeps(run[j - 1], run[j], maxKeys);
    }
  }

  /**
   From this log and committed offset, no run ever loses a message between where its first process started and
   the committed offset.
   */
  ghost predicate LosesNothing(log: seq<Message>, committed: Option<nat>, maxKeys: nat) {
    forall run: seq<State> :: IsRun(run, maxKeys) && run[0].log == log && run[0].committed == committed
      ==> SettledFrom(run[|run| - 1], run[0].proc.start)
  }

  lemma Extend(run: seq<State>, t: State, maxKeys: nat) returns (longer: seq<State>)
    requires IsRun(run, maxKeys) && Next(run[|run| - 1], t, maxKeys)
    ensures IsRun(longer, maxKeys) && longer[0] == run[0] && longer[|longer| - 1] == t
  {
    hide Next, Init;
    longer := run + [t];
    forall i | 0 < i < |longer| ensures Next(longer[i - 1], longer[i], maxKeys) {
      if i < |run| { assert longer[i] == run[i] && longer[i - 1] == run[i - 1]; }
    }
  }

  /** One message more is produced, and polled. */
  lemma ProduceAndPoll(run: seq<State>, text: string, maxKeys: nat) returns (longer: seq<State>)
    requires IsRun(run, maxKeys)
    requires var s := run[|run| - 1]; s.proc.phase == Polling && s.proc.position == |s.log| && s.proc.pending == []
    ensures IsRun(longer, maxKeys) && longer[0] == run[0]
    ensures var s := run[|run| - 1];
            longer[|longer| - 1] == s.(log := s.log + [Body(text)],
                                       proc :=
                                         s.proc.(pending := [|s.log|], position := |s.log| + 1, phase := Handling))
  {
    var s := run[|run| - 1];
    hide IsRun;
    var produced := s.(log := s.log + [Body(text)]);
    assert Produce(s, produced, Body(text));
    longer := Extend(run, produced, maxKeys);
    var n := |s.log|;
    assert Bodies(produced.log, n, n) == [] && Bodies(produced.log, n, n + 1) == [n];
    var polled := produced.(proc := s.proc.(pending := [n], position := n + 1, phase := Handling));
    assert Poll(produced, polled, 1);
    longer := Extend(longer, polled, maxKeys);
  }

  /**
   Without a committed offset there is a losing run from any log: a first message is polled, the process
   dies before any commit, and the next one resumes past it and commits.
   */
  lemma LosingRun(log: seq<Message>, maxKeys: nat) returns (run: seq<State>)
    ensures IsRun(run, maxKeys) && run[0].log == log && run[0].committed == None
    ensures !SettledFrom(run[|run| - 1], run[0].proc.start)
  {
    var n, disk := |log|, Disk(map[], map[]);
    var start := State(log, None, disk, NewProc(0, n), {}, n);
    run := [start];
    assert IsRun(run, maxKeys);
    run := ProduceAndPoll(run, "a", maxKeys);
    hide IsRun;
    var one := run[|run| - 1];
    var restarted := one.(proc := NewProc(1, n + 1), base := n + 1);
    assert Restart(one, restarted);
    run := Extend(run, restarted, maxKeys);
    run := ProduceAndPoll(run, "b", maxKeys);
    var two := run[|run| - 1];
    var handled := two.(handled := {(n + 1, Unparseable)}, proc := two.proc.(pending := []));
    assert two.proc.pending[1..] == [];
    assert HandleNext(two, handled, maxKeys, Unparseable);
    run := Extend(run, handled, maxKeys);
    var flushed := handled.(proc := handled.proc.(phase := Flushed));
    assert FlushSucceeds(handled, flushed);
    run := Extend(run, flushed, maxKeys);
    var done := flushed.(committed := Some(n + 2), proc := flushed.proc.(phase := Polling));
    assert Commit(flushed, done, true);
    run := Extend(run, done, maxKeys);
    assert !Settled(done, n);
  }

  /**
   A group loses nothing whatever happens exactly when it starts with a committed offset: without
   one, a restart before the first commit resumes at the end of the log and skips what was polled.
   */
  lemma LosslessIffCommitted(log: seq<Message>, committed: Option<nat>, maxKeys: nat)
    requires committed.Some? ==> committed.value <= |log|
    ensures LosesNothing(log, committed, maxKeys) <==> committed.Some?
  {
    if committed.Some? {
      forall run: seq<State> | IsRun(run, maxKeys) && run[0].log == log && run[0].committed == committed
        ensures SettledFrom(run[|run| - 1], run[0].proc.start)
      {
        RunInv(run, maxKeys, |run| - 1);
      }
    } else {
      var run := LosingRun(log, maxKeys);
      assert run[0].log == log && run[0].committed == committed;
    }
  }
}
