/**
 One batch run (app/pipeline/orchestrator.py:202-472): the lazily interleaved stages take each line from
 parsing to storage before the next is read, so the run is one loop over the lines.

 What the parser, the transformations and the validator make of a line is its fate; the deduplicator
 is the real one.  The store is given all events that reach it, which is what it is given in a run
 that is not aborted.
 */
module BatchPipeline {
  import opened Options
  import opened SeenKeys
  import opened ParquetStore
  import opened PipelineResults

  datatype Fate = ParseFails(reason: Reason) | TransformFails | FailsValidation(reason: Reason) | Valid(event: Event)

  datatype Ending = Exhausted | Stopped | LimitReached | Aborted

  datatype RunOptions = RunOptions(limit: Option<int>, threshold: real, keepDuplicates: bool, dryRun: bool)

  // ---------- What the lines come to ----------

  function EventsOf(lines: seq<Fate>): seq<Event> {
    if lines == [] then []
    else EventsOf(lines[..|lines| - 1]) + if lines[|lines| - 1].Valid? then [lines[|lines| - 1].event] else []
  }

  function RejectionOf(fate: Fate): multiset<Reason> {
    match fate
    case ParseFails(reason) => multiset{reason}
    case TransformFails => multiset{TransformError}
    case FailsValidation(reason) => multiset{reason}
    case Valid(_) => multiset{}
  }

  function RejectionsOf(lines: seq<Fate>): multiset<Reason> {
    if lines == [] then multiset{} else RejectionsOf(lines[..|lines| - 1]) + RejectionOf(lines[|lines| - 1])
  }

  function ParsedOf(lines: seq<Fate>): nat {
    if lines == [] then 0 else ParsedOf(lines[..|lines| - 1]) + if lines[|lines| - 1].ParseFails? then 0 else 1
  }

  function Copies(n: nat): multiset<Reason> {
    multiset{}[Duplicate := n]
  }

  lemma Steps(lines: seq<Fate>, fate: Fate)
    ensures EventsOf(lines + [fate]) == if fate.Valid? then EventsOf(lines) + [fate.event] else EventsOf(lines)
    ensures RejectionsOf(lines + [fate]) == RejectionsOf(lines) + RejectionOf(fate)
    ensures ParsedOf(lines + [fate]) == ParsedOf(lines) + if fate.ParseFails? then 0 else 1
  {
    assert (lines + [fate])[..|lines|] == lines;
  }

  /** A line is given up for `reason`; a transformation that fails has a reason of its own. */
  predicate FailsFor(fate: Fate, reason: Reason) {
    || ((fate.ParseFails? || fate.FailsValidation?) && fate.reason == reason)
    || (fate.TransformFails? && reason == TransformError)
  }

  function HowMany(lines: seq<Fate>, p: Fate -> bool): nat {
    if lines == [] then 0 else HowMany(lines[..|lines| - 1], p) + if p(lines[|lines| - 1]) then 1 else 0
  }

  /** Each line is an event or one rejection, under the reason it fails for. */
  lemma {:induction false} EachLineCounts(lines: seq<Fate>, reason: Reason)
    ensures RejectionsOf(lines)[reason] == HowMany(lines, fate => FailsFor(fate, reason))
    ensures |lines| == |EventsOf(lines)| + |RejectionsOf(lines)|
    ensures ParsedOf(lines) == |lines| - HowMany(lines, (fate: Fate) => fate.ParseFails?)
    decreases |lines|
  {
    if lines != [] {
      var before, last := lines[..|lines| - 1], lines[|lines| - 1];
      EachLineCounts(before, reason);
      assert RejectionOf(last)[reason] == if FailsFor(last, reason) then 1 else 0;
      hide RejectionOf, FailsFor;
    }
  }

  function RejectionRate(parsed: nat, rejected: nat): real {
    if parsed + rejected == 0 then 0.0 else rejected as real / (parsed + rejected) as real
  }

  /** How a run over `lines` that handled `handled` of them must end. */
  ghost predicate Ends(lines: seq<Fate>, stopAt: Option<nat>, opts: RunOptions, handled: seq<Fate>, ending: Ending) {
    && handled <= lines
    // the shutdown request and the limit are both seen before a line is handled
    && (stopAt.Some? ==> |handled| <= stopAt.value)
    && (forall k :: 0 <= k < |handled| && opts.limit.Some? ==> ParsedOf(lines[..k]) < opts.limit.value)
    // the rate is looked at after every ten thousand lines
    && (forall k :: 0 < k < |handled| && k % 10000 == 0 ==> !Hopeless(lines[..k], opts.threshold))
    && (ending.Aborted? <==> |handled| > 0 && |handled| % 10000 == 0 && Hopeless(handled, opts.threshold))
    && match ending
       case Aborted => true
       case Exhausted => handled == lines
       case Stopped => |handled| < |lines| && stopAt == Some(|handled|)
       case LimitReached =>
         |handled| < |lines| && stopAt != Some(|handled|) && opts.limit.Some? && ParsedOf(handled) >= opts.limit.value
  }

  /** More than `threshold` of what was parsed or rejected was rejected; nothing at all counts as a rate of zero. */
  predicate Hopeless(lines: seq<Fate>, threshold: real) {
    var rejected := |RejectionsOf(lines)|;
    var all := ParsedOf(lines) + rejected;
    if all == 0 then threshold < 0.0 else rejected as real > threshold * all as real
  }

  lemma RateMeans(rejected: real, all: real, threshold: real)
    requires all > 0.0
    ensures rejected / all > threshold <==> rejected > threshold * all
  {
    var rate := rejected / all;
    assert rate * all == rejected;
    if rate > threshold { assert (rate - threshold) * all > 0.0; }
    if rate <= threshold { assert (threshold - rate) * all >= 0.0; }
  }

  lemma RateTells(parsed: nat, rejected: nat, lines: seq<Fate>, threshold: real)
    requires parsed == ParsedOf(lines) && rejected == |RejectionsOf(lines)|
    ensures RejectionRate(parsed, rejected) > threshold <==> Hopeless(lines, threshold)
  {
    hide ParsedOf, RejectionsOf;
    if parsed + rejected > 0 { RateMeans(rejected as real, (parsed + rejected) as real, threshold); }
  }

  // ---------- What one line does to the counters ----------

  function Rejected(r: Report, reason: Reason): Report {
    r.(reasons := r.reasons + multiset{reason}, counters := r.counters.(rejected := r.counters.rejected + 1))
  }

  function Parsed(r: Report): Report {
    r.(counters := r.counters.(parsed := r.counters.parsed + 1))
  }

  function Handled(r: Report, fate: Fate): Report {
    match fate
    case ParseFails(reason) => Rejected(r, reason)
    case TransformFails => Rejected(Parsed(r), TransformError)
    case FailsValidation(reason) => Rejected(Parsed(r), reason)
    case Valid(_) => var p := Parsed(r); p.(counters := p.counters.(valid := p.counters.valid + 1))
  }

  /** Everything a run counted, against the lines it handled and the events it delivered. */
  ghost predicate Agrees(r: Report, letters: multiset<Reason>, lines: seq<Fate>, delivered: nat,
        duplicates: nat, keepDuplicates: bool) {
    && r.reasons == RejectionsOf(lines) && r.counters.rejected == |r.reasons|
    && r.counters.parsed == ParsedOf(lines) && r.counters.valid == |EventsOf(lines)|
    && |lines| == delivered + duplicates + r.counters.rejected && |EventsOf(lines)| == delivered + duplicates
    && r.counters.written == 0 && r.counters.duplicate == 0
    && letters == r.reasons + Copies(if keepDuplicates then duplicates else 0)
  }

  lemma Recorded(reasons: multiset<Reason>, copies: multiset<Reason>, x: multiset<Reason>, y: multiset<Reason>)
    ensures (reasons + copies) + x + y == (reasons + x) + (copies + y) && |reasons + x| == |reasons| + |x|
  {
  }

  lemma NoRejection(after: multiset<Reason>, letters: multiset<Reason>, fate: Fate)
    requires after == letters + RejectionOf(fate) && fate.Valid?
    ensures after == letters
  {
  }

  lemma OneMoreCopy(n: nat)
    ensures Copies(n) + multiset{Duplicate} == Copies(n + 1)
  {
  }

  lemma RejectionAgrees(r: Report, letters: multiset<Reason>, lines: seq<Fate>, delivered: nat,
        duplicates: nat, keepDuplicates: bool, fate: Fate)
    requires Agrees(r, letters, lines, delivered, duplicates, keepDuplicates) && !fate.Valid?
    ensures Agrees(Handled(r, fate), letters + RejectionOf(fate), lines + [fate], delivered, duplicates, keepDuplicates)
  {
    hide EventsOf, RejectionsOf, ParsedOf, Copies;
    Steps(lines, fate);
    var copies := Copies(if keepDuplicates then duplicates else 0);
    Recorded(r.reasons, copies, RejectionOf(fate), multiset{});
    assert letters + RejectionOf(fate) + multiset{} == letters + RejectionOf(fate) && copies + multiset{} == copies;
    assert Handled(r, fate).reasons == r.reasons + RejectionOf(fate);
  }

  lemma EventAgrees(
      r: Report, letters: multiset<Reason>, lines: seq<Fate>, delivered: nat, duplicates: nat, keepDuplicates: bool,
      fate: Fate, duplicate: bool)
    requires Agrees(r, letters, lines, delivered, duplicates, keepDuplicates) && fate.Valid?
    ensures Agrees(Handled(r, fate), letters
            + (if duplicate && keepDuplicates then multiset{Duplicate} else multiset{}),
              lines + [fate], delivered + (if duplicate then 0 else 1), duplicates
                  + (if duplicate then 1 else 0), keepDuplicates)
  {
    hide EventsOf, RejectionsOf, ParsedOf, Copies;
    Steps(lines, fate);
    var copies := Copies(if keepDuplicates then duplicates else 0);
    var letter: multiset<Reason> := if duplicate && keepDuplicates then multiset{Duplicate} else multiset{};
    Recorded(r.reasons, copies, multiset{}, letter);
    assert letters + multiset{} == letters && r.reasons + multiset{} == r.reasons && copies + multiset{} == copies;
    if duplicate { OneMoreCopy(duplicates); }
  }

  /** The count of lines read is kept apart. */
  lemma LinesAside(r: Report, letters: multiset<Reason>, lines: seq<Fate>, delivered: nat, duplicates: nat,
        keepDuplicates: bool, linesRead: nat)
    requires Agrees(r, letters, lines, delivered, duplicates, keepDuplicates)
    ensures Agrees(r.(counters := r.counters.(linesRead := linesRead)), letters, lines, delivered, duplicates,
            keepDuplicates)
    ensures r.counters.parsed == ParsedOf(lines)
  {
  }

  lemma HandledKeepsLines(r: Report, fate: Fate)
    ensures Handled(r, fate).counters.linesRead == r.counters.linesRead && Handled(r, fate).succeeded == r.succeeded
  {
  }

  lemma AgreesMeans(r: Report, letters: multiset<Reason>, lines: seq<Fate>, delivered: nat, duplicates: nat,
        keepDuplicates: bool)
    requires Agrees(r, letters, lines, delivered, duplicates, keepDuplicates)
    ensures |lines| == delivered + duplicates + r.counters.rejected && |EventsOf(lines)| == delivered + duplicates
    ensures r.counters.rejected == |r.reasons| && r.reasons == RejectionsOf(lines)
    ensures |letters| == r.counters.rejected + if keepDuplicates then duplicates else 0
    ensures r.counters.written == 0 && r.counters.parsed == ParsedOf(lines) && r.counters.valid == |EventsOf(lines)|
  {
    assert |Copies(duplicates)| == duplicates && |Copies(0)| == 0;
  }

  /** The reasons reported in the end: the run's own, or the dead letters' when it has none. */
  function FinalReasons(reasons: multiset<Reason>, letters: multiset<Reason>): multiset<Reason> {
    if |letters| > 0 && reasons == multiset{} then letters else reasons
  }

  lemma FinalReasonsAddUp(r: Report, earlier: multiset<Reason>, own: multiset<Reason>, copies: nat)
    requires r.counters.rejected == |r.reasons| && |own| == |r.reasons| + copies
    ensures |FinalReasons(r.reasons, earlier + own)| == r.counters.rejected <==>
              r.counters.rejected > 0 || (earlier == multiset{} && copies == 0)
    ensures FinalReasons(r.reasons, earlier + own) == if r.counters.rejected > 0 then r.reasons else earlier + own
  {
    assert |earlier + own| == |earlier| + |own|;
  }

  /** One duplicate kept and nothing rejected: its dead letter is reported as a rejection's reason. */
  lemma KeptDuplicateStandsIn()
    ensures FinalReasons(multiset{}, Copies(1)) == multiset{Duplicate}
    ensures !ReasonsAddUp(NewReport().(reasons := FinalReasons(multiset{}, Copies(1))))
  {
  }

  /** A clean run after one that rejected a line reports that line's reason again. */
  lemma EarlierLetterStandsIn()
    ensures !ReasonsAddUp(NewReport().(reasons := FinalReasons(multiset{}, multiset{Unparseable})))
  {
  }

  // ---------- The run ----------

  /** One run.  The store and the dead-letter queue may be shared with earlier runs, whose counts they still hold. */
  class Pipeline {
    const result: PipelineResult
    const dedup: Deduplicator
    const store: Store
    var deadLetters: multiset<Reason>
    var delivered: seq<Event>
    ghost const earlier: multiset<Reason>
    ghost var own: multiset<Reason>
    ghost var handled: seq<Fate>

    ghost predicate Consistent(keepDuplicates: bool)
      reads this, result, dedup, dedup.tracker
    {
      && dedup.Valid() && dedup.events == EventsOf(handled) && delivered == dedup.kept && deadLetters == earlier + own
      && Agrees(result.report, own, handled, |delivered|, dedup.duplicates, keepDuplicates)
    }

    constructor (maxTrackedKeys: nat, store: Store, deadLetters: multiset<Reason>)
      requires maxTrackedKeys >= 1
      ensures Consistent(true) && Consistent(false) && handled == [] && earlier == deadLetters
      ensures this.store == store && dedup.tracker.maxSize == maxTrackedKeys && result.report.counters.linesRead == 0
      ensures fresh(result) && fresh(dedup) && fresh(dedup.tracker)
    {
      result := new PipelineResult();
      dedup := new Deduplicator(maxTrackedKeys);
      this.store, this.deadLetters, delivered := store, deadLetters, [];
      earlier, own, handled := deadLetters, multiset{}, [];
    }

    method Reject(reason: Reason)
      modifies this`deadLetters, this`own, result
      ensures deadLetters == old(deadLetters) + multiset{reason} && own == old(own) + multiset{reason}
      ensures result.report == Rejected(old(result.report), reason)
    {
      own, deadLetters := own + multiset{reason}, deadLetters[reason := deadLetters[reason] + 1];
      result.RecordRejection(reason);
    }

    /** Parsing, transforming and validating one line. */
    method Examine(fate: Fate)
      modifies this`deadLetters, this`own, result
      ensures deadLetters == old(deadLetters) + RejectionOf(fate) && own == old(own) + RejectionOf(fate)
      ensures result.report == Handled(old(result.report), fate)
    {
      if fate.ParseFails? {
        Reject(fate.reason);
        return;
      }
      result.report := Parsed(result.report);
      if fate.TransformFails? {
        Reject(TransformError);
        return;
      }
      if fate.FailsValidation? {
        Reject(fate.reason);
        return;
      }
      result.report := result.report.(counters := result.report.counters.(valid := result.report.counters.valid + 1));
    }

    /** All stages on one line. */
    method Handle(fate: Fate, keepDuplicates: bool)
      requires Consistent(keepDuplicates)
      modifies this`deadLetters, this`own, this`delivered, this`handled, result, dedup, dedup.tracker
      ensures Consistent(keepDuplicates) && handled == old(handled) + [fate]
      ensures result.report == Handled(old(result.report), fate)
    {
      hide Agrees, Handled, RejectionOf, RejectionsOf, ParsedOf, EventsOf, Kept, KeysOf, Flagged, Recency, LastN;
      Steps(handled, fate);
      ghost var before := result.report;
      ghost var letters, lines, count, duplicates := own, handled, |delivered|, dedup.duplicates;
      handled := handled + [fate];
      Examine(fate);
      if !fate.Valid? {
        RejectionAgrees(before, letters, lines, count, duplicates, keepDuplicates, fate);
        return;
      }
      NoRejection(own, letters, fate);
      var duplicate := dedup.IsDuplicate(fate.event);
      EventAgrees(before, letters, lines, count, duplicates, keepDuplicates, fate, duplicate);
      if !duplicate {
        assert letters + multiset{} == own;
        delivered := delivered + [fate.event];
      } else if keepDuplicates {
        own, deadLetters := own + multiset{Duplicate}, deadLetters[Duplicate := deadLetters[Duplicate] + 1];
        assert letters + multiset{Duplicate} == own;
      } else {
        assert letters + multiset{} == own;
      }
    }

    /** One line of the parse loop; `limited` when the limit was reached and the line is only counted. */
    method TakeLine(fate: Fate, opts: RunOptions) returns (limited: bool)
      requires Consistent(opts.keepDuplicates)
      modifies this`deadLetters, this`own, this`delivered, this`handled, result, dedup, dedup.tracker
      ensures Consistent(opts.keepDuplicates)
      ensures result.report.counters.linesRead == old(result.report).counters.linesRead + 1
      ensures result.report.succeeded == old(result.report).succeeded
      ensures handled == if limited then old(handled) else old(handled) + [fate]
      ensures limited <==> opts.limit.Some? && ParsedOf(old(handled)) >= opts.limit.value
    {
      hide Agrees, Handled, EventsOf, RejectionsOf, Kept, KeysOf, Recency, LastN;
      var lines := result.report.counters.linesRead + 1;
      LinesAside(result.report, own, handled, |delivered|, dedup.duplicates, opts.keepDuplicates, lines);
      result.report := result.report.(counters := result.report.counters.(linesRead := lines));
      if opts.limit.Some? && result.report.counters.parsed >= opts.limit.value { return true; }
      Steps(handled, fate);
      HandledKeepsLines(result.report, fate);
      Handle(fate, opts.keepDuplicates);
      return false;
    }

    /** The parse stage's loop; a shutdown request is seen before line `stopAt`. */
    method ReadLines(lines: seq<Fate>, stopAt: Option<nat>, opts: RunOptions) returns (ending: Ending)
      requires Consistent(opts.keepDuplicates) && handled == [] && result.report.counters.linesRead == 0
      modifies this`deadLetters, this`own, this`delivered, this`handled, result, dedup, dedup.tracker
      ensures Consistent(opts.keepDuplicates) && Ends(lines, stopAt, opts, handled, ending)
      ensures result.report.counters.linesRead == |handled| + if ending.LimitReached? then 1 else 0
      ensures result.report.succeeded == old(result.report).succeeded
    {
      hide Consistent, RejectionRate, ParsedOf, RejectionsOf, Hopeless;
      var checkedAt := 0;
      for i := 0 to |lines|
        invariant Consistent(opts.keepDuplicates) && handled == lines[..i]
        invariant result.report.counters.linesRead == i && 0 <= checkedAt <= i < checkedAt + 10000
        invariant checkedAt % 10000 == 0 && result.report.succeeded == old(result.report).succeeded
        invariant stopAt.Some? ==> i <= stopAt.value
        invariant forall k :: 0 <= k < i && opts.limit.Some? ==> ParsedOf(lines[..k]) < opts.limit.value
        invariant forall k :: 0 < k <= i && k % 10000 == 0 ==> !Hopeless(lines[..k], opts.threshold)
      {
        if stopAt == Some(i) { return Stopped; }
        var limited := TakeLine(lines[i], opts);
        if limited { return LimitReached; }
        assert lines[..i + 1] == lines[..i] + [lines[i]];
        var counters := result.report.counters;
        CountersTell(opts.keepDuplicates, opts.threshold);
        if counters.linesRead - checkedAt >= 10000 {
          checkedAt := counters.linesRead;
          if counters.linesRead >= 1000 && RejectionRate(counters.parsed, counters.rejected) > opts.threshold {
            return Aborted;
          }
        }
      }
      return Exhausted;
    }

    lemma CountersTell(keepDuplicates: bool, threshold: real)
      requires Consistent(keepDuplicates)
      ensures var c := result.report.counters;
              RejectionRate(c.parsed, c.rejected) > threshold <==> Hopeless(handled, threshold)
    {
      hide RejectionRate, Hopeless, ParsedOf, RejectionsOf, EventsOf;
      RateTells(result.report.counters.parsed, result.report.counters.rejected, handled, threshold);
    }

    /** Storing what was delivered and counting it; an aborted run gets here with neither. */
    method Deliver(aborted: bool, dryRun: bool, run: RunId) returns (counted: Report)
      requires store.Valid()
      modifies store`writers, store`recordsWritten, store`filesWritten
      ensures aborted || dryRun ==> unchanged(store)
      ensures !aborted && !dryRun ==>
                && store.writers == FileAll(old(store.writers), delivered, run)
                && store.recordsWritten == old(store.recordsWritten) + |delivered|
      ensures counted == result.report.(counters := result.report.counters.(
                written := if aborted || dryRun then result.report.counters.written else store.recordsWritten,
                duplicate := if aborted then result.report.counters.duplicate else dedup.duplicates))
    {
      hide FileAll;
      counted := result.report;
      if !aborted {
        if !dryRun {
          var _, _ := store.Write(delivered, run, None, true);
          counted := counted.(counters := counted.counters.(written := store.recordsWritten));
        }
        counted := counted.(counters := counted.counters.(duplicate := dedup.duplicates));
      }
    }

    /** Publishing the files and settling the reasons; a run that is only tried publishes nothing. */
    method Finalise(counted: Report, dryRun: bool, faults: map<Path, Fault>) returns (report: Report, escaped: bool)
      modifies store`writers, store`published
      ensures dryRun ==> unchanged(store) && !escaped
      ensures !dryRun ==>
                && LeftOpen(old(store.writers), faults, escaped, store.writers)
                && Publishes(old(store.published), old(store.writers), old(store.writers).Keys - store.writers.Keys,
                     faults, store.published)
      ensures var ok := dryRun || NoneFailed(old(store.published), old(store.writers).Keys, faults);
              report == counted.(
                succeeded := counted.succeeded && (ok || escaped),
                counters := if dryRun || !ok then counted.counters
                            else counted.counters.(written := store.recordsWritten),
                reasons := FinalReasons(counted.reasons, deadLetters))
    {
      hide LeftOpen, Publishes, NoneFailed, FinalReasons;
      report, escaped := counted, false;
      if !dryRun {
        var ok;
        ok, escaped := store.Flush(faults);
        report := report.(succeeded := report.succeeded && (ok || escaped));
        if ok { report := report.(counters := report.counters.(written := store.recordsWritten)); }
      }
      report := report.(reasons := FinalReasons(report.reasons, deadLetters));
    }

    /**
     The whole run, up to and including the final counters; `escaped` says that publishing raised something
     else than `OSError`.
     */
    method Execute(lines: seq<Fate>, stopAt: Option<nat>, opts: RunOptions, run: RunId, faults: map<Path, Fault>)
      returns (ending: Ending, escaped: bool, report: Report)
      requires Consistent(opts.keepDuplicates) && handled == [] && result.report.counters.linesRead == 0
      requires store.Valid()
      modifies this, result, dedup, dedup.tracker, store`writers, store`published, store`recordsWritten,
        store`filesWritten
      ensures Consistent(opts.keepDuplicates) && Ends(lines, stopAt, opts, handled, ending)
      ensures report.counters.parsed == ParsedOf(handled) && report.counters.valid == |EventsOf(handled)|
      ensures report.counters.linesRead == |handled| + if ending.LimitReached? then 1 else 0
      ensures report.counters.rejected == |RejectionsOf(handled)|
      ensures !ending.Aborted? ==>
                report.counters.duplicate == |EventsOf(handled)| - |Kept(EventsOf(handled), dedup.tracker.maxSize)|
      ensures !ending.Aborted? && !opts.dryRun ==>
                report.counters.written == old(store.recordsWritten) + |Kept(EventsOf(handled), dedup.tracker.maxSize)|
      // lines are conserved against what this run wrote, so against the counter exactly when the store started empty
      ensures !ending.Aborted? && !opts.dryRun ==>
                Excess(report) + old(store.recordsWritten) == if ending.LimitReached? then 1 else 0
      ensures !ending.Aborted? && !opts.dryRun ==>
                (Excess(report) == (if ending.LimitReached? then 1 else 0) <==> old(store.recordsWritten) == 0)
      // the reason counts add up exactly when something was rejected, or no dead letter can stand in for them
      ensures !ending.Aborted? ==>
                (ReasonsAddUp(report) <==>
                  report.counters.rejected > 0 || (earlier == multiset{}
                      && !(opts.keepDuplicates && report.counters.duplicate > 0)))
      ensures report.counters.rejected > 0 ==> report.reasons == RejectionsOf(handled)
      ensures report.counters.rejected == 0 ==> report.reasons == deadLetters
      // what is stored is what the deduplicator lets through, and is published as the faults allow
      ensures opts.dryRun ==> unchanged(store) && !escaped && report.counters.written == 0
      ensures !opts.dryRun ==>
                var open := if ending.Aborted? then old(store.writers)
                            else FileAll(old(store.writers), Kept(EventsOf(handled), dedup.tracker.maxSize), run);
                && LeftOpen(open, faults, escaped, store.writers)
                && Publishes(old(store.published), open, open.Keys - store.writers.Keys, faults, store.published)
                && (report.succeeded <==>
                      old(result.report).succeeded && (escaped || NoneFailed(old(store.published), open.Keys, faults)))
    {
      hide LeftOpen, Publishes, NoneFailed, FileAll, Ends, RejectionRate;
      hide EventsOf, RejectionsOf, KeysOf, Recency, LastN, Kept, Agrees, ParsedOf, FinalReasons;
      ending := ReadLines(lines, stopAt, opts);
      AgreesMeans(result.report, own, handled, |delivered|, dedup.duplicates, opts.keepDuplicates);
      report := Deliver(ending.Aborted?, opts.dryRun, run);
      FinalReasonsAddUp(report, earlier, own, if opts.keepDuplicates then dedup.duplicates else 0);
      report, escaped := Finalise(report, opts.dryRun, faults);
    }
  }
}
