/**
 The result of a batch run and merging worker results (app/models/results.py:83-157,
 app/pipeline/parallel.py:90-117).

 The dictionary of reason counts only ever holds positive counts, so it is a multiset of reasons.
 */
module PipelineResults {
  import opened Options

  datatype Reason = Unparseable | SchemaViolation | TransformError | Duplicate | Rule(name: string)

  datatype Stage = Stage(name: string, processed: nat, passed: nat, rejected: nat)

  datatype Counters = Counters(bytesRead: nat, linesRead: nat, parsed: nat, valid: nat, rejected: nat,
    duplicate: nat, written: nat)

  datatype Report = Report(
    counters: Counters, reasons: multiset<Reason>, sources: seq<string>, outputs: seq<string>, errors: seq<string>,
    stages: seq<Stage>, peakMemory: real, succeeded: bool)

  function NewReport(): Report {
    Report(Counters(0, 0, 0, 0, 0, 0, 0), multiset{}, [], [], [], [], 0.0, true)
  }

  /** Counters and reason counts add up. */
  predicate ReasonsAddUp(r: Report) {
    |r.reasons| == r.counters.rejected
  }

  function Plus(a: Counters, b: Counters): Counters {
    Counters(a.bytesRead + b.bytesRead, a.linesRead + b.linesRead, a.parsed + b.parsed, a.valid + b.valid,
      a.rejected + b.rejected, a.duplicate + b.duplicate, a.written + b.written)
  }

  function Max(a: real, b: real): real {
    if a >= b then a else b
  }

  function Merged(a: Report, b: Report): Report {
    Report(Plus(a.counters, b.counters), a.reasons + b.reasons, a.sources + b.sources, a.outputs + b.outputs,
      a.errors + b.errors, a.stages + b.stages, Max(a.peakMemory, b.peakMemory), a.succeeded && b.succeeded)
  }

  class PipelineResult {
    var report: Report

    constructor ()
      ensures report == NewReport()
    {
      report := NewReport();
    }

    method RecordRejection(reason: Reason)
      modifies this
      ensures report == old(report).(reasons := old(report).reasons + multiset{reason},
                                     counters := old(report).counters.(rejected := old(report).counters.rejected + 1))
    {
      report := report.(reasons := report.reasons[reason := report.reasons[reason] + 1]);
      report := report.(counters := report.counters.(rejected := report.counters.rejected + 1));
    }

    /** Fold a worker's result in; merging a result into itself doubles it. */
    method Merge(other: PipelineResult)
      modifies this
      ensures report == Merged(old(report), old(other.report))
      ensures var a, b, sum := old(report).counters, old(other.report).counters, report.counters;
              && sum.bytesRead == a.bytesRead + b.bytesRead && sum.linesRead == a.linesRead + b.linesRead
              && sum.parsed == a.parsed + b.parsed && sum.valid == a.valid + b.valid
              && sum.rejected == a.rejected + b.rejected && sum.duplicate == a.duplicate + b.duplicate
              && sum.written == a.written + b.written
      ensures var a, b := old(report), old(other.report);
              && report.sources == a.sources + b.sources && report.outputs == a.outputs + b.outputs
              && report.errors == a.errors + b.errors && report.stages == a.stages + b.stages
              && report.reasons == a.reasons + b.reasons && report.succeeded == (a.succeeded && b.succeeded)
              && report.peakMemory == if a.peakMemory < b.peakMemory then b.peakMemory else a.peakMemory
    {
      var added := other.report;
      var counters := Plus(report.counters, added.counters);
      report :=
        report.(counters := counters, sources := report.sources + added.sources,
            outputs := report.outputs + added.outputs,
                        errors := report.errors + added.errors, stages := report.stages + added.stages);
      report :=
        report.(peakMemory := Max(report.peakMemory, added.peakMemory),
            succeeded := report.succeeded && added.succeeded);
      var reasons := AddCounts(report.reasons, added.reasons);
      report := report.(reasons := reasons);
    }
  }

  /** Add the counts of `added`, one reason at a time. */
  method AddCounts(counts: multiset<Reason>, added: multiset<Reason>) returns (r: multiset<Reason>)
    ensures r == counts + added
  {
    var rest := added;
    r := counts;
    while rest != multiset{}
      invariant forall reason :: r[reason] + rest[reason] == counts[reason] + added[reason]
      decreases |rest|
    {
      var reason :| reason in rest;
      r := r[reason := r[reason] + rest[reason]];
      rest := rest[reason := 0];
    }
  }

  // ---------- Workers finishing in any order ----------

  /** A worker's result, or the message recorded for one that failed. */
  datatype Outcome = Finished(report: Report) | Crashed(error: string)

  function Fold(combined: Report, outcome: Outcome): Report {
    match outcome
    case Finished(report) => Merged(combined, report)
    case Crashed(error) => combined.(succeeded := false, errors := combined.errors + [error])
  }

  function FoldAll(outcomes: seq<Outcome>): Report {
    if outcomes == [] then NewReport() else Fold(FoldAll(outcomes[..|outcomes| - 1]), outcomes[|outcomes| - 1])
  }

  predicate AnyCrashed(outcomes: seq<Outcome>) {
    exists i :: 0 <= i < |outcomes| && outcomes[i].Crashed?
  }

  /**
   One outcome for each path, in the order of completion.  Several workers: results are merged as they
   complete, a crash is recorded, and the sources are the paths asked for.  One worker: the paths are run in
   turn, the sources are merged like the rest, and a crash escapes and loses the whole job.
   */
  method ProcessParallel(paths: seq<string>, count: nat, completed: seq<Outcome>) returns (r: Attempt<Report>)
    requires |completed| == |paths|
    ensures r.Raises? <==> count == 1 && AnyCrashed(completed)
    ensures r.Returns? ==>
            r.value == if count == 1 || paths == [] then FoldAll(completed) else FoldAll(completed).(sources := paths)
  {
    hide Fold;
    var combined := NewReport();
    if paths == [] { return Returns(combined); }
    for i := 0 to |completed|
      invariant combined == FoldAll(completed[..i])
      invariant count == 1 ==> !AnyCrashed(completed[..i])
    {
      FoldNext(completed[..i], completed[i]);
      assert completed[..i + 1] == completed[..i] + [completed[i]];
      if count == 1 && completed[i].Crashed? { return Raises; }
      combined := MergeOutcome(combined, completed[i]);
    }
    assert completed[..|completed|] == completed;
    if count == 1 { return Returns(combined); }
    return Returns(combined.(sources := paths));
  }

  method MergeOutcome(combined: Report, outcome: Outcome) returns (r: Report)
    ensures r == Fold(combined, outcome)
  {
    match outcome
    case Finished(report) => return Merged(combined, report);
    case Crashed(error) => return combined.(succeeded := false, errors := combined.errors + [error]);
  }

  /** The same result up to the order of lists. */
  predicate Same(a: Report, b: Report) {
    && a.counters == b.counters && a.reasons == b.reasons && a.peakMemory == b.peakMemory && a.succeeded == b.succeeded
    && multiset(a.sources) == multiset(b.sources) && multiset(a.outputs) == multiset(b.outputs)
    && multiset(a.errors) == multiset(b.errors) && multiset(a.stages) == multiset(b.stages)
  }

  lemma FoldSame(a: Report, b: Report, outcome: Outcome)
    requires Same(a, b)
    ensures Same(Fold(a, outcome), Fold(b, outcome))
  {
  }

  lemma ListSwap<T>(r: seq<T>, x: seq<T>, y: seq<T>)
    ensures multiset(r + x + y) == multiset(r + y + x)
  {
  }

  lemma MergeSwap(r: Report, x: Report, y: Report)
    ensures Same(Merged(Merged(r, x), y), Merged(Merged(r, y), x))
  {
    ListSwap(r.sources, x.sources, y.sources);
    ListSwap(r.outputs, x.outputs, y.outputs);
    ListSwap(r.errors, x.errors, y.errors);
    ListSwap(r.stages, x.stages, y.stages);
  }

  /** What a worker adds: its report, or nothing but an error. */
  function ReportOf(outcome: Outcome): Report {
    match outcome
    case Finished(report) => report
    case Crashed(error) => NewReport().(errors := [error], succeeded := false)
  }

  lemma FoldIsMerge(r: Report, outcome: Outcome)
    requires r.peakMemory >= 0.0
    ensures Fold(r, outcome) == Merged(r, ReportOf(outcome)) && Fold(r, outcome).peakMemory >= 0.0
  {
    if outcome.Crashed? {
      assert r.reasons + multiset{} == r.reasons;
      assert r.sources + [] == r.sources && r.outputs + [] == r.outputs && r.stages + [] == r.stages;
    }
  }

  lemma {:induction false} PeakNonNegative(outcomes: seq<Outcome>)
    ensures FoldAll(outcomes).peakMemory >= 0.0
  {
    if outcomes != [] {
      PeakNonNegative(outcomes[..|outcomes| - 1]);
      FoldIsMerge(FoldAll(outcomes[..|outcomes| - 1]), outcomes[|outcomes| - 1]);
    }
  }

  lemma FoldSwap(r: Report, x: Outcome, y: Outcome)
    requires r.peakMemory >= 0.0
    ensures Same(Fold(Fold(r, x), y), Fold(Fold(r, y), x))
  {
    hide Fold, Same, Merged, ReportOf;
    FoldIsMerge(r, x);
    FoldIsMerge(r, y);
    FoldIsMerge(Fold(r, x), y);
    FoldIsMerge(Fold(r, y), x);
    MergeSwap(r, ReportOf(x), ReportOf(y));
  }

  lemma FoldNext(outcomes: seq<Outcome>, x: Outcome)
    ensures FoldAll(outcomes + [x]) == Fold(FoldAll(outcomes), x)
  {
    assert (outcomes + [x])[..|outcomes|] == outcomes;
  }

  lemma RemovedEarlier<T>(list: seq<T>, i: nat)
    requires i < |list| - 1
    ensures var before := list[..|list| - 1];
            list[..i] + list[i + 1..] == before[..i] + before[i + 1..] + [list[|list| - 1]]
  {
    var before, last := list[..|list| - 1], list[|list| - 1];
    assert list[i + 1..] == before[i + 1..] + [last] && list[..i] == before[..i];
  }

  /** A worker may as well have finished last. */
  lemma {:induction false} FinishLast(outcomes: seq<Outcome>, i: nat)
    requires i < |outcomes|
    ensures Same(FoldAll(outcomes), Fold(FoldAll(outcomes[..i] + outcomes[i + 1..]), outcomes[i]))
    decreases |outcomes|
  {
    var before, last := outcomes[..|outcomes| - 1], outcomes[|outcomes| - 1];
    assert outcomes == before + [last];
    FoldNext(before, last);
    hide Fold, FoldAll;
    if i == |before| {
      assert outcomes[..i] + outcomes[i + 1..] == before;
    } else {
      hide Same;
      FinishLast(before, i);
      var rest := before[..i] + before[i + 1..];
      RemovedEarlier(outcomes, i);
      PeakNonNegative(rest);
      FoldNext(rest, last);
      FoldSame(FoldAll(before), Fold(FoldAll(rest), outcomes[i]), last);
      FoldSwap(FoldAll(rest), outcomes[i], last);
      SameTrans(FoldAll(outcomes), Fold(Fold(FoldAll(rest), outcomes[i]), last),
          Fold(Fold(FoldAll(rest), last), outcomes[i]));
    }
  }

  lemma SameTrans(a: Report, b: Report, c: Report)
    requires Same(a, b) && Same(b, c)
    ensures Same(a, c) && Same(c, a)
  {
  }

  /**
   Whatever order the workers complete in, the counters, reasons and verdict are the same, and the lists hold
   the same items.
   */
  lemma {:induction false} CompletionOrderIrrelevant(a: seq<Outcome>, b: seq<Outcome>)
    requires multiset(a) == multiset(b)
    ensures Same(FoldAll(a), FoldAll(b))
    decreases |a|
  {
    if a == [] {
      assert |multiset(b)| == 0 && b == [];
    } else {
      hide Fold, Same;
      var before, last := a[..|a| - 1], a[|a| - 1];
      var i := FindLast(a, b);
      var rest := b[..i] + b[i + 1..];
      CompletionOrderIrrelevant(before, rest);
      FoldSame(FoldAll(before), FoldAll(rest), last);
      FinishLast(b, i);
      SameTrans(FoldAll(a), Fold(FoldAll(rest), last), Fold(FoldAll(rest), last));
      SameSym(FoldAll(b), Fold(FoldAll(rest), last));
      SameTrans(FoldAll(a), Fold(FoldAll(rest), last), FoldAll(b));
    }
  }

  lemma FindLast<T>(a: seq<T>, b: seq<T>) returns (i: nat)
    requires a != [] && multiset(a) == multiset(b)
    ensures i < |b| && b[i] == a[|a| - 1] && multiset(b[..i] + b[i + 1..]) == multiset(a[..|a| - 1])
  {
    var before, last := a[..|a| - 1], a[|a| - 1];
    assert a == before + [last] && last in multiset(b);
    i :| 0 <= i < |b| && b[i] == last;
    Split(b, i);
    assert multiset(before) + multiset{last} == multiset(a);
    Cancel(multiset(before), multiset(b[..i] + b[i + 1..]), last);
  }

  lemma Split<T>(b: seq<T>, i: nat)
    requires i < |b|
    ensures multiset(b[..i] + b[i + 1..]) + multiset{b[i]} == multiset(b)
  {
    assert b == b[..i] + [b[i]] + b[i + 1..];
  }

  lemma Cancel<T>(x: multiset<T>, y: multiset<T>, e: T)
    requires x + multiset{e} == y + multiset{e}
    ensures x == y
  {
    assert x == x + multiset{e} - multiset{e};
    assert y == y + multiset{e} - multiset{e};
  }

  lemma SameSym(a: Report, b: Report)
    requires Same(a, b)
    ensures Same(b, a)
  {
  }

  // ---------- Conservation over workers ----------

  /** Lines read that were neither written, nor duplicates, nor rejected. */
  function Excess(r: Report): int {
    r.counters.linesRead - r.counters.written - r.counters.duplicate - r.counters.rejected
  }

  function TotalExcess(outcomes: seq<Outcome>): int {
    if outcomes == [] then 0
    else TotalExcess(outcomes[..|outcomes| - 1]) + Excess(ReportOf(outcomes[|outcomes| - 1]))
  }

  /** What the workers' reports balance, the combined report balances: excess lines add up, and reasons stay in step. */
  lemma {:induction false} FoldKeepsBalance(outcomes: seq<Outcome>)
    ensures Excess(FoldAll(outcomes)) == TotalExcess(outcomes)
    ensures (forall i :: 0 <= i < |outcomes| ==> ReasonsAddUp(ReportOf(outcomes[i]))) ==>
            ReasonsAddUp(FoldAll(outcomes))
    decreases |outcomes|
  {
    if outcomes != [] {
      hide Fold, ReportOf, Merged;
      var before, last := outcomes[..|outcomes| - 1], outcomes[|outcomes| - 1];
      FoldKeepsBalance(before);
      PeakNonNegative(before);
      FoldIsMerge(FoldAll(before), last);
      MergeAdds(FoldAll(before), ReportOf(last));
    }
  }

  lemma MergeAdds(a: Report, b: Report)
    ensures Excess(Merged(a, b)) == Excess(a) + Excess(b)
    ensures ReasonsAddUp(a) && ReasonsAddUp(b) ==> ReasonsAddUp(Merged(a, b))
  {
  }
}
