/** What the combined report of several workers says, total by total (app/models/results.py:140-157). */
module ParallelTotals {
  import opened PipelineResults

  datatype Counter = Bytes | Lines | Parsed | Valid | Rejected | Duplicates | Written | Because(reason: Reason)

  function Value(r: Report, k: Counter): nat {
    match k
    case Bytes => r.counters.bytesRead
    case Lines => r.counters.linesRead
    case Parsed => r.counters.parsed
    case Valid => r.counters.valid
    case Rejected => r.counters.rejected
    case Duplicates => r.counters.duplicate
    case Written => r.counters.written
    case Because(reason) => r.reasons[reason]
  }

  /** Over the workers that finished; one that crashed counts nothing. */
  function Sum(outcomes: seq<Outcome>, k: Counter): nat {
    if outcomes == [] then 0
    else
      var last := outcomes[|outcomes| - 1];
      Sum(outcomes[..|outcomes| - 1], k) + if last.Finished? then Value(last.report, k) else 0
  }

  datatype List = Sources | Outputs | Errors

  /** What a worker adds to a list: one that crashed adds its message to the errors. */
  function Items(outcome: Outcome, l: List): seq<string> {
    match outcome
    case Crashed(error) => if l == Errors then [error] else []
    case Finished(report) =>
      match l
      case Sources => report.sources
      case Outputs => report.outputs
      case Errors => report.errors
  }

  function Joined(outcomes: seq<Outcome>, l: List): seq<string> {
    if outcomes == [] then []
    else Joined(outcomes[..|outcomes| - 1], l) + Items(outcomes[|outcomes| - 1], l)
  }

  function JoinedStages(outcomes: seq<Outcome>): seq<Stage> {
    if outcomes == [] then []
    else
      var last := outcomes[|outcomes| - 1];
      JoinedStages(outcomes[..|outcomes| - 1]) + if last.Finished? then last.report.stages else []
  }

  /** Every counter and every reason of the combined report is the sum of the workers' own. */
  lemma {:induction false} CountersAddUp(outcomes: seq<Outcome>, k: Counter)
    ensures Value(FoldAll(outcomes), k) == Sum(outcomes, k)
    decreases |outcomes|
  {
    if outcomes != [] { CountersAddUp(outcomes[..|outcomes| - 1], k); }
  }

  /** The lists follow one another in the order of completion. */
  lemma {:induction false} ListsFollow(outcomes: seq<Outcome>)
    ensures var r := FoldAll(outcomes);
      && r.sources == Joined(outcomes, Sources) && r.outputs == Joined(outcomes, Outputs)
      && r.errors == Joined(outcomes, Errors) && r.stages == JoinedStages(outcomes)
    decreases |outcomes|
  {
    if outcomes != [] { ListsFollow(outcomes[..|outcomes| - 1]); }
  }

  predicate AllSucceeded(outcomes: seq<Outcome>) {
    forall i :: 0 <= i < |outcomes| ==> outcomes[i].Finished? && outcomes[i].report.succeeded
  }

  /** The run succeeded when every worker did, and its peak is the greatest of theirs. */
  lemma {:induction false} VerdictAndPeak(outcomes: seq<Outcome>)
    ensures var r := FoldAll(outcomes);
      && (r.succeeded <==> AllSucceeded(outcomes))
      && r.peakMemory >= 0.0
      && (forall i :: 0 <= i < |outcomes| && outcomes[i].Finished? ==> outcomes[i].report.peakMemory <= r.peakMemory)
      && (r.peakMemory == 0.0 ||
          exists i :: 0 <= i < |outcomes| && outcomes[i].Finished? && outcomes[i].report.peakMemory == r.peakMemory)
    decreases |outcomes|
  {
    if outcomes != [] {
      var before, last := outcomes[..|outcomes| - 1], outcomes[|outcomes| - 1];
      VerdictAndPeak(before);
      assert forall i :: 0 <= i < |before| ==> before[i] == outcomes[i];
      assert AllSucceeded(outcomes) <==> AllSucceeded(before) && last.Finished? && last.report.succeeded;
    }
  }
}
