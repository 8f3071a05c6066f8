/**
 The circuit breaker (app/core/retry.py:161-209) and its guarded use by the Redis cache
 (app/cache/backends.py:231-246).

 The clock is a parameter; the outcome of the guarded action is one too.
 */
module CircuitBreaker {
  import opened Options

  datatype State = Closed | Open | HalfOpen

  /** The length of the current streak of failures in a history of outcomes, true meaning success. */
  function Streak(outcomes: seq<bool>): nat {
    if outcomes == [] || outcomes[|outcomes| - 1] then 0 else Streak(outcomes[..|outcomes| - 1]) + 1
  }

  // ---------- As a value ----------

  datatype Settings = Settings(threshold: int, reset: real)

  datatype Status = Status(state: State, failures: nat, openedAt: real)

  /** Reading the state moves an open breaker whose time has come to half-open. */
  function Read(c: Settings, s: Status, now: real): Status {
    if s.state.Open? && now - s.openedAt >= c.reset then s.(state := HalfOpen) else s
  }

  function Failed(c: Settings, s: Status, now: real): Status {
    var failures := s.failures + 1;
    if failures >= c.threshold then Status(Open, failures, now) else s.(failures := failures)
  }

  function Succeeded(s: Status): Status {
    s.(state := Closed, failures := 0)
  }

  // ---------- The breaker ----------

  class Breaker {
    const settings: Settings
    var status: Status
    ghost var outcomes: seq<bool>

    /** The failure counter is the current streak, and only a streak as long as the threshold opens the breaker. */
    ghost predicate Valid()
      reads this
    {
      && status.failures == Streak(outcomes)
      && (!status.state.Closed? ==> status.failures >= settings.threshold && status.failures >= 1)
      && (status.state.Closed? ==> status.failures == 0 || status.failures < settings.threshold)
    }

    constructor (threshold: int, reset: real)
      ensures Valid() && settings == Settings(threshold, reset) && outcomes == [] && status == Status(Closed, 0, 0.0)
    {
      settings, status, outcomes := Settings(threshold, reset), Status(Closed, 0, 0.0), [];
    }

    method ReadState(now: real) returns (state: State)
      requires Valid()
      modifies this`status
      ensures Valid() && status == Read(settings, old(status), now) && state == status.state
    {
      if status.state == Open && now - status.openedAt >= settings.reset {
        status := status.(state := HalfOpen);
      }
      return status.state;
    }

    method Allows(now: real) returns (allowed: bool)
      requires Valid()
      modifies this`status
      ensures Valid() && status == Read(settings, old(status), now) && allowed == !status.state.Open?
    {
      var state := ReadState(now);
      return state != Open;
    }

    method RecordSuccess()
      requires Valid()
      modifies this
      ensures Valid() && outcomes == old(outcomes) + [true] && status == Succeeded(old(status))
    {
      assert (outcomes + [true])[..|outcomes|] == outcomes;
      outcomes := outcomes + [true];
      status := status.(failures := 0);
      status := status.(state := Closed);
    }

    /** A failure when the breaker is half-open, or at the threshold, opens it at once. */
    method RecordFailure(now: real)
      requires Valid()
      modifies this
      ensures Valid() && outcomes == old(outcomes) + [false] && status == Failed(settings, old(status), now)
      ensures old(status).state.HalfOpen? ==> status.state.Open? && status.openedAt == now
    {
      assert (outcomes + [false])[..|outcomes|] == outcomes;
      outcomes := outcomes + [false];
      status := status.(failures := status.failures + 1);
      if status.failures >= settings.threshold {
        status := status.(state := Open);
        status := status.(openedAt := now);
      }
    }

    /** A guarded action: refused while the breaker is open, and degraded to `fallback` when it fails. */
    method Guard<T>(action: Attempt<T>, fallback: T, now: real, finished: real) returns (r: T, attempted: bool)
      requires Valid()
      modifies this
      ensures Valid() && status == Use(settings, old(status), !action.Raises?, now, finished)
      ensures attempted == Attempts(settings, old(status), now)
      ensures r == if attempted && action.Returns? then action.value else fallback
      ensures attempted <==> !(old(status).state.Open? && now - old(status).openedAt < settings.reset)
      ensures !attempted ==> status == old(status) && outcomes == old(outcomes)
      ensures attempted ==> outcomes == old(outcomes) + [action.Returns?]
      ensures attempted && action.Returns? ==> status.state.Closed? && status.failures == 0
      ensures attempted && action.Raises? ==>
                && status.failures == old(status).failures + 1
                && (if status.failures >= settings.threshold then status.state.Open? && status.openedAt == finished
                    else status.state.Closed?)
    {
      attempted := Allows(now);
      if !attempted { return fallback, false; }
      if action.Raises? {
        RecordFailure(finished);
        return fallback, true;
      }
      RecordSuccess();
      return action.value, true;
    }
  }

  // ---------- Guarded use over time ----------

  predicate Attempts(c: Settings, s: Status, now: real) {
    !Read(c, s, now).state.Open?
  }

  function Use(c: Settings, s: Status, succeeds: bool, now: real, finished: real): Status {
    var read := Read(c, s, now);
    if read.state.Open? then read
    else if succeeds then Succeeded(read)
    else Failed(c, read, finished)
  }

  /** One guarded use of a backend that fails: when it starts and when the failure is recorded. */
  datatype Span = Span(start: real, finish: real)

  /** Uses one after the other. */
  predicate Sequential(uses: seq<Span>) {
    && (forall i :: 0 <= i < |uses| ==> uses[i].start <= uses[i].finish)
    && (forall i :: 0 < i < |uses| ==> uses[i - 1].finish <= uses[i].start)
  }

  function StatusAfter(c: Settings, uses: seq<Span>): Status {
    if uses == [] then Status(Closed, 0, 0.0)
    else
      var last := uses[|uses| - 1];
      Use(c, StatusAfter(c, uses[..|uses| - 1]), false, last.start, last.finish)
  }

  function AttemptCount(c: Settings, uses: seq<Span>): nat {
    if uses == [] then 0
    else
      var before, last := uses[..|uses| - 1], uses[|uses| - 1];
      AttemptCount(c, before) + if Attempts(c, StatusAfter(c, before), last.start) then 1 else 0
  }

  function FirstTrip(c: Settings): nat {
    if c.threshold >= 1 then c.threshold else 1
  }

  /** The time `k` waits of `reset` take. */
  function Waits(k: int, reset: real): real {
    k as real * reset
  }

  lemma OneMoreWait(k: int, reset: real)
    ensures Waits(k + 1, reset) == Waits(k, reset) + reset && Waits(0, reset) == 0.0
  {
  }

  /** After `n` failed attempts, the first of which finished at `first`, at a time no later than `now`. */
  predicate Tracks(c: Settings, s: Status, n: nat, first: real, now: real) {
    && s.failures == n && n >= 1 && first <= now
    && (n < FirstTrip(c) ==> s.state.Closed?)
    && (n >= FirstTrip(c) ==>
       s.state.Open? && s.openedAt - first >= Waits(n - FirstTrip(c), c.reset) && s.openedAt <= now)
  }

  lemma TracksStep(c: Settings, s: Status, n: nat, first: real, now: real, use: Span)
    requires Tracks(c, s, n, first, now) && now <= use.start <= use.finish
    ensures Tracks(c, Use(c, s, false, use.start, use.finish), n + if Attempts(c, s, use.start) then 1 else 0, first,
            use.finish)
  {
    hide Waits;
    OneMoreWait(n - FirstTrip(c), c.reset);
  }

  lemma {:induction false} FailingRun(c: Settings, uses: seq<Span>)
    requires uses != [] && Sequential(uses)
    ensures Tracks(c, StatusAfter(c, uses), AttemptCount(c, uses), uses[0].finish, uses[|uses| - 1].finish)
    decreases |uses|
  {
    var before, last := uses[..|uses| - 1], uses[|uses| - 1];
    if before == [] {
      assert StatusAfter(c, before) == Status(Closed, 0, 0.0) && AttemptCount(c, before) == 0;
      OneMoreWait(0, c.reset);
    } else {
      hide Tracks, Use, Attempts;
      assert before[|before| - 1] == uses[|uses| - 2];
      assert Sequential(before) by {
        assert forall i :: 0 <= i < |before| ==> before[i] == uses[i];
      }
      FailingRun(c, before);
      TracksStep(c, StatusAfter(c, before), AttemptCount(c, before), uses[0].finish, before[|before| - 1].finish, last);
    }
  }

  /**
   Against a backend that always fails, sequential guarded uses over a time T attempt at most
   `max(1, threshold) + T / reset` actions.
   */
  lemma FailingBackendRate(c: Settings, uses: seq<Span>)
    requires uses != [] && Sequential(uses) && c.reset > 0.0
    ensures AttemptCount(c, uses) as real <= FirstTrip(c) as real + (uses[|uses| - 1].finish - uses[0].finish) / c.reset
  {
    hide StatusAfter, AttemptCount, Sequential;
    FailingRun(c, uses);
    var extra := AttemptCount(c, uses) - FirstTrip(c);
    OneMoreWait(0, c.reset);
    QuotientAtLeast(if extra >= 0 then extra else 0, uses[|uses| - 1].finish - uses[0].finish, c.reset);
  }

  lemma QuotientAtLeast(k: int, x: real, reset: real)
    requires reset > 0.0 && Waits(k, reset) <= x
    ensures k as real <= x / reset
  {
    var p, q := x / reset, k as real;
    assert p * reset == x;
    if q > p {
      assert (q - p) * reset > 0.0;
      assert (q - p) * reset == q * reset - p * reset;
    }
  }

  /**
   From a closed start, refusing needs a streak: while fewer failures than the threshold have run together,
   every use is attempted.
   */
  lemma ClosedUntilTheThreshold(c: Settings, uses: seq<Span>, next: Span)
    requires uses != [] && Sequential(uses) && AttemptCount(c, uses) < FirstTrip(c)
    ensures Attempts(c, StatusAfter(c, uses), next.start)
  {
    FailingRun(c, uses);
  }

  // ---------- What is attempted, said without a state ----------

  /** One guarded use, of any outcome. */
  datatype Guarded = Guarded(start: real, finish: real, succeeds: bool)

  /** How many of the latest attempts failed in a row. */
  function FailuresInARow(tried: seq<Guarded>): nat {
    if tried == [] || tried[|tried| - 1].succeeds then 0 else FailuresInARow(tried[..|tried| - 1]) + 1
  }

  /** A use is attempted unless as many failures as the threshold ran together, the last less than `reset` ago. */
  predicate Admitted(c: Settings, tried: seq<Guarded>, now: real) {
    var failures := FailuresInARow(tried);
    failures == 0 || failures < c.threshold || now - tried[|tried| - 1].finish >= c.reset
  }

  /** The uses that are attempted. */
  function Tried(c: Settings, uses: seq<Guarded>): seq<Guarded> {
    if uses == [] then []
    else
      var before, last := Tried(c, uses[..|uses| - 1]), uses[|uses| - 1];
      if Admitted(c, before, last.start) then before + [last] else before
  }

  function StatusOver(c: Settings, uses: seq<Guarded>): Status {
    if uses == [] then Status(Closed, 0, 0.0)
    else
      var last := uses[|uses| - 1];
      Use(c, StatusOver(c, uses[..|uses| - 1]), last.succeeds, last.start, last.finish)
  }

  /** The status records the failures that ran together, and when the last of them ended. */
  predicate Records(c: Settings, s: Status, tried: seq<Guarded>) {
    && s.failures == FailuresInARow(tried)
    && (if s.failures >= 1 && s.failures >= c.threshold then s.state.Open? && s.openedAt == tried[|tried| - 1].finish
        else s.state.Closed?)
  }

  lemma RecordsStep(c: Settings, s: Status, tried: seq<Guarded>, use: Guarded)
    requires Records(c, s, tried)
    ensures Attempts(c, s, use.start) <==> Admitted(c, tried, use.start)
    ensures Records(c, Use(c, s, use.succeeds, use.start, use.finish),
                    if Admitted(c, tried, use.start) then tried + [use] else tried)
  {
    assert (tried + [use])[..|tried|] == tried;
  }

  /** In any run of uses the breaker attempts exactly those: it recovers as soon as a late enough one succeeds. */
  lemma {:induction false} AttemptsExactly(c: Settings, uses: seq<Guarded>, now: real)
    ensures Attempts(c, StatusOver(c, uses), now) <==> Admitted(c, Tried(c, uses), now)
    ensures Records(c, StatusOver(c, uses), Tried(c, uses))
    decreases |uses|
  {
    hide Use, Attempts, Records, Admitted;
    if uses == [] {
      RecordsNothing(c);
    } else {
      var last := uses[|uses| - 1];
      AttemptsExactly(c, uses[..|uses| - 1], last.start);
      RecordsStep(c, StatusOver(c, uses[..|uses| - 1]), Tried(c, uses[..|uses| - 1]), last);
    }
    RecordsStep(c, StatusOver(c, uses), Tried(c, uses), Guarded(now, now, true));
  }

  lemma RecordsNothing(c: Settings)
    ensures Records(c, Status(Closed, 0, 0.0), [])
  {
  }
}
