/**
 The webhook's circuit breaker and the retry loop around it. Times are natural numbers of one unit.
 */
module CircuitBreaker {
  import opened Wrappers

  datatype State = Closed | Open | HalfOpen

  datatype Breaker = Breaker(state: State, failureCount: nat, lastFailureTime: nat)

  datatype Settings = Settings(maxFailures: nat, resetTimeout: nat)

  /** What happens to a breaker: outcomes recorded, and calls of `attempt`. */
  datatype Step = Success | Failure(now: nat) | Attempt(now: nat)

  predicate Elapsed(settings: Settings, b: Breaker, now: nat) {
    now >= b.lastFailureTime + settings.resetTimeout
  }

  function Next(settings: Settings, b: Breaker, step: Step): Breaker {
    match step
    case Success => Breaker(if b.state == HalfOpen then Closed else b.state, 0, b.lastFailureTime)
    case Failure(now) =>
      var opens := (b.state == Closed && b.failureCount + 1 >= settings.maxFailures) || b.state == HalfOpen;
      Breaker(if opens then Open else b.state, b.failureCount + 1, now)
    case Attempt(now) =>
      if b.state == Open && Elapsed(settings, b, now) then b.(state := HalfOpen) else b
  }

  const NEW_BREAKER := Breaker(Closed, 0, 0)

  function Run(settings: Settings, b: Breaker, steps: seq<Step>): Breaker {
    if steps == [] then b
    else Next(settings, Run(settings, b, steps[..|steps| - 1]), steps[|steps| - 1])
  }

  /** The failures recorded since the last success. */
  function FailuresSinceSuccess(steps: seq<Step>): nat {
    if steps == [] then 0
    else
      var before := FailuresSinceSuccess(steps[..|steps| - 1]);
      match steps[|steps| - 1]
      case Success => 0
      case Failure(_) => before + 1
      case Attempt(_) => before
  }

  /**
   In every run the count is the failures since the last success, and a closed breaker has seen fewer than
   the limit.
   */
  lemma {:induction false} CountIsFailuresSinceSuccess(settings: Settings, steps: seq<Step>)
    requires settings.maxFailures > 0
    ensures
      var b := Run(settings, NEW_BREAKER, steps);
      && b.failureCount == FailuresSinceSuccess(steps)
      && (b.state == Closed ==> b.failureCount < settings.maxFailures)
  {
    if steps != [] {
      CountIsFailuresSinceSuccess(settings, steps[..|steps| - 1]);
    }
  }

  /** A closed breaker opens exactly with the failure that completes `maxFailures` of them without a success between. */
  lemma OpensExactlyAtLimit(settings: Settings, steps: seq<Step>, step: Step)
    requires settings.maxFailures > 0 && Run(settings, NEW_BREAKER, steps).state == Closed
    ensures Run(settings, NEW_BREAKER, steps + [step]).state == Open <==>
              step.Failure? && FailuresSinceSuccess(steps + [step]) == settings.maxFailures
  {
    CountIsFailuresSinceSuccess(settings, steps);
    assert (steps + [step])[..|steps|] == steps;
  }

  // ---------- Recovery ----------

  /** The time of the last failure. */
  function LastFailure(b: Breaker, steps: seq<Step>): nat {
    if steps == [] then b.lastFailureTime
    else
      match steps[|steps| - 1]
      case Failure(now) => now
      case _ => LastFailure(b, steps[..|steps| - 1])
  }

  /** Step `i` is an attempt, and the reset timeout has passed since the last failure before it. */
  predicate IsTimely(settings: Settings, b: Breaker, steps: seq<Step>, i: nat)
    requires i < |steps|
  {
    steps[i].Attempt? && steps[i].now >= LastFailure(b, steps[..i]) + settings.resetTimeout
  }

  lemma {:induction false} RunRemembersFailure(settings: Settings, b: Breaker, steps: seq<Step>)
    ensures Run(settings, b, steps).lastFailureTime == LastFailure(b, steps)
  {
    if steps != [] {
      RunRemembersFailure(settings, b, steps[..|steps| - 1]);
    }
  }

  lemma RunOneMore(settings: Settings, b: Breaker, steps: seq<Step>, i: nat)
    requires i < |steps|
    ensures Run(settings, b, steps[..i + 1]) == Next(settings, Run(settings, b, steps[..i]), steps[i])
    ensures Run(settings, b, steps[..i]).lastFailureTime == LastFailure(b, steps[..i])
  {
    assert steps[..i + 1][..i] == steps[..i];
    RunRemembersFailure(settings, b, steps[..i]);
  }

  lemma {:induction false} OpenWithoutTimely(settings: Settings, b: Breaker, steps: seq<Step>, k: nat)
    requires b.state == Open && k <= |steps|
    requires forall i | 0 <= i < |steps| :: !IsTimely(settings, b, steps, i)
    ensures Run(settings, b, steps[..k]).state == Open
  {
    if k > 0 {
      OpenWithoutTimely(settings, b, steps, k - 1);
      RunOneMore(settings, b, steps, k - 1);
      assert !IsTimely(settings, b, steps, k - 1);
    }
  }

  /** A run ever leaves the open state if and only if it contains a timely attempt. */
  lemma LeavesOpenExactlyWhen(settings: Settings, b: Breaker, steps: seq<Step>)
    requires b.state == Open
    ensures (exists k | 0 <= k <= |steps| :: Run(settings, b, steps[..k]).state != Open) <==>
            (exists i | 0 <= i < |steps| :: IsTimely(settings, b, steps, i))
  {
    if i :| 0 <= i < |steps| && IsTimely(settings, b, steps, i) {
      RunOneMore(settings, b, steps, i);
      assert Run(settings, b, steps[..i]).state != Open || Run(settings, b, steps[..i + 1]).state != Open;
    } else {
      forall k | 0 <= k <= |steps|
        ensures Run(settings, b, steps[..k]).state == Open
      {
        OpenWithoutTimely(settings, b, steps, k);
      }
    }
  }

  /** Step `i` is a timely attempt and no failure comes between it and `j`. */
  predicate IsTrial(settings: Settings, b: Breaker, steps: seq<Step>, i: nat, j: nat)
    requires i < j <= |steps|
  {
    IsTimely(settings, b, steps, i) && forall m | i < m < j :: !steps[m].Failure?
  }

  lemma {:induction false} NotOpenDuringTrial(settings: Settings, b: Breaker, steps: seq<Step>, i: nat, j: nat)
    requires i < j <= |steps| && IsTrial(settings, b, steps, i, j)
    ensures Run(settings, b, steps[..j]).state != Open
  {
    RunOneMore(settings, b, steps, j - 1);
    if j > i + 1 {
      NotOpenDuringTrial(settings, b, steps, i, j - 1);
    }
  }

  lemma {:induction false} HalfOpenAfterTrial(settings: Settings, b: Breaker, steps: seq<Step>, j: nat) returns (i: nat)
    requires b.state == Open && j <= |steps| && Run(settings, b, steps[..j]).state == HalfOpen
    ensures i < j && IsTrial(settings, b, steps, i, j)
  {
    RunOneMore(settings, b, steps, j - 1);
    if Run(settings, b, steps[..j - 1]).state == HalfOpen {
      i := HalfOpenAfterTrial(settings, b, steps, j - 1);
    } else {
      i := j - 1;
    }
  }

  lemma {:induction false} ClosedAfterTrial(settings: Settings, b: Breaker, steps: seq<Step>, k: nat)
    returns (i: nat, j: nat)
    requires b.state == Open && k <= |steps| && Run(settings, b, steps[..k]).state == Closed
    ensures i < j < k && IsTrial(settings, b, steps, i, j) && steps[j] == Success
  {
    RunOneMore(settings, b, steps, k - 1);
    if Run(settings, b, steps[..k - 1]).state == Closed {
      i, j := ClosedAfterTrial(settings, b, steps, k - 1);
    } else {
      j := k - 1;
      i := HalfOpenAfterTrial(settings, b, steps, j);
    }
  }

  /** And it ever closes if and only if a success follows a timely attempt with no failure between. */
  lemma ClosesExactlyWhen(settings: Settings, b: Breaker, steps: seq<Step>)
    requires b.state == Open
    ensures (exists k | 0 <= k <= |steps| :: Run(settings, b, steps[..k]).state == Closed) <==>
            (exists i, j | 0 <= i < j < |steps| :: IsTrial(settings, b, steps, i, j) && steps[j] == Success)
  {
    if i, j :| 0 <= i < j < |steps| && IsTrial(settings, b, steps, i, j) && steps[j] == Success {
      NotOpenDuringTrial(settings, b, steps, i, j);
      RunOneMore(settings, b, steps, j);
      assert Run(settings, b, steps[..j + 1]).state == Closed;
    }
    if k :| 0 <= k <= |steps| && Run(settings, b, steps[..k]).state == Closed {
      var i, j := ClosedAfterTrial(settings, b, steps, k);
    }
  }

  /**
   The retry loop asks `canExecute` and never makes an attempt, so in every run of it a breaker that has
   opened stays open, whatever succeeds; from then on a single failure rejects calls for the whole
   reset timeout.
   */
  lemma OpenForeverWithoutAttempt(settings: Settings, b: Breaker, steps: seq<Step>)
    requires b.state == Open && forall s <- steps :: !s.Attempt?
    ensures Run(settings, b, steps).state == Open
    ensures steps != [] && steps[|steps| - 1].Failure? ==>
              forall now: nat | now < steps[|steps| - 1].now + settings.resetTimeout ::
                !Admits(settings, Run(settings, b, steps), now)
  {
    assert forall i | 0 <= i < |steps| :: steps[i] in steps;
    OpenWithoutTimely(settings, b, steps, |steps|);
    assert steps[..|steps|] == steps;
    RunRemembersFailure(settings, b, steps);
  }

  predicate Admits(settings: Settings, b: Breaker, now: nat) {
    b.state == Open ==> Elapsed(settings, b, now)
  }

  class CircuitBreaker {
    const settings: Settings
    var state: State
    var failureCount: nat
    var lastFailureTime: nat

    constructor (settings: Settings)
      ensures this.settings == settings && Value() == NEW_BREAKER
    {
      this.settings := settings;
      state, failureCount, lastFailureTime := Closed, 0, 0;
    }

    function Value(): Breaker
      reads this
    {
      Breaker(state, failureCount, lastFailureTime)
    }

    method CanExecute(now: nat) returns (ok: bool)
      ensures ok <==> Admits(settings, Value(), now)
      ensures !ok <==> state == Open && now < lastFailureTime + settings.resetTimeout
    {
      match state
      case Closed => ok := true;
      case Open => ok := now >= lastFailureTime + settings.resetTimeout;
      case HalfOpen => ok := true;
    }

    method RecordSuccess()
      modifies this
      ensures Value() == Next(settings, old(Value()), Success)
    {
      failureCount := 0;
      if state == HalfOpen {
        state := Closed;
      }
    }

    method RecordFailure(now: nat)
      modifies this
      ensures Value() == Next(settings, old(Value()), Failure(now))
    {
      failureCount := failureCount + 1;
      lastFailureTime := now;
      match state
      case Closed =>
        if failureCount >= settings.maxFailures {
          state := Open;
        }
      case HalfOpen => state := Open;
      case Open =>
    }

    method Attempt(now: nat) returns (ok: bool)
      modifies this
      ensures Value() == Next(settings, old(Value()), Step.Attempt(now))
      ensures ok <==> Value().state != Open
    {
      if state == Open && now >= lastFailureTime + settings.resetTimeout {
        state := HalfOpen;
        return true;
      }
      return state != Open;
    }
  }

  /** How one attempt goes: the context ends while waiting to retry, or the operation times out, fails or succeeds. */
  datatype AttemptOutcome = WaitEnded | OperationTimedOut | OperationFailed | OperationSucceeded

  /** Some attempt within the limit succeeds, and the context does not end while the loop waits before it. */
  ghost predicate CallSucceeds(outcomes: seq<AttemptOutcome>, limit: nat)
    requires limit <= |outcomes|
  {
    exists i | 0 <= i < limit ::
      outcomes[i] == OperationSucceeded && forall j | 0 < j < i :: outcomes[j] != WaitEnded
  }

  class Handler {
    const circuitBreaker: CircuitBreaker
    const maxRetries: nat
    var requestCount: nat
    var failureCount: nat

    constructor (circuitBreaker: CircuitBreaker, maxRetries: nat)
      ensures this.circuitBreaker == circuitBreaker && this.maxRetries == maxRetries
      ensures requestCount == 0 && failureCount == 0
    {
      this.circuitBreaker, this.maxRetries := circuitBreaker, maxRetries;
      requestCount, failureCount := 0, 0;
    }

    /** The traffic stands where the handler and its breaker do. */
    ghost predicate Shows(t: Traffic)
      reads this, circuitBreaker
    {
      t.breaker == circuitBreaker.Value() && t.requests == requestCount && t.failures == failureCount
    }

    /**
     Runs an operation with retries. A call the breaker admits records exactly one outcome after at most
     `maxRetries` attempts: a success if an attempt succeeds before the context ends while waiting,
     otherwise a failure. A rejected call records none. Beside other calls that wait, it is the path
     `CallPath` of the traffic below.
     */
    method ExecuteWithRetryAndTimeout(outcomes: seq<AttemptOutcome>, now: nat, end: nat, ghost before: Traffic)
      returns (ok: bool, attempts: nat, ghost recorded: Option<Step>, ghost after: Traffic)
      requires |outcomes| >= maxRetries
      requires Shows(before)
      modifies this, circuitBreaker
      ensures requestCount == old(requestCount) + 1
      ensures failureCount == old(failureCount) + if ok then 0 else 1
      ensures attempts <= maxRetries
      ensures recorded.None? <==> !Admits(circuitBreaker.settings, old(circuitBreaker.Value()), now)
      ensures recorded.None? ==> !ok && attempts == 0 && circuitBreaker.Value() == old(circuitBreaker.Value())
      ensures recorded.Some? ==>
                && (ok <==> CallSucceeds(outcomes, maxRetries))
                && recorded == Some(if ok then Success else Failure(end))
                && circuitBreaker.Value() == Next(circuitBreaker.settings, old(circuitBreaker.Value()), recorded.value)
      ensures Shows(after) && Leads(circuitBreaker.settings, before, CallPath(now, recorded), after)
    {
      requestCount := requestCount + 1;
      attempts := 0;
      var admitted := circuitBreaker.CanExecute(now);
      if !admitted {
        failureCount := failureCount + 1;
        after := CallIsPath(circuitBreaker.settings, before, now, None);
        return false, 0, None, after;
      }
      while attempts < maxRetries
        invariant attempts <= maxRetries
        invariant forall j | 0 <= j < attempts :: outcomes[j] != OperationSucceeded
        invariant forall j | 0 < j < attempts :: outcomes[j] != WaitEnded
        invariant requestCount == old(requestCount) + 1 && failureCount == old(failureCount)
        invariant circuitBreaker.Value() == old(circuitBreaker.Value())
      {
        if attempts > 0 {
          if outcomes[attempts] == WaitEnded {
            circuitBreaker.RecordFailure(end);
            failureCount := failureCount + 1;
            after := CallIsPath(circuitBreaker.settings, before, now, Some(Failure(end)));
            return false, attempts, Some(Failure(end)), after;
          }
        }
        attempts := attempts + 1;
        if outcomes[attempts - 1] == OperationSucceeded {
          circuitBreaker.RecordSuccess();
          after := CallIsPath(circuitBreaker.settings, before, now, Some(Success));
          return true, attempts, Some(Success), after;
        }
      }
      circuitBreaker.RecordFailure(end);
      failureCount := failureCount + 1;
      after := CallIsPath(circuitBreaker.settings, before, now, Some(Failure(end)));
      return false, attempts, Some(Failure(end)), after;
    }
  }

  // ---------- Many calls at once ----------

  /**
   The calls of the retry loop under every interleaving: `arrived` have been counted as requests,
   `running` were admitted, `failing` are rejected or have failed but are not yet counted as failures.
   `recorded` is what the breaker was told, in order, and `succeeded` and `rejected` count calls.
   */
  datatype Traffic = Traffic(
    breaker: Breaker,
    recorded: seq<Step>,
    requests: nat,
    failures: nat,
    arrived: nat,
    running: nat,
    failing: nat,
    succeeded: nat,
    rejected: nat)

  datatype Move = Arrive | AskBreaker(now: nat) | RecordOutcome(outcome: Step) | CountFailure

  predicate Enabled(t: Traffic, move: Move) {
    match move
    case Arrive => true
    case AskBreaker(_) => t.arrived > 0
    case RecordOutcome(outcome) => t.running > 0 && !outcome.Attempt?
    case CountFailure => t.failing > 0
  }

  function Moved(settings: Settings, t: Traffic, move: Move): Traffic
    requires Enabled(t, move)
  {
    match move
    case Arrive => t.(requests := t.requests + 1, arrived := t.arrived + 1)
    case AskBreaker(now) =>
      if Admits(settings, t.breaker, now) then t.(arrived := t.arrived - 1, running := t.running + 1)
      else t.(arrived := t.arrived - 1, rejected := t.rejected + 1, failing := t.failing + 1)
    case RecordOutcome(outcome) =>
      var t' := t.(breaker := Next(settings, t.breaker, outcome), recorded := t.recorded + [outcome],
          running := t.running - 1);
      if outcome == Success then t'.(succeeded := t.succeeded + 1) else t'.(failing := t.failing + 1)
    case CountFailure => t.(failing := t.failing - 1, failures := t.failures + 1)
  }

  ghost predicate Leads(settings: Settings, t: Traffic, moves: seq<Move>, t': Traffic)
    decreases |moves|
  {
    if moves == [] then t == t'
    else Enabled(t, moves[0]) && Leads(settings, Moved(settings, t, moves[0]), moves[1..], t')
  }

  /** The moves of one call: it is rejected, or records its outcome; unless that is a success, a failure is counted. */
  function CallPath(now: nat, recorded: Option<Step>): seq<Move> {
    match recorded
    case None => [Arrive, AskBreaker(now), CountFailure]
    case Some(Success) => [Arrive, AskBreaker(now), RecordOutcome(Success)]
    case Some(outcome) => [Arrive, AskBreaker(now), RecordOutcome(outcome), CountFailure]
  }

  lemma CallIsPath(settings: Settings, t: Traffic, now: nat, recorded: Option<Step>) returns (t': Traffic)
    requires recorded.None? <==> !Admits(settings, t.breaker, now)
    requires recorded.Some? ==> !recorded.value.Attempt?
    ensures Leads(settings, t, CallPath(now, recorded), t')
    ensures t'.requests == t.requests + 1
    ensures t'.failures == t.failures + if recorded == Some(Success) then 0 else 1
    ensures t'.breaker == if recorded.Some? then Next(settings, t.breaker, recorded.value) else t.breaker
  {
    var arrived := Moved(settings, t, Arrive);
    var asked := Moved(settings, arrived, AskBreaker(now));
    var tail := CallPath(now, recorded)[2..];
    match recorded {
      case None =>
        t' := Moved(settings, asked, CountFailure);
        assert tail == [CountFailure] && tail[1..] == [];
      case Some(outcome) =>
        t' := Moved(settings, asked, RecordOutcome(outcome));
        if outcome == Success {
          assert tail == [RecordOutcome(Success)] && tail[1..] == [];
        } else {
          assert tail == [RecordOutcome(outcome), CountFailure] && tail[1..] == [CountFailure] && tail[1..][1..] == [];
          t' := Moved(settings, t', CountFailure);
        }
    }
    assert Leads(settings, asked, tail, t');
    var path := CallPath(now, recorded);
    assert path[0] == Arrive && path[1..][0] == AskBreaker(now) && path[1..][1..] == tail;
    assert Leads(settings, arrived, path[1..], t');
  }

  ghost predicate TrafficInv(settings: Settings, t: Traffic) {
    && t.breaker == Run(settings, NEW_BREAKER, t.recorded)
    && (forall s <- t.recorded :: !s.Attempt?)
    && t.succeeded == multiset(t.recorded)[Success]
    && t.requests == t.arrived + t.running + t.rejected + |t.recorded|
    && t.failures + t.failing == t.rejected + |t.recorded| - t.succeeded
  }

  const NO_TRAFFIC := Traffic(NEW_BREAKER, [], 0, 0, 0, 0, 0, 0, 0)

  lemma MoveKeepsInv(settings: Settings, t: Traffic, move: Move)
    requires TrafficInv(settings, t) && Enabled(t, move)
    ensures TrafficInv(settings, Moved(settings, t, move))
    ensures t.breaker.state == Open ==> Moved(settings, t, move).breaker.state == Open
  {
    if move.RecordOutcome? {
      var recorded := t.recorded + [move.outcome];
      assert recorded[..|recorded| - 1] == t.recorded;
      assert multiset(recorded)[Success] == multiset(t.recorded)[Success] + if move.outcome == Success then 1 else 0;
    }
  }

  /** In every interleaving an open breaker stays open, since no call of the loop makes an attempt. */
  lemma {:induction false} TrafficKeepsInv(settings: Settings, t: Traffic, moves: seq<Move>, t': Traffic)
    requires TrafficInv(settings, t) && Leads(settings, t, moves, t')
    ensures TrafficInv(settings, t')
    ensures t.breaker.state == Open ==> t'.breaker.state == Open
    decreases |moves|
  {
    if moves != [] {
      MoveKeepsInv(settings, t, moves[0]);
      TrafficKeepsInv(settings, Moved(settings, t, moves[0]), moves[1..], t');
    }
  }

  /**
   However calls interleave: each admitted call recorded exactly one outcome once none is running, and
   when none is under way the requests less the failures are exactly the calls that succeeded. The breaker's
   count is the failures recorded since the last recorded success.
   */
  lemma RequestsLessFailures(settings: Settings, moves: seq<Move>, t: Traffic)
    requires settings.maxFailures > 0
    requires Leads(settings, NO_TRAFFIC, moves, t)
    ensures t.breaker.failureCount == FailuresSinceSuccess(t.recorded)
    ensures t.arrived == t.running == 0 ==> |t.recorded| + t.rejected == t.requests
    ensures t.arrived == t.running == t.failing == 0 ==>
              t.requests - t.failures == t.succeeded == multiset(t.recorded)[Success]
  {
    TrafficKeepsInv(settings, NO_TRAFFIC, moves, t);
    CountIsFailuresSinceSuccess(settings, t.recorded);
  }
}
