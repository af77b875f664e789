/**
 The circuit breaker and the check / call / record protocol around it, with
 any number of calls in flight. A trace is a sequence of events and the
 states between them; the compact counters are explained by the trace.
 */
module CircuitBreaker {
  import opened Wrappers

  datatype State = Closed | Open | HalfOpen

  datatype Config = Config(failureThreshold: int, successThreshold: int, timeoutSeconds: real)

  datatype Breaker = Breaker(state: State, failureCount: nat, successCount: nat, lastFailure: Option<real>)

  const INITIAL := Breaker(Closed, 0, 0, None)

  function TransitionTo(b: Breaker, s: State): Breaker {
    if b.state == s then b else
      b.(state := s, successCount := 0, failureCount := if s == Closed then 0 else b.failureCount)
  }

  function RecordSuccess(cfg: Config, b: Breaker): Breaker {
    match b.state
    case HalfOpen =>
      var counted := b.(successCount := b.successCount + 1);
      if counted.successCount >= cfg.successThreshold then TransitionTo(counted, Closed) else counted
    case Closed => b.(failureCount := 0)
    case Open => b
  }

  function RecordFailure(cfg: Config, b: Breaker, now: real): Breaker {
    var counted := b.(failureCount := b.failureCount + 1, lastFailure := Some(now));
    if b.state == HalfOpen || (b.state == Closed && counted.failureCount >= cfg.failureThreshold)
    then TransitionTo(counted, Open) else counted
  }

  function MaybeTransitionFromOpen(cfg: Config, b: Breaker, now: real): Breaker {
    if b.state == Open && (b.lastFailure == None || now - b.lastFailure.value >= cfg.timeoutSeconds)
    then TransitionTo(b, HalfOpen) else b
  }

  function TimeUntilRetry(cfg: Config, b: Breaker, now: real): real {
    if b.state != Open || b.lastFailure == None then 0.0 else
      var left := cfg.timeoutSeconds - (now - b.lastFailure.value);
      if left > 0.0 then left else 0.0
  }

  class CircuitBreaker {
    const config: Config
    var state: State
    var failureCount: nat
    var successCount: nat
    var lastFailureTime: Option<real>

    ghost function Now(): Breaker
      reads this
    {
      Breaker(state, failureCount, successCount, lastFailureTime)
    }

    constructor (config: Config)
      ensures this.config == config && Now() == INITIAL
    {
      this.config := config;
      state, failureCount, successCount, lastFailureTime := Closed, 0, 0, None;
    }

    method Transition(newState: State)
      modifies this
      ensures Now() == TransitionTo(old(Now()), newState)
    {
      if state == newState {
        return;
      }
      state := newState;
      successCount := 0;
      if newState == Closed {
        failureCount := 0;
      }
    }

    method Success()
      modifies this
      ensures Now() == RecordSuccess(config, old(Now()))
    {
      if state == HalfOpen {
        successCount := successCount + 1;
        if successCount >= config.successThreshold {
          Transition(Closed);
        }
      } else if state == Closed {
        failureCount := 0;
      }
    }

    method Failure(now: real)
      modifies this
      ensures Now() == RecordFailure(config, old(Now()), now)
    {
      failureCount := failureCount + 1;
      lastFailureTime := Some(now);
      if state == HalfOpen || (state == Closed && failureCount >= config.failureThreshold) {
        Transition(Open);
      }
    }

    method Check(now: real)
      modifies this
      ensures Now() == MaybeTransitionFromOpen(config, old(Now()), now)
    {
      if state != Open {
        return;
      }
      if lastFailureTime == None {
        Transition(HalfOpen);
        return;
      }
      var elapsed := now - lastFailureTime.value;
      if elapsed >= config.timeoutSeconds {
        Transition(HalfOpen);
      }
    }

    method RetryIn(now: real) returns (r: real)
      ensures r == TimeUntilRetry(config, Now(), now)
    {
      if state != Open || lastFailureTime == None {
        return 0.0;
      }
      var elapsed := now - lastFailureTime.value;
      r := if config.timeoutSeconds - elapsed > 0.0 then config.timeoutSeconds - elapsed else 0.0;
    }

    method Clear()
      modifies this
      ensures Now() == INITIAL
    {
      state, failureCount, successCount, lastFailureTime := Closed, 0, 0, None;
    }
  }

  // ----- the connector's protocol around one call

  datatype CallOutcome = Delivered(ok: bool) | TimedOut | Failed(error: string)
  datatype SendResult = Rejected(retryAfter: real) | Returned(ok: bool) | Raised(error: string)

  /** One send with nothing else in between: check at `started`, record at `finished`. */
  method Send(cb: CircuitBreaker?, outcome: CallOutcome, started: real, finished: real) returns (r: SendResult)
    modifies cb
    ensures r.Rejected? ==>
              && cb != null && cb.Now() == MaybeTransitionFromOpen(cb.config, old(cb.Now()), started)
              && cb.state == Open && r.retryAfter == TimeUntilRetry(cb.config, cb.Now(), started)
    ensures cb != null && !r.Rejected? ==>
              var checked := MaybeTransitionFromOpen(cb.config, old(cb.Now()), started);
              && checked.state != Open
              && cb.Now() == if outcome.Delivered? then RecordSuccess(cb.config, checked)
                             else RecordFailure(cb.config, checked, finished)
    ensures !r.Rejected? ==>
              r == match outcome
                   case Delivered(ok) => Returned(ok)
                   case TimedOut => Returned(false)
                   case Failed(error) => Raised(error)
  {
    if cb != null {
      cb.Check(started);
      if cb.state == Open {
        var wait := cb.RetryIn(started);
        return Rejected(wait);
      }
    }
    match outcome {
      case TimedOut =>
        if cb != null { cb.Failure(finished); }
        return Returned(false);
      case Failed(error) =>
        if cb != null { cb.Failure(finished); }
        return Raised(error);
      case Delivered(ok) =>
        if cb != null { cb.Success(); }
        return Returned(ok);
    }
  }

  // ----- traces with many calls in flight

  datatype Event = Attempt(now: real) | Succeed | Fail(now: real) | ForceOpen | ForceClose | Reset

  datatype System = System(b: Breaker, inFlight: nat)

  /** Only a call in flight can end. */
  ghost predicate Enabled(s: System, e: Event) {
    e.Succeed? || e.Fail? ==> s.inFlight > 0
  }

  ghost function Next(cfg: Config, s: System, e: Event): System
    requires Enabled(s, e)
  {
    match e
    case Attempt(now) =>
      var b := MaybeTransitionFromOpen(cfg, s.b, now);
      System(b, if b.state == Open then s.inFlight else s.inFlight + 1)
    case Succeed => System(RecordSuccess(cfg, s.b), s.inFlight - 1)
    case Fail(now) => System(RecordFailure(cfg, s.b, now), s.inFlight - 1)
    case ForceOpen => s.(b := TransitionTo(s.b, Open))
    case ForceClose => s.(b := TransitionTo(s.b, Closed))
    case Reset => s.(b := INITIAL)
  }

  datatype Trace = Trace(states: seq<System>, events: seq<Event>) {
    ghost predicate Valid(cfg: Config) {
      && |states| == |events| + 1
      && states[0] == System(INITIAL, 0)
      && forall i :: 0 <= i < |events| ==>
           Enabled(states[i], events[i]) && states[i + 1] == Next(cfg, states[i], events[i])
    }

    ghost predicate In(i: int, s: State) {
      0 <= i < |states| && states[i].b.state == s
    }

    /** All the states from lo to hi, both included, are `s`. */
    ghost predicate Stays(lo: int, hi: int, s: State) {
      forall i :: lo <= i <= hi ==> In(i, s)
    }

    ghost function Failures(lo: nat, hi: nat): nat
      requires hi <= |events|
    {
      if hi <= lo then 0 else Failures(lo, hi - 1) + if events[hi - 1].Fail? then 1 else 0
    }

    ghost function Successes(lo: nat, hi: nat): nat
      requires hi <= |events|
    {
      if hi <= lo then 0 else Successes(lo, hi - 1) + if events[hi - 1].Succeed? then 1 else 0
    }

    /** The attempts from lo to hi that were let through. */
    ghost function Admissions(lo: nat, hi: nat): nat
      requires hi <= |events| < |states|
    {
      if hi <= lo then 0 else
        Admissions(lo, hi - 1) + if events[hi - 1].Attempt? && states[hi].b.state != Open then 1 else 0
    }

    /** From k on CLOSED without a success; k is the start, an entry to CLOSED, a CLOSED success or a reset. */
    ghost predicate ClosedStreak(k: nat, n: nat) {
      && k <= n <= |events| < |states| && Stays(k, n, Closed)
      && (forall j :: k <= j < n ==> events[j] != Succeed && events[j] != Reset)
      && (k == 0 || !In(k - 1, Closed) || events[k - 1] == Succeed || events[k - 1] == Reset)
    }

    /** Where the failure count starts again: the start, a reset, a CLOSED success or an entry to CLOSED. */
    ghost predicate Boundary(i: nat) {
      && i <= |events| < |states|
      && (i == 0 || events[i - 1] == Reset || (In(i, Closed) && (!In(i - 1, Closed) || events[i - 1] == Succeed)))
    }

    /** From k on, in whatever states, the failure count did not start again. */
    ghost predicate FailureStreak(k: nat, n: nat) {
      k <= n <= |events| && Boundary(k) && forall j :: k < j <= n ==> !Boundary(j)
    }

    /** HALF_OPEN from k on, entered from OPEN by an attempt, without a failure. */
    ghost predicate HalfOpenStreak(k: nat, n: nat) {
      && 0 < k <= n <= |events| < |states| && Stays(k, n, HalfOpen)
      && In(k - 1, Open) && events[k - 1].Attempt?
      && forall j :: k <= j < n ==> !events[j].Fail?
    }

    /** The counters at n are what the trace says they should be. */
    ghost predicate Explained(cfg: Config, n: nat)
      requires n <= |events| < |states|
    {
      FailuresExplained(n) && StateExplained(cfg, n)
    }

    /** In every state the failure count is the number of failures since it last started again. */
    ghost predicate FailuresExplained(n: nat)
      requires n <= |events| < |states|
    {
      exists k :: FailureStreak(k, n) && Failures(k, n) == states[n].b.failureCount
    }

    /** What holds of them in each state. */
    ghost predicate StateExplained(cfg: Config, n: nat)
      requires n <= |events| < |states|
    {
      var b := states[n].b;
      match b.state
      case Closed =>
        && (exists k :: ClosedStreak(k, n) && Failures(k, n) == b.failureCount)
        && b.failureCount < AtLeastOne(cfg.failureThreshold) && b.successCount == 0
      case Open => b.successCount == 0
      case HalfOpen =>
        && (exists k :: HalfOpenStreak(k, n) && Successes(k, n) == b.successCount)
        && b.successCount < AtLeastOne(cfg.successThreshold)
    }

    /** The time of the latest failure recorded in the first n events since the last reset. */
    ghost function LatestFailure(n: nat): Option<real>
      requires n <= |events|
    {
      if n == 0 then None else
        match events[n - 1]
        case Fail(now) => Some(now)
        case Reset => None
        case _ => LatestFailure(n - 1)
    }
  }

  /** A threshold of zero or less acts like one. */
  function AtLeastOne(threshold: int): int {
    if threshold < 1 then 1 else threshold
  }

  lemma StreakGrows(cfg: Config, tr: Trace, k: nat, n: nat)
    requires tr.Valid(cfg) && n < |tr.events|
    ensures tr.ClosedStreak(k, n) && tr.In(n + 1, Closed) && tr.events[n] != Succeed && tr.events[n] != Reset
            ==> tr.ClosedStreak(k, n + 1)
    ensures tr.HalfOpenStreak(k, n) && tr.In(n + 1, HalfOpen) && !tr.events[n].Fail? ==> tr.HalfOpenStreak(k, n + 1)
  {}

  lemma FailureCountStep(cfg: Config, tr: Trace, n: nat)
    requires tr.Valid(cfg) && n < |tr.events|
    ensures var before, after := tr.states[n].b.failureCount, tr.states[n + 1].b.failureCount;
            after == if tr.Boundary(n + 1) then 0 else before + if tr.events[n].Fail? then 1 else 0
  {
    assert tr.states[n + 1] == Next(cfg, tr.states[n], tr.events[n]);
  }

  lemma FailuresAreExplained(cfg: Config, tr: Trace, n: nat)
    requires tr.Valid(cfg) && n < |tr.events| && tr.FailuresExplained(n)
    ensures tr.FailuresExplained(n + 1)
  {
    FailureCountStep(cfg, tr, n);
    var k :| tr.FailureStreak(k, n) && tr.Failures(k, n) == tr.states[n].b.failureCount;
    var k' := if tr.Boundary(n + 1) then n + 1 else k;
    assert tr.FailureStreak(k', n + 1);
  }

  lemma StateIsExplained(cfg: Config, tr: Trace, n: nat)
    requires tr.Valid(cfg) && n < |tr.events| && tr.StateExplained(cfg, n)
    ensures tr.StateExplained(cfg, n + 1)
  {
    var s, s', e := tr.states[n].b.state, tr.states[n + 1].b.state, tr.events[n];
    assert tr.states[n + 1] == Next(cfg, tr.states[n], e);
    if s' == Closed {
      if s == Closed && e != Succeed && e != Reset {
        var k :| tr.ClosedStreak(k, n) && tr.Failures(k, n) == tr.states[n].b.failureCount;
        StreakGrows(cfg, tr, k, n);
        assert tr.ClosedStreak(k, n + 1);
      } else {
        assert tr.ClosedStreak(n + 1, n + 1);
      }
    } else if s' == HalfOpen {
      if s == HalfOpen {
        var k :| tr.HalfOpenStreak(k, n) && tr.Successes(k, n) == tr.states[n].b.successCount;
        StreakGrows(cfg, tr, k, n);
        assert tr.HalfOpenStreak(k, n + 1);
      } else {
        assert tr.HalfOpenStreak(n + 1, n + 1);
      }
    }
  }

  /** In every reachable state the compact counters agree with the trace. */
  lemma {:induction false} CountersAreExplained(cfg: Config, tr: Trace, n: nat)
    requires tr.Valid(cfg) && n <= |tr.events|
    ensures tr.Explained(cfg, n)
  {
    if n == 0 {
      assert tr.ClosedStreak(0, 0) && tr.FailureStreak(0, 0);
    } else {
      CountersAreExplained(cfg, tr, n - 1);
      FailuresAreExplained(cfg, tr, n - 1);
      StateIsExplained(cfg, tr, n - 1);
    }
  }

  /** A failure in CLOSED opens the breaker exactly when it completes a streak of `failureThreshold` failures. */
  lemma TripsIffStreakIsFull(cfg: Config, tr: Trace, k: nat, n: nat)
    requires tr.Valid(cfg) && n < |tr.events| && tr.events[n].Fail? && tr.ClosedStreak(k, n)
    ensures tr.In(n + 1, Open) <==> tr.Failures(k, n + 1) >= cfg.failureThreshold
    ensures !tr.In(n + 1, Open) ==> tr.In(n + 1, Closed)
    ensures tr.In(n + 1, Open) ==> tr.Failures(k, n + 1) == AtLeastOne(cfg.failureThreshold)
  {
    CountersAreExplained(cfg, tr, n);
    assert tr.In(n, Closed);
    var k' :| tr.ClosedStreak(k', n) && tr.Failures(k', n) == tr.states[n].b.failureCount;
    StreakStartIsUnique(tr, k, k', n);
    assert tr.states[n + 1] == Next(cfg, tr.states[n], tr.events[n]);
  }

  lemma StreakStartIsUnique(tr: Trace, k: nat, k': nat, n: nat)
    requires tr.ClosedStreak(k, n) && tr.ClosedStreak(k', n)
    ensures k == k'
  {
    assert k < k' ==> tr.In(k' - 1, Closed);
    assert k' < k ==> tr.In(k - 1, Closed);
  }

  /** Nothing but a full streak or `force_open` leaves CLOSED. */
  lemma ClosedIsLeftOnlyByTripping(cfg: Config, tr: Trace, n: nat)
    requires tr.Valid(cfg) && n < |tr.events| && tr.In(n, Closed) && !tr.In(n + 1, Closed)
    ensures tr.In(n + 1, Open)
    ensures tr.events[n] == ForceOpen ||
            (tr.events[n].Fail? &&
             exists k :: tr.ClosedStreak(k, n) && tr.Failures(k, n + 1) == AtLeastOne(cfg.failureThreshold))
  {
    assert tr.states[n + 1] == Next(cfg, tr.states[n], tr.events[n]);
    CountersAreExplained(cfg, tr, n);
    var k :| tr.ClosedStreak(k, n) && tr.Failures(k, n) == tr.states[n].b.failureCount;
    if tr.events[n].Fail? {
      TripsIffStreakIsFull(cfg, tr, k, n);
    }
  }

  /** The part of a trace that leads from OPEN back to CLOSED at n. */
  ghost predicate Recovers(cfg: Config, tr: Trace, p: nat, n: nat) {
    && n < |tr.events| && tr.HalfOpenStreak(p, n)
    && tr.events[n] == Succeed && tr.In(n + 1, Closed)
    && tr.Successes(p, n + 1) == AtLeastOne(cfg.successThreshold)
    && tr.Failures(p, n + 1) == 0
  }

  lemma {:induction false} NoFailures(tr: Trace, lo: nat, hi: nat)
    requires hi <= |tr.events| && forall j :: lo <= j < hi ==> !tr.events[j].Fail?
    ensures tr.Failures(lo, hi) == 0
  {
    if lo < hi { NoFailures(tr, lo, hi - 1); }
  }

  /**
   What HALF_OPEN leads to: a failure opens the breaker, a success closes it exactly when it is the
   last one required, and an attempt is let through.
   */
  lemma HalfOpenDecides(cfg: Config, tr: Trace, k: nat, n: nat)
    requires tr.Valid(cfg) && n < |tr.events| && tr.HalfOpenStreak(k, n)
    ensures tr.events[n].Fail? ==> tr.In(n + 1, Open)
    ensures tr.events[n] == Succeed ==>
              if tr.Successes(k, n + 1) == AtLeastOne(cfg.successThreshold) then tr.In(n + 1, Closed)
              else tr.In(n + 1, HalfOpen)
    ensures tr.events[n].Attempt? ==>
              tr.In(n + 1, HalfOpen) && tr.states[n + 1].inFlight == tr.states[n].inFlight + 1
  {
    CountersAreExplained(cfg, tr, n);
    assert tr.In(n, HalfOpen);
    var k' :| tr.HalfOpenStreak(k', n) && tr.Successes(k', n) == tr.states[n].b.successCount;
    HalfOpenStartIsUnique(tr, k, k', n);
    assert tr.states[n + 1] == Next(cfg, tr.states[n], tr.events[n]);
  }

  lemma HalfOpenStartIsUnique(tr: Trace, k: nat, k': nat, n: nat)
    requires tr.HalfOpenStreak(k, n) && tr.HalfOpenStreak(k', n)
    ensures k == k'
  {
    assert k < k' ==> tr.In(k' - 1, HalfOpen);
    assert k' < k ==> tr.In(k - 1, HalfOpen);
  }

  /** CLOSED lets every attempt through and only counts it as a call in flight; a success ends its streak. */
  lemma ClosedLetsThrough(cfg: Config, tr: Trace, n: nat)
    requires tr.Valid(cfg) && n < |tr.events| && tr.In(n, Closed)
    ensures tr.events[n].Attempt? ==>
              tr.In(n + 1, Closed) && tr.states[n + 1].inFlight == tr.states[n].inFlight + 1
    ensures tr.events[n] == Succeed ==> tr.In(n + 1, Closed) && tr.ClosedStreak(n + 1, n + 1)
  {
    assert tr.states[n + 1] == Next(cfg, tr.states[n], tr.events[n]);
  }

  /**
   force_close and reset put the breaker in CLOSED from any state, and no call in flight is lost.
   Unless it was CLOSED when it was forced, a full streak of failures is needed again to open it.
   */
  lemma ForcedToClose(cfg: Config, tr: Trace, n: nat)
    requires tr.Valid(cfg) && n < |tr.events| && (tr.events[n] == ForceClose || tr.events[n] == Reset)
    ensures tr.In(n + 1, Closed) && tr.states[n + 1].inFlight == tr.states[n].inFlight
    ensures tr.events[n] == Reset || !tr.In(n, Closed) ==>
              tr.ClosedStreak(n + 1, n + 1) && tr.states[n + 1].b.failureCount == 0
    ensures tr.events[n] == ForceClose ==> tr.LatestFailure(n + 1) == tr.LatestFailure(n)
    ensures tr.events[n] == Reset ==> tr.states[n + 1].b == INITIAL
  {
    assert tr.states[n + 1] == Next(cfg, tr.states[n], tr.events[n]);
  }

  /** Leaving a non-CLOSED state for CLOSED without force_close or reset is a recovery. */
  lemma ClosingIsRecovery(cfg: Config, tr: Trace, n: nat)
    requires tr.Valid(cfg) && n < |tr.events| && !tr.In(n, Closed) && tr.In(n + 1, Closed)
    requires tr.events[n] != ForceClose && tr.events[n] != Reset
    ensures exists p :: Recovers(cfg, tr, p, n)
  {
    assert tr.states[n + 1] == Next(cfg, tr.states[n], tr.events[n]);
    CountersAreExplained(cfg, tr, n);
    var p :| tr.HalfOpenStreak(p, n) && tr.Successes(p, n) == tr.states[n].b.successCount;
    NoFailures(tr, p, n + 1);
    assert Recovers(cfg, tr, p, n);
  }

  /**
   The recovery protocol over every interleaving: from OPEN at i to CLOSED at j without
   force_close or reset, the breaker went through HALF_OPEN, entered after i, and recorded
   `successThreshold` successes there and no failure.
   */
  lemma {:induction false} RecoveryProtocol(cfg: Config, tr: Trace, i: nat, j: nat) returns (p: nat, n: nat)
    requires tr.Valid(cfg) && i < j <= |tr.events| && tr.In(i, Open) && tr.In(j, Closed)
    requires forall m :: i <= m < j ==> tr.events[m] != ForceClose && tr.events[m] != Reset
    ensures i < p <= n < j && Recovers(cfg, tr, p, n) && tr.Stays(n + 1, j, Closed)
    decreases j
  {
    if !tr.In(j - 1, Closed) {
      n := j - 1;
      ClosingIsRecovery(cfg, tr, n);
      p :| Recovers(cfg, tr, p, n);
      assert p <= i ==> tr.In(i, HalfOpen);
    } else {
      p, n := RecoveryProtocol(cfg, tr, i, j - 1);
    }
  }

  /** Calls are conserved: what was admitted has ended or is still in flight. */
  lemma {:induction false} CallsAreConserved(cfg: Config, tr: Trace, lo: nat, hi: nat)
    requires tr.Valid(cfg) && lo <= hi <= |tr.events|
    ensures tr.states[hi].inFlight + tr.Successes(lo, hi) + tr.Failures(lo, hi)
         == tr.states[lo].inFlight + tr.Admissions(lo, hi)
    decreases hi
  {
    if lo < hi {
      CallsAreConserved(cfg, tr, lo, hi - 1);
      assert tr.states[hi] == Next(cfg, tr.states[hi - 1], tr.events[hi - 1]);
    }
  }

  /** Successes of calls admitted before HALF_OPEN count too: only the sum covers the threshold. */
  lemma RecoveryMayUseOldCalls(cfg: Config, tr: Trace, p: nat, n: nat)
    requires tr.Valid(cfg) && Recovers(cfg, tr, p, n)
    ensures tr.states[p - 1].inFlight + tr.Admissions(p - 1, n + 1) >= AtLeastOne(cfg.successThreshold)
  {
    CallsAreConserved(cfg, tr, p - 1, n + 1);
    SplitSuccesses(tr, p - 1, p, n + 1);
  }

  /** A breaker that asks for two successes closes on one new call: the other success is an old one. */
  lemma OldCallHelps() returns (cfg: Config, tr: Trace, p: nat, n: nat)
    ensures cfg == Config(1, 2, 60.0) && tr.Valid(cfg)
    ensures tr.events == [Attempt(0.0), Attempt(0.0), Fail(0.0), Attempt(1.0), Attempt(60.0), Succeed, Succeed]
    ensures Recovers(cfg, tr, p, n) && tr.Admissions(p - 1, n + 1) == 1
  {
    cfg, p, n := Config(1, 2, 60.0), 5, 6;
    var tripped := Breaker(Open, 1, 0, Some(0.0));
    var half := tripped.(state := HalfOpen);
    tr := Trace([System(INITIAL, 0), System(INITIAL, 1), System(INITIAL, 2), System(tripped, 1), System(tripped, 1),
                 System(half, 2), System(half.(successCount := 1), 1), System(Breaker(Closed, 0, 0, Some(0.0)), 0)],
                [Attempt(0.0), Attempt(0.0), Fail(0.0), Attempt(1.0), Attempt(60.0), Succeed, Succeed]);
    assert tr.Successes(5, 5) == 0 && tr.Successes(5, 6) == 1 && tr.Successes(5, 7) == 2;
    assert tr.Failures(5, 5) == 0 && tr.Failures(5, 6) == 0;
    assert tr.Admissions(4, 4) == 0 && tr.Admissions(4, 5) == 1 && tr.Admissions(4, 6) == 1;
  }

  ghost predicate SameUpTo(tr: Trace, tr': Trace, p: nat) {
    && p <= |tr.events| && p < |tr.states| && p <= |tr'.events| && p < |tr'.states|
    && tr'.events[..p] == tr.events[..p] && tr'.states[..p + 1] == tr.states[..p + 1]
  }

  lemma {:induction false} CountsAgree(tr: Trace, tr': Trace, p: nat, lo: nat, hi: nat)
    requires |tr.events| < |tr.states| && |tr'.events| < |tr'.states|
    requires SameUpTo(tr, tr', p) && lo <= hi <= p
    ensures tr'.Failures(lo, hi) == tr.Failures(lo, hi) && tr'.Successes(lo, hi) == tr.Successes(lo, hi)
    ensures tr'.Admissions(lo, hi) == tr.Admissions(lo, hi)
  {
    if lo < hi {
      CountsAgree(tr, tr', p, lo, hi - 1);
      assert tr'.events[hi - 1] == tr'.events[..p][hi - 1] && tr'.states[hi] == tr'.states[..p + 1][hi];
      assert tr.events[hi - 1] == tr.events[..p][hi - 1] && tr.states[hi] == tr.states[..p + 1][hi];
    }
  }

  ghost function Extend(cfg: Config, tr: Trace, e: Event): Trace
    requires |tr.states| == |tr.events| + 1 && Enabled(tr.states[|tr.events|], e)
  {
    Trace(tr.states + [Next(cfg, tr.states[|tr.events|], e)], tr.events + [e])
  }

  lemma ExtendIsValid(cfg: Config, tr: Trace, e: Event, p: nat)
    requires tr.Valid(cfg) && Enabled(tr.states[|tr.events|], e) && p <= |tr.events|
    ensures Extend(cfg, tr, e).Valid(cfg) && SameUpTo(tr, Extend(cfg, tr, e), p)
  {
    var tr' := Extend(cfg, tr, e);
    forall i | 0 <= i < |tr'.events|
      ensures Enabled(tr'.states[i], tr'.events[i]) && tr'.states[i + 1] == Next(cfg, tr'.states[i], tr'.events[i])
    {
      assert i < |tr.events| ==> tr.states[i + 1] == Next(cfg, tr.states[i], tr.events[i]);
    }
  }

  /** A HALF_OPEN phase still running at the end of the trace, with no old call lost and few new ones admitted. */
  ghost predicate Recovering(cfg: Config, tr: Trace, p: nat, successes: nat, admitted: nat, inFlight: nat) {
    && tr.Valid(cfg) && tr.HalfOpenStreak(p, |tr.events|)
    && tr.Successes(p, |tr.events|) == successes == tr.states[|tr.events|].b.successCount
    && tr.Admissions(p - 1, |tr.events|) == admitted && tr.states[|tr.events|].inFlight == inFlight
  }

  lemma HalfOpenExtends(cfg: Config, tr: Trace, e: Event, p: nat)
    requires tr.Valid(cfg) && tr.HalfOpenStreak(p, |tr.events|) && !e.Fail?
    requires Enabled(tr.states[|tr.events|], e)
    ensures Extend(cfg, tr, e).HalfOpenStreak(p, |tr.events|)
    ensures Extend(cfg, tr, e).In(|tr.events| + 1, HalfOpen) ==> Extend(cfg, tr, e).HalfOpenStreak(p, |tr.events| + 1)
  {
    var n, tr' := |tr.events|, Extend(cfg, tr, e);
    forall i | p - 1 <= i <= n ensures tr'.states[i] == tr.states[i] && (i >= p ==> tr.In(i, HalfOpen)) {
    }
  }

  lemma ExtendCounts(cfg: Config, tr: Trace, e: Event, p: nat)
    requires tr.Valid(cfg) && Enabled(tr.states[|tr.events|], e) && 0 < p <= |tr.events|
    ensures var n, tr' := |tr.events|, Extend(cfg, tr, e);
            tr'.Successes(p, n + 1) == tr.Successes(p, n) + (if e.Succeed? then 1 else 0)
    ensures var n, tr' := |tr.events|, Extend(cfg, tr, e);
            tr'.Admissions(p - 1, n + 1)
            == tr.Admissions(p - 1, n) + if e.Attempt? && tr'.states[n + 1].b.state != Open then 1 else 0
  {
    var n, tr' := |tr.events|, Extend(cfg, tr, e);
    ExtendIsValid(cfg, tr, e, n);
    CountsAgree(tr, tr', n, p, n);
    CountsAgree(tr, tr', n, p - 1, n);
  }

  lemma AdmitOne(cfg: Config, tr: Trace, p: nat, successes: nat, admitted: nat, inFlight: nat, now: real)
    requires Recovering(cfg, tr, p, successes, admitted, inFlight)
    ensures Recovering(cfg, Extend(cfg, tr, Attempt(now)), p, successes, admitted + 1, inFlight + 1)
  {
    var n, tr' := |tr.events|, Extend(cfg, tr, Attempt(now));
    ExtendIsValid(cfg, tr, Attempt(now), n);
    HalfOpenExtends(cfg, tr, Attempt(now), p);
    ExtendCounts(cfg, tr, Attempt(now), p);
    assert tr.In(n, HalfOpen);
  }

  lemma SucceedOnce(cfg: Config, tr: Trace, p: nat, successes: nat, admitted: nat, inFlight: nat)
    requires Recovering(cfg, tr, p, successes, admitted, inFlight) && inFlight > 0
    requires successes + 1 < AtLeastOne(cfg.successThreshold)
    ensures Recovering(cfg, Extend(cfg, tr, Succeed), p, successes + 1, admitted, inFlight - 1)
  {
    var n, tr' := |tr.events|, Extend(cfg, tr, Succeed);
    assert tr.In(n, HalfOpen);
    assert tr'.states[n + 1] == Next(cfg, tr.states[n], Succeed);
    assert tr'.states[n + 1].b == tr.states[n].b.(successCount := successes + 1);
    assert tr'.In(n + 1, HalfOpen);
    ExtendIsValid(cfg, tr, Succeed, n);
    HalfOpenExtends(cfg, tr, Succeed, p);
    ExtendCounts(cfg, tr, Succeed, p);
  }

  lemma SucceedLast(cfg: Config, tr: Trace, p: nat, successes: nat, admitted: nat, inFlight: nat)
    requires Recovering(cfg, tr, p, successes, admitted, inFlight) && inFlight > 0
    requires successes + 1 == AtLeastOne(cfg.successThreshold)
    ensures Extend(cfg, tr, Succeed).Valid(cfg) && Recovers(cfg, Extend(cfg, tr, Succeed), p, |tr.events|)
    ensures Extend(cfg, tr, Succeed).Admissions(p - 1, |tr.events| + 1) == admitted
  {
    var n := |tr.events|;
    ExtendIsValid(cfg, tr, Succeed, n);
    HalfOpenExtends(cfg, tr, Succeed, p);
    ExtendCounts(cfg, tr, Succeed, p);
    assert tr.In(n, HalfOpen);
    NoFailures(Extend(cfg, tr, Succeed), p, n + 1);
  }

  /** First as many attempts as are missing, then only successes: the breaker closes. */
  lemma {:induction false} Recover(
    cfg: Config, tr: Trace, p: nat, successes: nat, admitted: nat, inFlight: nat, now: real)
    returns (tr': Trace, n: nat)
    requires Recovering(cfg, tr, p, successes, admitted, inFlight) && successes < AtLeastOne(cfg.successThreshold)
    ensures tr'.Valid(cfg) && SameUpTo(tr, tr', p) && Recovers(cfg, tr', p, n)
    ensures var missing := AtLeastOne(cfg.successThreshold) - successes - inFlight;
            tr'.Admissions(p - 1, n + 1) == admitted + if missing > 0 then missing else 0
    decreases AtLeastOne(cfg.successThreshold) - successes,
              AtLeastOne(cfg.successThreshold) - successes - inFlight
  {
    if successes + inFlight < AtLeastOne(cfg.successThreshold) {
      AdmitOne(cfg, tr, p, successes, admitted, inFlight, now);
      ExtendIsValid(cfg, tr, Attempt(now), p);
      tr', n := Recover(cfg, Extend(cfg, tr, Attempt(now)), p, successes, admitted + 1, inFlight + 1, now);
    } else {
      ExtendIsValid(cfg, tr, Succeed, p);
      if successes + 1 < AtLeastOne(cfg.successThreshold) {
        SucceedOnce(cfg, tr, p, successes, admitted, inFlight);
        tr', n := Recover(cfg, Extend(cfg, tr, Succeed), p, successes + 1, admitted, inFlight - 1, now);
      } else {
        SucceedLast(cfg, tr, p, successes, admitted, inFlight);
        tr', n := Extend(cfg, tr, Succeed), |tr.events|;
      }
    }
  }

  /** A continuation of the trace after p that closes with fewer admissions than required successes. */
  ghost predicate ClosesWithOldCalls(cfg: Config, tr: Trace, p: nat, tr': Trace, n: nat) {
    && tr'.Valid(cfg) && SameUpTo(tr, tr', p) && Recovers(cfg, tr', p, n)
    && tr'.Admissions(p - 1, n + 1) < AtLeastOne(cfg.successThreshold)
  }

  /**
   From an entry to HALF_OPEN, calls admitted before it can stand in for new ones exactly when
   there are any and one success is not enough.
   */
  lemma OldCallsCanHelpIff(cfg: Config, tr: Trace, p: nat)
    requires tr.Valid(cfg) && p <= |tr.events| && tr.HalfOpenStreak(p, p)
    ensures (exists tr', n: nat :: ClosesWithOldCalls(cfg, tr, p, tr', n)) <==>
            AtLeastOne(cfg.successThreshold) >= 2 && tr.states[p - 1].inFlight > 0
  {
    var calls := tr.states[p - 1].inFlight;
    forall tr', n: nat | ClosesWithOldCalls(cfg, tr, p, tr', n)
      ensures AtLeastOne(cfg.successThreshold) >= 2 && calls > 0
    {
      RecoveryMayUseOldCalls(cfg, tr', p, n);
      EntryIsAdmitted(tr', p, n + 1);
      assert tr'.states[..p + 1][p - 1] == tr.states[..p + 1][p - 1];
    }
    if AtLeastOne(cfg.successThreshold) >= 2 && calls > 0 {
      var start := Trace(tr.states[..p + 1], tr.events[..p]);
      StartIsRecovering(cfg, tr, p, start);
      var tr', n := Recover(cfg, start, p, 0, 1, calls + 1, tr.events[p - 1].now);
      assert start.events[..p] == tr.events[..p] && start.states[..p + 1] == tr.states[..p + 1];
      assert ClosesWithOldCalls(cfg, tr, p, tr', n);
    }
  }

  lemma {:induction false} EntryIsAdmitted(tr: Trace, p: nat, hi: nat)
    requires tr.HalfOpenStreak(p, p) && p <= hi <= |tr.events|
    ensures tr.Admissions(p - 1, hi) >= 1
    decreases hi
  {
    if p < hi {
      EntryIsAdmitted(tr, p, hi - 1);
    } else {
      assert tr.In(p, HalfOpen);
    }
  }

  lemma StartIsRecovering(cfg: Config, tr: Trace, p: nat, start: Trace)
    requires tr.Valid(cfg) && p <= |tr.events| && tr.HalfOpenStreak(p, p)
    requires start == Trace(tr.states[..p + 1], tr.events[..p])
    ensures Recovering(cfg, start, p, 0, 1, tr.states[p - 1].inFlight + 1)
  {
    assert tr.In(p, HalfOpen);
    assert tr.states[p] == Next(cfg, tr.states[p - 1], tr.events[p - 1]);
    forall i | 0 <= i < p
      ensures Enabled(start.states[i], start.events[i])
      ensures start.states[i + 1] == Next(cfg, start.states[i], start.events[i])
    {
      assert tr.states[i + 1] == Next(cfg, tr.states[i], tr.events[i]);
    }
    assert start.Admissions(p - 1, p - 1) == 0;
  }

  lemma {:induction false} SplitSuccesses(tr: Trace, lo: nat, mid: nat, hi: nat)
    requires lo <= mid <= hi <= |tr.events|
    ensures tr.Successes(lo, hi) == tr.Successes(lo, mid) + tr.Successes(mid, hi)
    decreases hi
  {
    if mid < hi { SplitSuccesses(tr, lo, mid, hi - 1); }
  }

  lemma {:induction false} LastFailureIsLatest(cfg: Config, tr: Trace, n: nat)
    requires tr.Valid(cfg) && n <= |tr.events|
    ensures tr.states[n].b.lastFailure == tr.LatestFailure(n)
  {
    if n > 0 {
      LastFailureIsLatest(cfg, tr, n - 1);
      assert tr.states[n] == Next(cfg, tr.states[n - 1], tr.events[n - 1]);
    }
  }

  /** An OPEN breaker lets a call through exactly when the latest failure is `timeoutSeconds` old, or there is none. */
  lemma FailsFastIff(cfg: Config, tr: Trace, n: nat)
    requires tr.Valid(cfg) && n < |tr.events| && tr.In(n, Open) && tr.events[n].Attempt?
    ensures tr.In(n + 1, Open) <==>
            tr.LatestFailure(n).Some? && tr.events[n].now - tr.LatestFailure(n).value < cfg.timeoutSeconds
    ensures !tr.In(n + 1, Open) ==> tr.In(n + 1, HalfOpen)
  {
    LastFailureIsLatest(cfg, tr, n);
    assert tr.states[n + 1] == Next(cfg, tr.states[n], tr.events[n]);
  }

  /** Without force_open an OPEN breaker always has a failure to wait for. */
  lemma {:induction false} OpenHasFailed(cfg: Config, tr: Trace, n: nat)
    requires tr.Valid(cfg) && n <= |tr.events| && tr.In(n, Open)
    requires forall m :: 0 <= m < n ==> tr.events[m] != ForceOpen
    ensures tr.LatestFailure(n).Some?
    decreases n
  {
    if n > 0 {
      assert tr.states[n] == Next(cfg, tr.states[n - 1], tr.events[n - 1]);
      if !tr.events[n - 1].Fail? {
        assert tr.In(n - 1, Open);
        OpenHasFailed(cfg, tr, n - 1);
      }
    }
  }

  /** Events after which an OPEN breaker is still OPEN: ends of calls, force_open, attempts it rejects. */
  ghost predicate KeepsOpen(tr: Trace, j: nat)
    requires j < |tr.events|
  {
    var e := tr.events[j];
    e.Succeed? || e.Fail? || e == ForceOpen || (e.Attempt? && tr.In(j + 1, Open))
  }

  lemma {:induction false} OpenIsKept(cfg: Config, tr: Trace, n: nat, m: nat)
    requires tr.Valid(cfg) && n <= m <= |tr.events| && tr.In(n, Open)
    requires forall j :: n <= j < m ==> KeepsOpen(tr, j)
    ensures tr.Stays(n, m, Open)
    decreases m
  {
    if n < m {
      OpenIsKept(cfg, tr, n, m - 1);
      assert KeepsOpen(tr, m - 1) && tr.In(m - 1, Open);
      assert tr.states[m] == Next(cfg, tr.states[m - 1], tr.events[m - 1]);
    }
  }

  /**
   force_open alone does not keep calls out. Whatever calls end and attempts are rejected in
   between, an attempt is rejected exactly when the latest failure recorded before it, since the
   last reset, is less than `timeoutSeconds` old.
   */
  lemma ForceOpenHoldsIff(cfg: Config, tr: Trace, n: nat, m: nat)
    requires tr.Valid(cfg) && n < m < |tr.events| && tr.events[n] == ForceOpen && tr.events[m].Attempt?
    requires forall j :: n < j < m ==> KeepsOpen(tr, j)
    ensures tr.Stays(n + 1, m, Open)
    ensures tr.In(m + 1, Open) <==>
            tr.LatestFailure(m).Some? && tr.events[m].now - tr.LatestFailure(m).value < cfg.timeoutSeconds
  {
    assert tr.states[n + 1] == Next(cfg, tr.states[n], tr.events[n]);
    OpenIsKept(cfg, tr, n + 1, m);
    assert tr.In(m, Open);
    FailsFastIff(cfg, tr, m);
  }

  /** On a new breaker force_open does not outlast the first attempt, whenever that comes. */
  lemma ForceOpenIsLost(cfg: Config, now: real) returns (tr: Trace)
    ensures tr.Valid(cfg) && tr.events == [ForceOpen, Attempt(now)]
    ensures tr.In(1, Open) && tr.In(2, HalfOpen) && tr.states[2].inFlight == 1
  {
    var tripped := Breaker(Open, 0, 0, None);
    tr := Trace([System(INITIAL, 0), System(tripped, 0), System(tripped.(state := HalfOpen), 1)],
                [ForceOpen, Attempt(now)]);
  }

  /** `time_until_retry` is exactly the remaining wait of an OPEN breaker. */
  lemma RetryTimeIsExact(cfg: Config, b: Breaker, now: real, wait: real)
    requires b.state == Open && wait >= 0.0
    ensures MaybeTransitionFromOpen(cfg, b, now + wait).state == HalfOpen <==> wait >= TimeUntilRetry(cfg, b, now)
  {}

  /** There is a time to wait exactly while an attempt would be rejected. */
  lemma WaitsIffRejected(cfg: Config, b: Breaker, now: real)
    ensures TimeUntilRetry(cfg, b, now) >= 0.0
    ensures TimeUntilRetry(cfg, b, now) > 0.0 <==> MaybeTransitionFromOpen(cfg, b, now).state == Open
  {}

  /** While the breaker stays OPEN, its latest failure is the one it had or one recorded since. */
  lemma {:induction false} LatestFailureSince(cfg: Config, tr: Trace, n: nat, m: nat)
    requires tr.Valid(cfg) && n <= m <= |tr.events| && forall j :: n <= j < m ==> KeepsOpen(tr, j)
    ensures tr.LatestFailure(m) == tr.LatestFailure(n) ||
            exists j :: n <= j < m && tr.events[j].Fail? && tr.LatestFailure(m) == Some(tr.events[j].now)
    ensures (forall j :: n <= j < m ==> !tr.events[j].Fail?) ==> tr.LatestFailure(m) == tr.LatestFailure(n)
    decreases m
  {
    if n < m {
      LatestFailureSince(cfg, tr, n, m - 1);
      assert KeepsOpen(tr, m - 1);
    }
  }

  /**
   A caller that is told how long to wait, and comes back then, is let through if and only if no
   call in flight failed meanwhile with a later time than the failure that was known.
   */
  lemma RetryTimeHoldsIff(cfg: Config, tr: Trace, n: nat, m: nat, now: real)
    requires tr.Valid(cfg) && cfg.timeoutSeconds > 0.0 && tr.In(n, Open)
    requires n <= m < |tr.events| && forall j :: n <= j < m ==> KeepsOpen(tr, j)
    requires tr.LatestFailure(n).Some? ==> tr.LatestFailure(n).value <= now
    requires forall j :: n <= j < m && tr.events[j].Fail? ==> now <= tr.events[j].now
    requires tr.events[m] == Attempt(now + TimeUntilRetry(cfg, tr.states[n].b, now))
    ensures tr.In(m + 1, HalfOpen) <==> tr.LatestFailure(m) == tr.LatestFailure(n)
    ensures (forall j :: n <= j < m ==> !tr.events[j].Fail?) ==> tr.In(m + 1, HalfOpen)
  {
    OpenIsKept(cfg, tr, n, m);
    LastFailureIsLatest(cfg, tr, n);
    var known, latest := tr.LatestFailure(n), tr.LatestFailure(m);
    LatestIsLater(cfg, tr, n, m, now, known, latest);
    assert tr.In(m, Open);
    FailsFastIff(cfg, tr, m);
    RetryArithmetic(cfg, tr.states[n].b, now, tr.events[m].now, known, latest);
  }

  lemma LatestIsLater(
    cfg: Config, tr: Trace, n: nat, m: nat, now: real, known: Option<real>, latest: Option<real>)
    requires tr.Valid(cfg) && n <= m <= |tr.events| && forall j :: n <= j < m ==> KeepsOpen(tr, j)
    requires forall j :: n <= j < m && tr.events[j].Fail? ==> now <= tr.events[j].now
    requires known == tr.LatestFailure(n) && latest == tr.LatestFailure(m)
    ensures latest == known || (latest.Some? && now <= latest.value)
    ensures (forall j :: n <= j < m ==> !tr.events[j].Fail?) ==> latest == known
  {
    LatestFailureSince(cfg, tr, n, m);
  }

  /** After the reported wait, an attempt is too early exactly when the failure to wait for is another one. */
  lemma RetryArithmetic(
    cfg: Config, b: Breaker, now: real, later: real, known: Option<real>, latest: Option<real>)
    requires cfg.timeoutSeconds > 0.0 && b.state == Open && b.lastFailure == known
    requires later == now + TimeUntilRetry(cfg, b, now) && (known.Some? ==> known.value <= now)
    requires latest == known || (latest.Some? && now <= latest.value)
    ensures latest.Some? && later - latest.value < cfg.timeoutSeconds <==> latest != known
  {}

  /** Told at 10 s to wait 50, a caller is rejected at 60 because another call failed at 20. */
  lemma RetryTimeIsOutrun() returns (cfg: Config, tr: Trace)
    ensures tr.Valid(cfg)
    ensures tr.events == [Attempt(0.0), Attempt(0.0), Fail(0.0), Fail(20.0), Attempt(60.0)]
    ensures tr.In(3, Open) && TimeUntilRetry(cfg, tr.states[3].b, 10.0) == 50.0
    ensures tr.In(5, Open)
  {
    cfg := Config(1, 1, 60.0);
    var tripped := Breaker(Open, 1, 0, Some(0.0));
    var again := Breaker(Open, 2, 0, Some(20.0));
    tr := Trace([System(INITIAL, 0), System(INITIAL, 1), System(INITIAL, 2), System(tripped, 1),
                 System(again, 0), System(again, 0)],
                [Attempt(0.0), Attempt(0.0), Fail(0.0), Fail(20.0), Attempt(60.0)]);
  }
}
