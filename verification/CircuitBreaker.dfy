/** The circuit breaker of internal/errors, used by one caller at a time.

    Class `Breaker` has the five atomic fields of the source and its methods; each method is proved
    to compute a function on `Counters`, and the results about whole runs are about those functions.
  */
module CircuitBreaker {
  import opened Common

  datatype State = Closed | Open | HalfOpen

  // `timeout` is the configured duration in whole seconds, the form in which it is compared.
  datatype Config = Config(
    maxFailures: int,
    timeout: int,
    maxRequests: int,
    failureRatio: real,
    minRequests: int)

  const DEFAULT_CONFIG := Config(5, 60, 3, 0.6, 10)

  // The configuration of the breaker handed out while breakers are disabled.
  const DISABLED_CONFIG := Config(999999, 3600, 0, 0.0, 0)

  datatype Counters = Counters(
    state: State,
    failures: int,
    requests: int,
    successes: int,
    lastFailure: int)

  const FRESH := Counters(Closed, 0, 0, 0, 0)

  // One use of the breaker: when it asks for admission, how the protected function ends, and when.
  datatype Call = Call(at: int, succeeds: bool, doneAt: int)

  // ---------------------------------------------------------------- specification of one call

  function Elapsed(c: Config, s: Counters, now: int): bool {
    now - s.lastFailure >= c.timeout
  }

  // Admission: the counters afterwards, and whether the call may run.
  function Admit(c: Config, s: Counters, now: int): (Counters, bool) {
    match s.state
    case Closed => (s, true)
    case Open => if Elapsed(c, s, now) then (s.(state := HalfOpen, successes := 0), true) else (s, false)
    case HalfOpen => (s, s.requests < c.maxRequests)
  }

  // Floating-point division by zero gives infinity (or NaN for 0/0), hence the second case.
  predicate RatioReached(c: Config, failures: int, requests: int) {
    if requests != 0 then failures as real / requests as real >= c.failureRatio else failures > 0
  }

  predicate ShouldOpen(c: Config, failures: int, requests: int) {
    failures >= c.maxFailures || (requests >= c.minRequests && RatioReached(c, failures, requests))
  }

  function AfterFailure(c: Config, s: Counters, now: int): Counters {
    var s' := s.(failures := s.failures + 1, lastFailure := now, successes := 0);
    match s.state
    case Closed => if ShouldOpen(c, s'.failures, s'.requests) then s'.(state := Open) else s'
    case Open => s'
    case HalfOpen => s'.(state := Open)
  }

  function AfterSuccess(c: Config, s: Counters): Counters {
    var s' := s.(successes := s.successes + 1);
    if s.state == HalfOpen && s'.successes >= c.maxRequests
    then s'.(state := Closed, failures := 0, requests := 0)
    else s'
  }

  function AfterResult(c: Config, s: Counters, succeeds: bool, now: int): Counters {
    var s' := s.(requests := s.requests + 1);
    if succeeds then AfterSuccess(c, s') else AfterFailure(c, s', now)
  }

  predicate Admitted(c: Config, s: Counters, call: Call) {
    Admit(c, s, call.at).1
  }

  function AfterCall(c: Config, s: Counters, call: Call): Counters {
    var (s', ok) := Admit(c, s, call.at);
    if ok then AfterResult(c, s', call.succeeds, call.doneAt) else s'
  }

  function Run(c: Config, s: Counters, calls: seq<Call>): Counters
    decreases |calls|
  {
    if calls == [] then s else Run(c, AfterCall(c, s, calls[0]), calls[1..])
  }

  // ---------------------------------------------------------------- the object

  class Breaker {
    const config: Config
    var state: State
    var failures: int
    var requests: int
    var successiveSuccesses: int
    var lastFailureTime: int

    function Snapshot(): Counters
      reads this
    {
      Counters(state, failures, requests, successiveSuccesses, lastFailureTime)
    }

    constructor (config: Config)
      ensures this.config == config && Snapshot() == FRESH
    {
      this.config := config;
      state, failures, requests, successiveSuccesses, lastFailureTime := Closed, 0, 0, 0, 0;
    }

    method CanExecute(now: int) returns (ok: bool)
      modifies this
      ensures (Snapshot(), ok) == Admit(config, old(Snapshot()), now)
    {
      match state {
        case Closed => ok := true;
        case Open =>
          if now - lastFailureTime >= config.timeout {
            state := HalfOpen;
            successiveSuccesses := 0;
            ok := true;
          } else {
            ok := false;
          }
        case HalfOpen => ok := requests < config.maxRequests;
      }
    }

    method RecordFailure(now: int)
      modifies this
      ensures Snapshot() == AfterFailure(config, old(Snapshot()), now)
    {
      failures := failures + 1;
      lastFailureTime := now;
      successiveSuccesses := 0;
      match state {
        case Closed =>
          if ShouldOpen(config, failures, requests) {
            state := Open;
          }
        case Open =>
        case HalfOpen => state := Open;
      }
    }

    method RecordSuccess()
      modifies this
      ensures Snapshot() == AfterSuccess(config, old(Snapshot()))
    {
      successiveSuccesses := successiveSuccesses + 1;
      if state == HalfOpen && successiveSuccesses >= config.maxRequests {
        state := Closed;
        failures := 0;
        requests := 0;
      }
    }

    method RecordResult(succeeds: bool, now: int)
      modifies this
      ensures Snapshot() == AfterResult(config, old(Snapshot()), succeeds, now)
    {
      requests := requests + 1;
      if succeeds {
        RecordSuccess();
      } else {
        RecordFailure(now);
      }
    }

    // `admitted` is false exactly when the caller gets the "circuit breaker is open" error.
    method Execute(call: Call) returns (admitted: bool)
      modifies this
      ensures admitted == Admitted(config, old(Snapshot()), call)
      ensures Snapshot() == AfterCall(config, old(Snapshot()), call)
    {
      admitted := CanExecute(call.at);
      if admitted {
        RecordResult(call.succeeds, call.doneAt);
      }
    }
  }

  // ---------------------------------------------------------------- what every run keeps

  // `requests` is never reset on the way to half-open, so it stays ahead of the successes.
  ghost predicate Inv(c: Config, s: Counters) {
    && 0 <= s.failures <= s.requests
    && 0 <= s.successes
    && (s.state != Closed ==> s.requests >= 1)
    && (s.state == HalfOpen ==> s.requests >= 1 + s.successes && c.maxRequests >= 2)
  }

  lemma {:induction false} RunKeepsInv(c: Config, s: Counters, calls: seq<Call>)
    requires Inv(c, s)
    ensures Inv(c, Run(c, s, calls))
    decreases |calls|
  {
    if calls != [] {
      RunKeepsInv(c, AfterCall(c, s, calls[0]), calls[1..]);
    }
  }

  lemma {:induction false} RunAppend(c: Config, s: Counters, a: seq<Call>, b: seq<Call>)
    ensures Run(c, s, a + b) == Run(c, Run(c, s, a), b)
    decreases |a|
  {
    if a == [] {
      assert a + b == b;
    } else {
      assert (a + b)[1..] == a[1..] + b;
      RunAppend(c, AfterCall(c, s, a[0]), a[1..], b);
    }
  }

  // ---------------------------------------------------------------- recovery

  // With MaxRequests of 2 or more, no run of any length closes a breaker that is not closed.
  lemma {:induction false} StaysTripped(c: Config, s: Counters, calls: seq<Call>)
    requires Inv(c, s) && s.state != Closed
    requires c.maxRequests >= 2
    ensures Run(c, s, calls).state != Closed
    decreases |calls|
  {
    if calls != [] {
      StaysTripped(c, AfterCall(c, s, calls[0]), calls[1..]);
    }
  }

  // After any history that leaves the breaker tripped, some continuation closes it again
  // exactly when MaxRequests is at most 1.
  lemma RecoveryIff(c: Config, history: seq<Call>)
    requires Run(c, FRESH, history).state != Closed
    ensures (exists more: seq<Call> :: Run(c, FRESH, history + more).state == Closed) <==> c.maxRequests <= 1
  {
    var s := Run(c, FRESH, history);
    RunKeepsInv(c, FRESH, history);
    if c.maxRequests <= 1 {
      var probe := Call(s.lastFailure + c.timeout, true, 0);
      RunAppend(c, FRESH, history, [probe]);
      assert Run(c, s, [probe]) == Run(c, AfterCall(c, s, probe), []);
    } else {
      forall more: seq<Call>
        ensures Run(c, FRESH, history + more).state != Closed
      {
        RunAppend(c, FRESH, history, more);
        StaysTripped(c, s, more);
      }
    }
  }

  predicate Dead(c: Config, s: Counters) {
    s.state == HalfOpen && s.requests >= c.maxRequests
  }

  // A dead breaker rejects every later call and never changes again.
  lemma {:induction false} DeadForever(c: Config, s: Counters, calls: seq<Call>)
    requires Dead(c, s)
    ensures Run(c, s, calls) == s
    ensures forall call :: call in calls ==> !Admitted(c, s, call)
    decreases |calls|
  {
    if calls != [] {
      DeadForever(c, s, calls[1..]);
      assert calls == [calls[0]] + calls[1..];
    }
  }

  function Successes(c: Config, s: Counters, calls: seq<Call>): nat
    decreases |calls|
  {
    if calls == [] then 0 else
      (if Admitted(c, s, calls[0]) && calls[0].succeeds then 1 else 0)
      + Successes(c, AfterCall(c, s, calls[0]), calls[1..])
  }

  // How many calls can still succeed once the breaker is not closed.
  function SuccessesLeft(c: Config, s: Counters): int {
    Max(if s.state == Open then 1 else 0, c.maxRequests - s.requests)
  }

  // With MaxRequests of 2 or more, only finitely many calls ever succeed after a trip, and
  // using up that number leaves the breaker dead.
  lemma {:induction false} SuccessesAfterTrip(c: Config, s: Counters, calls: seq<Call>)
    requires Inv(c, s) && s.state != Closed
    requires c.maxRequests >= 2
    ensures Successes(c, s, calls) <= SuccessesLeft(c, s)
    ensures Successes(c, s, calls) == SuccessesLeft(c, s) ==> Dead(c, Run(c, s, calls))
    decreases |calls|
  {
    if calls != [] {
      var s' := AfterCall(c, s, calls[0]);
      SuccessesAfterTrip(c, s', calls[1..]);
    }
  }

  // The bound is attained: probing with successes alone uses it up.
  lemma {:induction false} SuccessesAttained(c: Config, s: Counters) returns (calls: seq<Call>)
    requires Inv(c, s) && s.state != Closed
    requires c.maxRequests >= 2
    ensures Successes(c, s, calls) == SuccessesLeft(c, s)
    decreases SuccessesLeft(c, s)
  {
    if SuccessesLeft(c, s) == 0 {
      calls := [];
    } else {
      var probe := Call(s.lastFailure + c.timeout, true, 0);
      var rest := SuccessesAttained(c, AfterCall(c, s, probe));
      calls := [probe] + rest;
      assert calls[1..] == rest;
    }
  }

  // ---------------------------------------------------------------- requests per call

  // When an admitted call adds exactly one to the requests, whatever its outcome: unless it is the
  // probe of an open breaker that a single success closes, which starts the count afresh.
  lemma AddsOneRequestIff(c: Config, s: Counters, at: int)
    requires Inv(c, s) && Admit(c, s, at).1
    ensures (forall ok: bool, doneAt: int :: AddsOneRequest(c, s, Call(at, ok, doneAt)))
       <==> s.state != Open || c.maxRequests >= 2
  {
    if s.state == Open && c.maxRequests <= 1 {
      assert !AddsOneRequest(c, s, Call(at, true, 0));
    }
  }

  predicate AddsOneRequest(c: Config, s: Counters, call: Call) {
    AfterCall(c, s, call).requests == s.requests + 1
  }

  // A trip needs MaxFailures failures or MinRequests requests, and `requests` never falls below that
  // while the breaker is not closed.
  lemma {:induction false} RunKeepsTripFloor(c: Config, s: Counters, calls: seq<Call>)
    requires Inv(c, s) && (s.state != Closed ==> s.requests >= Min(c.maxFailures, c.minRequests))
    ensures var s' := Run(c, s, calls); s'.state != Closed ==> s'.requests >= Min(c.maxFailures, c.minRequests)
    decreases |calls|
  {
    if calls != [] {
      RunKeepsTripFloor(c, AfterCall(c, s, calls[0]), calls[1..]);
    }
  }

  // The default breaker, however it was tripped, lets at most one more call succeed, ever.
  lemma DefaultBreakerServesOnceAfterTrip(history: seq<Call>, more: seq<Call>)
    requires Run(DEFAULT_CONFIG, FRESH, history).state != Closed
    ensures Successes(DEFAULT_CONFIG, Run(DEFAULT_CONFIG, FRESH, history), more) <= 1
  {
    RunKeepsInv(DEFAULT_CONFIG, FRESH, history);
    RunKeepsTripFloor(DEFAULT_CONFIG, FRESH, history);
    SuccessesAfterTrip(DEFAULT_CONFIG, Run(DEFAULT_CONFIG, FRESH, history), more);
  }

  // The breaker meant to be always closed opens on its first failure: its zero MinRequests and
  // zero FailureRatio satisfy the ratio test at once.
  lemma DisabledBreakerTrips(history: seq<Call>, call: Call)
    requires forall h :: h in history ==> h.succeeds
    requires !call.succeeds
    ensures Run(DISABLED_CONFIG, FRESH, history + [call]).state == Open
  {
    AllSuccessesStayClosed(DISABLED_CONFIG, FRESH, history);
    RunAppend(DISABLED_CONFIG, FRESH, history, [call]);
    var s := Run(DISABLED_CONFIG, FRESH, history);
    assert Run(DISABLED_CONFIG, s, [call]) == Run(DISABLED_CONFIG, AfterCall(DISABLED_CONFIG, s, call), []);
  }

  // Hence it is always closed exactly as long as nothing fails.
  lemma DisabledStaysClosedIff(calls: seq<Call>)
    ensures (forall k :: 0 <= k <= |calls| ==> Run(DISABLED_CONFIG, FRESH, calls[..k]).state == Closed)
       <==> (forall h :: h in calls ==> h.succeeds)
  {
    if forall h :: h in calls ==> h.succeeds {
      forall k | 0 <= k <= |calls|
        ensures Run(DISABLED_CONFIG, FRESH, calls[..k]).state == Closed
      {
        AllSuccessesStayClosed(DISABLED_CONFIG, FRESH, calls[..k]);
      }
    } else {
      var k := FirstFailure(calls);
      DisabledBreakerTrips(calls[..k], calls[k]);
      assert calls[..k + 1] == calls[..k] + [calls[k]];
    }
  }

  lemma FirstFailure(calls: seq<Call>) returns (k: nat)
    requires exists h :: h in calls && !h.succeeds
    ensures k < |calls| && !calls[k].succeeds && forall h :: h in calls[..k] ==> h.succeeds
  {
    k := 0;
    while calls[k].succeeds
      invariant k < |calls| && forall h :: h in calls[..k] ==> h.succeeds
      invariant exists h :: h in calls[k..] && !h.succeeds
      decreases |calls| - k
    {
      assert calls[k..] == [calls[k]] + calls[k + 1..];
      assert calls[..k + 1] == calls[..k] + [calls[k]];
      k := k + 1;
    }
  }

  lemma {:induction false} AllSuccessesStayClosed(c: Config, s: Counters, calls: seq<Call>)
    requires s.state == Closed && s.requests >= 0 && s.failures >= 0
    requires forall h :: h in calls ==> h.succeeds
    ensures Run(c, s, calls).state == Closed && Run(c, s, calls).requests == s.requests + |calls|
    ensures Run(c, s, calls).failures == s.failures
    decreases |calls|
  {
    if calls != [] {
      AllSuccessesStayClosed(c, AfterCall(c, s, calls[0]), calls[1..]);
    }
  }
}
