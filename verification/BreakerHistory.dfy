/** What the counters of a breaker say about its history, and how that history alone decides which
    calls run and which state the breaker is in. Nothing here looks inside a call: a history is a
    sequence of calls, which of them ran, and the states in between.
  */
module BreakerHistory {
  import opened CircuitBreaker

  // ---------------------------------------------------------------- histories

  function StateAfter(c: Config, calls: seq<Call>): State {
    Run(c, FRESH, calls).state
  }

  // Whether a call runs that comes after these.
  predicate Runs(c: Config, calls: seq<Call>, call: Call) {
    Admitted(c, Run(c, FRESH, calls), call)
  }

  // When the last call ended that ran and failed.
  function LastFailure(c: Config, calls: seq<Call>): int
    decreases |calls|
  {
    if calls == [] then 0 else
      var before, last := calls[..|calls| - 1], calls[|calls| - 1];
      if Runs(c, before, last) && !last.succeeds then last.doneAt else LastFailure(c, before)
  }

  // The last call has closed the breaker.
  predicate JustClosed(c: Config, calls: seq<Call>) {
    calls != [] && StateAfter(c, calls[..|calls| - 1]) != Closed && StateAfter(c, calls) == Closed
  }

  // How many calls have run, and how many of them failed, since the breaker was last closed again.
  function RequestsSince(c: Config, calls: seq<Call>): nat
    decreases |calls|
  {
    if calls == [] || JustClosed(c, calls) then 0 else
      var before := calls[..|calls| - 1];
      RequestsSince(c, before) + if Runs(c, before, calls[|calls| - 1]) then 1 else 0
  }

  function FailuresSince(c: Config, calls: seq<Call>): nat
    decreases |calls|
  {
    if calls == [] || JustClosed(c, calls) then 0 else
      var before, last := calls[..|calls| - 1], calls[|calls| - 1];
      FailuresSince(c, before) + if Runs(c, before, last) && !last.succeeds then 1 else 0
  }

  lemma LastCall(c: Config, calls: seq<Call>)
    requires calls != []
    ensures Run(c, FRESH, calls) == AfterCall(c, Run(c, FRESH, calls[..|calls| - 1]), calls[|calls| - 1])
  {
    var before, last := calls[..|calls| - 1], calls[|calls| - 1];
    assert calls == before + [last];
    RunAppend(c, FRESH, before, [last]);
    var s := Run(c, FRESH, before);
    assert Run(c, s, [last]) == Run(c, AfterCall(c, s, last), []);
  }

  // Three of the counters are numbers that can be read off the history.
  lemma {:induction false} CountersAreHistory(c: Config, calls: seq<Call>)
    ensures var s := Run(c, FRESH, calls);
      && s.requests == RequestsSince(c, calls)
      && s.failures == FailuresSince(c, calls)
      && s.lastFailure == LastFailure(c, calls)
    decreases |calls|
  {
    if calls != [] {
      CountersAreHistory(c, calls[..|calls| - 1]);
      LastCall(c, calls);
    }
  }

  // ---------------------------------------------------------------- what history decides

  // A closed breaker lets every call run; an open one exactly those that come at least the timeout
  // after the last failure; and a half-open one as long as fewer than MaxRequests calls have run
  // since it was last closed.
  lemma RunsIff(c: Config, calls: seq<Call>, call: Call)
    ensures StateAfter(c, calls) == Closed ==> Runs(c, calls, call)
    ensures StateAfter(c, calls) == Open ==> (Runs(c, calls, call) <==> call.at >= LastFailure(c, calls) + c.timeout)
    ensures StateAfter(c, calls) == HalfOpen ==> (Runs(c, calls, call) <==> RequestsSince(c, calls) < c.maxRequests)
  {
    CountersAreHistory(c, calls);
  }

  // So many failures among so many requests trip a closed breaker.
  predicate Trips(c: Config, failures: nat, requests: nat) {
    || failures >= c.maxFailures
    || (requests >= c.minRequests && failures as real >= c.failureRatio * requests as real)
  }

  lemma RatioIff(failures: nat, requests: nat, ratio: real)
    requires requests >= 1
    ensures failures as real / requests as real >= ratio <==> failures as real >= ratio * requests as real
  {
    var q := failures as real / requests as real;
    assert q * requests as real == failures as real;
    if q >= ratio {
      assert (q - ratio) * requests as real >= 0.0;
      assert (q - ratio) * requests as real == q * requests as real - ratio * requests as real;
    } else {
      assert (ratio - q) * requests as real > 0.0;
      assert (ratio - q) * requests as real == ratio * requests as real - q * requests as real;
    }
  }

  lemma ShouldOpenIff(c: Config, failures: nat, requests: nat)
    requires requests >= 1
    ensures ShouldOpen(c, failures, requests) <==> Trips(c, failures, requests)
  {
    RatioIff(failures, requests, c.failureRatio);
  }

  lemma NextStateOf(c: Config, s: Counters, call: Call)
    requires Inv(c, s)
    ensures AfterCall(c, s, call).state ==
      if !Admitted(c, s, call) then s.state
      else if s.state != Closed then
        (if !call.succeeds then Open else if c.maxRequests <= 1 then Closed else HalfOpen)
      else if !call.succeeds && ShouldOpen(c, s.failures + 1, s.requests + 1) then Open
      else Closed
  {
  }

  // A call that does not run changes no state. A failure opens every breaker that is not closed, and
  // a closed one when there are enough of them. A success leaves a closed breaker closed, and closes
  // any other if MaxRequests is at most 1; otherwise that one is half-open afterwards.
  lemma NextState(c: Config, calls: seq<Call>, call: Call)
    ensures var before, after := StateAfter(c, calls), StateAfter(c, calls + [call]);
      after ==
        if !Runs(c, calls, call) then before
        else if before != Closed then
          (if !call.succeeds then Open else if c.maxRequests <= 1 then Closed else HalfOpen)
        else if !call.succeeds && Trips(c, FailuresSince(c, calls) + 1, RequestsSince(c, calls) + 1) then Open
        else Closed
  {
    var s, all := Run(c, FRESH, calls), calls + [call];
    assert all[..|all| - 1] == calls;
    LastCall(c, all);
    RunKeepsInv(c, FRESH, calls);
    CountersAreHistory(c, calls);
    NextStateOf(c, s, call);
    ShouldOpenIff(c, FailuresSince(c, calls) + 1, RequestsSince(c, calls) + 1);
  }
}
