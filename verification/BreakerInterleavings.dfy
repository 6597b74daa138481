/** The circuit breaker of internal/errors shared by any number of goroutines.

    Every atomic load, store, add and compare-and-swap of the source is one step of one goroutine.
    A schedule says which goroutine moves next, what the clock reads and how the protected function
    ends; since every result here is for all schedules, it is for all interleavings.
  */
module BreakerInterleavings {
  import opened CircuitBreaker

  // Where a goroutine stands in `Execute`; each value is named after the atomic operation it does next.
  datatype PC =
    | LoadState                              // not in a call
    | LoadLastFailure
    | CasOpenHalfOpen
    | ResetSuccesses
    | LoadRequests
    | Running                                // the protected function is running
    | AddRequest(succeeded: bool)
    | AddFailure
    | StoreLastFailure
    | ZeroSuccesses
    | LoadStateAfterFailure
    | LoadFailures
    | LoadRequestsForRatio(failures: int)
    | CasClosedOpen
    | CasHalfOpenOpen
    | AddSuccess
    | LoadStateAfterSuccess(successes: int)
    | CasHalfOpenClosed
    | ZeroFailures
    | ZeroRequests

  datatype System = System(shared: Counters, goroutines: seq<PC>, resets: nat)

  // `resets` counts the swaps from half-open to closed; the program does not see it.
  datatype Tick = Tick(who: nat, now: int, succeeds: bool)

  function Move(c: Config, m: Counters, pc: PC, now: int, succeeds: bool): (Counters, PC) {
    match pc
    case LoadState =>
      (m, match m.state case Closed => Running case Open => LoadLastFailure case HalfOpen => LoadRequests)
    case LoadLastFailure => (m, if Elapsed(c, m, now) then CasOpenHalfOpen else LoadState)
    case CasOpenHalfOpen =>
      // A goroutine that loses the swap is admitted all the same.
      if m.state == Open then (m.(state := HalfOpen), ResetSuccesses) else (m, Running)
    case ResetSuccesses => (m.(successes := 0), Running)
    case LoadRequests => (m, if m.requests < c.maxRequests then Running else LoadState)
    case Running => (m, AddRequest(succeeds))
    case AddRequest(ok) => (m.(requests := m.requests + 1), if ok then AddSuccess else AddFailure)
    case AddFailure => (m.(failures := m.failures + 1), StoreLastFailure)
    case StoreLastFailure => (m.(lastFailure := now), ZeroSuccesses)
    case ZeroSuccesses => (m.(successes := 0), LoadStateAfterFailure)
    case LoadStateAfterFailure =>
      (m, match m.state case Closed => LoadFailures case Open => LoadState case HalfOpen => CasHalfOpenOpen)
    case LoadFailures => (m, LoadRequestsForRatio(m.failures))
    case LoadRequestsForRatio(f) => (m, if ShouldOpen(c, f, m.requests) then CasClosedOpen else LoadState)
    case CasClosedOpen => (if m.state == Closed then m.(state := Open) else m, LoadState)
    case CasHalfOpenOpen => (if m.state == HalfOpen then m.(state := Open) else m, LoadState)
    case AddSuccess => (m.(successes := m.successes + 1), LoadStateAfterSuccess(m.successes + 1))
    case LoadStateAfterSuccess(n) =>
      (m, if m.state == HalfOpen && n >= c.maxRequests then CasHalfOpenClosed else LoadState)
    case CasHalfOpenClosed =>
      if m.state == HalfOpen then (m.(state := Closed), ZeroFailures) else (m, LoadState)
    case ZeroFailures => (m.(failures := 0), ZeroRequests)
    case ZeroRequests => (m.(requests := 0), LoadState)
  }

  function Step(c: Config, s: System, t: Tick): System {
    if t.who < |s.goroutines| then
      var (m, pc) := Move(c, s.shared, s.goroutines[t.who], t.now, t.succeeds);
      System(m, s.goroutines[t.who := pc], if pc == ZeroFailures then s.resets + 1 else s.resets)
    else s
  }

  function Run(c: Config, s: System, schedule: seq<Tick>): System
    decreases |schedule|
  {
    if schedule == [] then s else Run(c, Step(c, s, schedule[0]), schedule[1..])
  }

  // `n` goroutines that are not in a call.
  function Idle(m: Counters, n: nat): System {
    System(m, seq(n, _ => LoadState), 0)
  }

  function Start(n: nat): System {
    Idle(FRESH, n)
  }

  lemma {:induction false} RunAppend(c: Config, s: System, a: seq<Tick>, b: seq<Tick>)
    ensures Run(c, s, a + b) == Run(c, Run(c, s, a), b)
    decreases |a|
  {
    if a == [] {
      assert a + b == b;
    } else {
      assert (a + b)[1..] == a[1..] + b;
      RunAppend(c, Step(c, s, a[0]), a[1..], b);
    }
  }

  // ---------------------------------------------------------------- the state machine

  // The states the breaker goes through, one entry before each step and one at the end.
  function History(c: Config, s: System, schedule: seq<Tick>): (h: seq<State>)
    ensures |h| == |schedule| + 1 && h[0] == s.shared.state
    decreases |schedule|
  {
    [s.shared.state] + if schedule == [] then [] else History(c, Step(c, s, schedule[0]), schedule[1..])
  }

  predicate Edge(a: State, b: State) {
    a == b || (a == Closed && b == Open) || (a == Open && b == HalfOpen) || (a == HalfOpen && b != HalfOpen)
  }

  predicate IsPath(h: seq<State>) {
    forall k :: 0 < k < |h| ==> Edge(h[k - 1], h[k])
  }

  lemma {:induction false} HistoryIsAPath(c: Config, s: System, schedule: seq<Tick>)
    ensures IsPath(History(c, s, schedule))
    decreases |schedule|
  {
    if schedule != [] {
      var s' := Step(c, s, schedule[0]);
      HistoryIsAPath(c, s', schedule[1..]);
      assert Edge(s.shared.state, s'.shared.state);
      var h, t := History(c, s, schedule), History(c, s', schedule[1..]);
      assert h == [s.shared.state] + t;
    }
  }

  // ---------------------------------------------------------------- the dead state

  // Goroutines that are outside a call, or inside one that a dead breaker is about to reject.
  predicate NoneAdmitted(s: System) {
    forall i :: 0 <= i < |s.goroutines| ==> s.goroutines[i] in {LoadState, LoadRequests}
  }

  lemma {:induction false} DeadIsAbsorbing(c: Config, s: System, schedule: seq<Tick>)
    requires Dead(c, s.shared) && NoneAdmitted(s)
    ensures var s' := Run(c, s, schedule); s'.shared == s.shared && NoneAdmitted(s') && s'.resets == s.resets
    decreases |schedule|
  {
    if schedule != [] {
      DeadIsAbsorbing(c, Step(c, s, schedule[0]), schedule[1..]);
    }
  }

  // ---------------------------------------------------------------- failures and requests

  // Goroutines that have added their request and not yet their failure.
  function Owing(goroutines: seq<PC>): nat {
    if goroutines == [] then 0
    else (if goroutines[|goroutines| - 1].AddFailure? then 1 else 0) + Owing(goroutines[..|goroutines| - 1])
  }

  lemma {:induction false} OwingUpdate(g: seq<PC>, i: nat, pc: PC)
    requires i < |g|
    ensures Owing(g[i := pc]) == Owing(g) - (if g[i].AddFailure? then 1 else 0) + (if pc.AddFailure? then 1 else 0)
  {
    var n := |g| - 1;
    if i == n {
      assert g[i := pc][..n] == g[..n];
    } else {
      assert g[i := pc][..n] == g[..n][i := pc];
      OwingUpdate(g[..n], i, pc);
    }
  }

  lemma {:induction false} OwingNone(g: seq<PC>)
    requires forall i :: 0 <= i < |g| ==> !g[i].AddFailure?
    ensures Owing(g) == 0
  {
    if g != [] {
      OwingNone(g[..|g| - 1]);
    }
  }

  ghost predicate Books(s: System) {
    s.resets == 0 ==>
      && s.shared.failures + Owing(s.goroutines) <= s.shared.requests
      && forall i :: 0 <= i < |s.goroutines| ==> s.goroutines[i] !in {ZeroFailures, ZeroRequests}
  }

  lemma {:induction false} RunKeepsBooks(c: Config, s: System, schedule: seq<Tick>)
    requires Books(s)
    ensures Books(Run(c, s, schedule))
    decreases |schedule|
  {
    if schedule != [] {
      var t := schedule[0];
      if t.who < |s.goroutines| {
        var (m, pc) := Move(c, s.shared, s.goroutines[t.who], t.now, t.succeeds);
        OwingUpdate(s.goroutines, t.who, pc);
      }
      RunKeepsBooks(c, Step(c, s, t), schedule[1..]);
    }
  }

  // As long as the breaker has not gone back to closed, no interleaving makes it count more
  // failures than requests.
  lemma FailuresWithinRequestsUntilReset(c: Config, n: nat, schedule: seq<Tick>)
    ensures var s := Run(c, Start(n), schedule); s.resets == 0 ==> s.shared.failures <= s.shared.requests
  {
    OwingNone(Start(n).goroutines);
    RunKeepsBooks(c, Start(n), schedule);
  }

  // ---------------------------------------------------------------- the timeout

  // The goroutine that moves stands here.
  predicate At(s: System, t: Tick, pc: PC) {
    t.who < |s.goroutines| && s.goroutines[t.who] == pc
  }

  // When a failure was stored last, by whichever goroutine.
  function LastStored(c: Config, s: System, schedule: seq<Tick>): int
    decreases |schedule|
  {
    if schedule == [] then s.shared.lastFailure else
      var before, t := schedule[..|schedule| - 1], schedule[|schedule| - 1];
      if At(Run(c, s, before), t, StoreLastFailure) then t.now else LastStored(c, s, before)
  }

  lemma LastTick(c: Config, s: System, schedule: seq<Tick>, t: Tick)
    ensures Run(c, s, schedule + [t]) == Step(c, Run(c, s, schedule), t)
  {
    RunAppend(c, s, schedule, [t]);
    var s' := Run(c, s, schedule);
    assert Run(c, s', [t]) == Run(c, Step(c, s', t), []);
  }

  lemma StepStores(c: Config, s: System, t: Tick)
    ensures Step(c, s, t).shared.lastFailure == if At(s, t, StoreLastFailure) then t.now else s.shared.lastFailure
  {
  }

  lemma {:induction false} LastFailureIsLastStored(c: Config, s: System, schedule: seq<Tick>)
    ensures Run(c, s, schedule).shared.lastFailure == LastStored(c, s, schedule)
    decreases |schedule|
  {
    if schedule != [] {
      var before, t := schedule[..|schedule| - 1], schedule[|schedule| - 1];
      assert schedule == before + [t];
      LastFailureIsLastStored(c, s, before);
      LastTick(c, s, before, t);
      StepStores(c, Run(c, s, before), t);
    }
  }

  // Under every schedule: a call that finds the breaker open goes on to the swap, and from there into
  // the protected function, exactly if the timeout has passed since the last failure stored.
  lemma TimeoutIff(c: Config, s: System, schedule: seq<Tick>, t: Tick)
    requires At(Run(c, s, schedule), t, LoadLastFailure)
    ensures var after := Run(c, s, schedule + [t]);
      if t.now >= LastStored(c, s, schedule) + c.timeout then At(after, t, CasOpenHalfOpen) else At(after, t, LoadState)
  {
    LastFailureIsLastStored(c, s, schedule);
    LastTick(c, s, schedule, t);
  }

  lemma SwapAdmits(c: Config, s: System, schedule: seq<Tick>, t: Tick)
    requires At(Run(c, s, schedule), t, CasOpenHalfOpen) || At(Run(c, s, schedule), t, ResetSuccesses)
    ensures var before, after := Run(c, s, schedule), Run(c, s, schedule + [t]);
      if At(before, t, CasOpenHalfOpen) && before.shared.state == Open then At(after, t, ResetSuccesses)
      else At(after, t, Running)
  {
    LastTick(c, s, schedule, t);
  }

  // ---------------------------------------------------------------- who changes the state

  // Under every schedule the state changes exactly if a goroutine stands at a swap whose expected
  // state it is, and then to what that swap says. A swap that is too late changes nothing.
  lemma SwapIff(c: Config, s: System, t: Tick)
    ensures var before, after := s.shared.state, Step(c, s, t).shared.state;
      after ==
        if At(s, t, CasOpenHalfOpen) && before == Open then HalfOpen
        else if At(s, t, CasClosedOpen) && before == Closed then Open
        else if At(s, t, CasHalfOpenOpen) && before == HalfOpen then Open
        else if At(s, t, CasHalfOpenClosed) && before == HalfOpen then Closed
        else before
  {
  }

  // The decision to open rests on the failures loaded before and the requests loaded now; the decision
  // to close on the goroutine's own count of successes, not on the present one.
  lemma DecidesOnOwnCounts(c: Config, s: System, t: Tick, n: int)
    ensures At(s, t, LoadFailures) ==> At(Step(c, s, t), t, LoadRequestsForRatio(s.shared.failures))
    ensures At(s, t, LoadRequestsForRatio(n)) ==>
      At(Step(c, s, t), t, if ShouldOpen(c, n, s.shared.requests) then CasClosedOpen else LoadState)
    ensures At(s, t, AddSuccess) ==> At(Step(c, s, t), t, LoadStateAfterSuccess(s.shared.successes + 1))
    ensures At(s, t, LoadStateAfterSuccess(n)) ==>
      At(Step(c, s, t), t,
        if s.shared.state == HalfOpen && n >= c.maxRequests then CasHalfOpenClosed else LoadState)
  {
  }

  // ---------------------------------------------------------------- one goroutine alone

  // Steps left in the current call, at most.
  function Rank(pc: PC): nat {
    match pc
    case LoadState => 0
    case LoadLastFailure => 14
    case CasOpenHalfOpen => 13
    case ResetSuccesses => 12
    case LoadRequests => 12
    case Running => 11
    case AddRequest(_) => 10
    case AddFailure => 9
    case StoreLastFailure => 8
    case ZeroSuccesses => 7
    case LoadStateAfterFailure => 6
    case LoadFailures => 5
    case LoadRequestsForRatio(_) => 4
    case CasClosedOpen => 3
    case CasHalfOpenOpen => 3
    case AddSuccess => 6
    case LoadStateAfterSuccess(_) => 5
    case CasHalfOpenClosed => 4
    case ZeroFailures => 3
    case ZeroRequests => 2
  }

  predicate Admitting(pc: PC) {
    pc in {LoadState, LoadLastFailure, CasOpenHalfOpen, ResetSuccesses, LoadRequests}
  }

  function TickFor(i: nat, pc: PC, call: Call): Tick {
    Tick(i, if Admitting(pc) then call.at else call.doneAt, call.succeeds)
  }

  // Goroutine `i` moves, and no other does, until its call is over.
  function Finish(c: Config, s: System, i: nat, call: Call): seq<Tick>
    requires i < |s.goroutines|
    decreases Rank(s.goroutines[i])
  {
    if s.goroutines[i] == LoadState then [] else
      var t := TickFor(i, s.goroutines[i], call);
      [t] + Finish(c, Step(c, s, t), i, call)
  }

  function Solo(c: Config, s: System, i: nat, call: Call): seq<Tick>
    requires i < |s.goroutines|
  {
    var t := TickFor(i, s.goroutines[i], call);
    [t] + Finish(c, Step(c, s, t), i, call)
  }

  // The counters left behind by a goroutine at `pc` that moves undisturbed, at the end of its call.
  function Drive(c: Config, m: Counters, pc: PC, call: Call): (Counters, PC)
    decreases Rank(pc)
  {
    if pc == LoadState then (m, pc) else
      var (m', pc') := Move(c, m, pc, if Admitting(pc) then call.at else call.doneAt, call.succeeds);
      Drive(c, m', pc', call)
  }

  // One step of goroutine `i` is one step of what it does on its own.
  lemma StepDrives(c: Config, s: System, i: nat, call: Call) returns (s': System)
    requires i < |s.goroutines| && s.goroutines[i] != LoadState
    ensures |s'.goroutines| == |s.goroutines| && Rank(s'.goroutines[i]) < Rank(s.goroutines[i])
    ensures Run(c, s, Finish(c, s, i, call)) == Run(c, s', Finish(c, s', i, call))
    ensures Drive(c, s.shared, s.goroutines[i], call) == Drive(c, s'.shared, s'.goroutines[i], call)
    ensures var end := Drive(c, s'.shared, s'.goroutines[i], call).1;
            s'.goroutines[i := end] == s.goroutines[i := end]
  {
    var t := TickFor(i, s.goroutines[i], call);
    s' := Step(c, s, t);
    assert Finish(c, s, i, call) == [t] + Finish(c, s', i, call);
  }

  lemma {:induction false} FinishDrives(c: Config, s: System, i: nat, call: Call)
    requires i < |s.goroutines|
    ensures var s' := Run(c, s, Finish(c, s, i, call));
            var (m, pc) := Drive(c, s.shared, s.goroutines[i], call);
            s'.shared == m && s'.goroutines == s.goroutines[i := pc]
    decreases Rank(s.goroutines[i])
  {
    if s.goroutines[i] != LoadState {
      var s' := StepDrives(c, s, i, call);
      FinishDrives(c, s', i, call);
    }
  }

  // A failure, once it is counted.
  lemma DriveDecision(c: Config, m: Counters, call: Call)
    ensures var opens := m.state == HalfOpen || (m.state == Closed && ShouldOpen(c, m.failures, m.requests));
      Drive(c, m, LoadStateAfterFailure, call) == (if opens then m.(state := Open) else m, LoadState)
  {
    var end := Drive(c, m, LoadStateAfterFailure, call);
    match m.state {
      case Closed =>
        assert end == Drive(c, m, LoadFailures, call);
        assert end == Drive(c, m, LoadRequestsForRatio(m.failures), call);
        if ShouldOpen(c, m.failures, m.requests) {
          assert end == Drive(c, m, CasClosedOpen, call);
        }
      case Open =>
      case HalfOpen =>
        assert end == Drive(c, m, CasHalfOpenOpen, call);
    }
  }

  // The three stores of a failure.
  lemma DriveStores(c: Config, m: Counters, call: Call)
    ensures var m' := m.(failures := m.failures + 1, lastFailure := call.doneAt, successes := 0);
      Drive(c, m, AddFailure, call) == Drive(c, m', LoadStateAfterFailure, call)
  {
    var m1 := m.(failures := m.failures + 1);
    var m2 := m1.(lastFailure := call.doneAt);
    assert Drive(c, m, AddFailure, call) == Drive(c, m1, StoreLastFailure, call);
    assert Drive(c, m1, StoreLastFailure, call) == Drive(c, m2, ZeroSuccesses, call);
  }

  lemma DriveFailure(c: Config, m: Counters, call: Call)
    ensures Drive(c, m, AddFailure, call) == (AfterFailure(c, m, call.doneAt), LoadState)
  {
    DriveStores(c, m, call);
    DriveDecision(c, m.(failures := m.failures + 1, lastFailure := call.doneAt, successes := 0), call);
  }

  // A success that closes the breaker.
  lemma DriveClosing(c: Config, m: Counters, call: Call)
    requires m.state == HalfOpen
    ensures Drive(c, m, CasHalfOpenClosed, call) == (m.(state := Closed, failures := 0, requests := 0), LoadState)
  {
    var m1 := m.(state := Closed);
    var m2 := m1.(failures := 0);
    assert Drive(c, m, CasHalfOpenClosed, call) == Drive(c, m1, ZeroFailures, call);
    assert Drive(c, m1, ZeroFailures, call) == Drive(c, m2, ZeroRequests, call);
  }

  lemma DriveCounted(c: Config, m: Counters, n: int, call: Call)
    ensures Drive(c, m, LoadStateAfterSuccess(n), call) ==
      if m.state == HalfOpen && n >= c.maxRequests then Drive(c, m, CasHalfOpenClosed, call) else (m, LoadState)
  {
  }

  lemma DriveSuccess(c: Config, m: Counters, call: Call)
    ensures Drive(c, m, AddSuccess, call) == (AfterSuccess(c, m), LoadState)
  {
    var m1 := m.(successes := m.successes + 1);
    assert Drive(c, m, AddSuccess, call) == Drive(c, m1, LoadStateAfterSuccess(m1.successes), call);
    DriveCounted(c, m1, m1.successes, call);
    if m1.state == HalfOpen && m1.successes >= c.maxRequests {
      DriveClosing(c, m1, call);
    }
  }

  lemma DriveRunning(c: Config, m: Counters, call: Call)
    ensures Drive(c, m, Running, call) == (AfterResult(c, m, call.succeeds, call.doneAt), LoadState)
  {
    var m1 := m.(requests := m.requests + 1);
    assert Drive(c, m, Running, call) == Drive(c, m, AddRequest(call.succeeds), call);
    var next := if call.succeeds then AddSuccess else AddFailure;
    assert Drive(c, m, AddRequest(call.succeeds), call) == Drive(c, m1, next, call);
    if call.succeeds {
      DriveSuccess(c, m1, call);
    } else {
      DriveFailure(c, m1, call);
    }
  }

  // A whole call, from the load of the state on.
  lemma DriveCall(c: Config, m: Counters, call: Call)
    ensures var (m', pc) := Move(c, m, LoadState, call.at, call.succeeds);
            Drive(c, m', pc, call) == (AfterCall(c, m, call), LoadState)
  {
    match m.state {
      case Closed => DriveRunning(c, m, call);
      case HalfOpen =>
        if m.requests < c.maxRequests {
          DriveRunning(c, m, call);
          assert Drive(c, m, LoadRequests, call) == Drive(c, m, Running, call);
        }
      case Open =>
        if Elapsed(c, m, call.at) {
          var m1 := m.(state := HalfOpen);
          var m2 := m1.(successes := 0);
          assert Drive(c, m, LoadLastFailure, call) == Drive(c, m, CasOpenHalfOpen, call);
          assert Drive(c, m, CasOpenHalfOpen, call) == Drive(c, m1, ResetSuccesses, call);
          assert Drive(c, m1, ResetSuccesses, call) == Drive(c, m2, Running, call);
          DriveRunning(c, m2, call);
        }
    }
  }

  // The sequential model is this one with a single goroutine moving: a call made while nobody
  // else moves leaves exactly the counters that `AfterCall` computes.
  lemma SoloIsACall(c: Config, s: System, i: nat, call: Call)
    requires i < |s.goroutines| && s.goroutines[i] == LoadState
    ensures var s' := Run(c, s, Solo(c, s, i, call));
            s'.shared == AfterCall(c, s.shared, call) && s'.goroutines == s.goroutines
  {
    var s' := Step(c, s, TickFor(i, LoadState, call));
    FinishDrives(c, s', i, call);
    assert s'.goroutines[i := LoadState] == s.goroutines;
    DriveCall(c, s.shared, call);
  }

  // ---------------------------------------------------------------- what only interleaving can do

  function Repeat(t: Tick, n: nat): seq<Tick> {
    if n == 0 then [] else [t] + Repeat(t, n - 1)
  }

  function Steps(c: Config, s: System, t: Tick, n: nat): System
    decreases n
  {
    if n == 0 then s else Steps(c, Step(c, s, t), t, n - 1)
  }

  lemma {:induction false} RunRepeat(c: Config, s: System, t: Tick, n: nat)
    ensures Run(c, s, Repeat(t, n)) == Steps(c, s, t, n)
    decreases n
  {
    if n > 0 {
      RunRepeat(c, Step(c, s, t), t, n - 1);
    }
  }

  predicate AllAt(s: System, lo: nat, hi: nat, pc: PC) {
    hi <= |s.goroutines| && forall i :: lo <= i < hi ==> s.goroutines[i] == pc
  }

  // Everybody sees the open state and the elapsed timeout before anybody swaps.
  lemma {:induction false} CrowdQueues(c: Config, s: System, k: nat) returns (schedule: seq<Tick>)
    requires s.shared.state == Open && k <= |s.goroutines|
    requires AllAt(s, 0, k, CasOpenHalfOpen) && AllAt(s, k, |s.goroutines|, LoadState)
    ensures var s' := Run(c, s, schedule);
            s'.shared == s.shared && |s'.goroutines| == |s.goroutines| && AllAt(s', 0, |s.goroutines|, CasOpenHalfOpen)
    decreases |s.goroutines| - k
  {
    if k == |s.goroutines| {
      schedule := [];
    } else {
      var t := Tick(k, s.shared.lastFailure + c.timeout, true);
      var s' := Step(c, Step(c, s, t), t);
      assert Steps(c, s, t, 2) == Steps(c, Step(c, s, t), t, 1) == s';
      RunRepeat(c, s, t, 2);
      var rest := CrowdQueues(c, s', k + 1);
      RunAppend(c, s, Repeat(t, 2), rest);
      schedule := Repeat(t, 2) + rest;
    }
  }

  // The losers of the swap are admitted too.
  lemma {:induction false} CrowdEnters(c: Config, s: System, k: nat) returns (schedule: seq<Tick>)
    requires s.shared.state == HalfOpen && k <= |s.goroutines|
    requires AllAt(s, 0, k, Running) && AllAt(s, k, |s.goroutines|, CasOpenHalfOpen)
    ensures var s' := Run(c, s, schedule);
            s'.shared == s.shared && |s'.goroutines| == |s.goroutines| && AllAt(s', 0, |s.goroutines|, Running)
    decreases |s.goroutines| - k
  {
    if k == |s.goroutines| {
      schedule := [];
    } else {
      var t := Tick(k, 0, true);
      var rest := CrowdEnters(c, Step(c, s, t), k + 1);
      schedule := [t] + rest;
    }
  }

  lemma {:induction false} CrowdSucceeds(c: Config, s: System, k: nat) returns (schedule: seq<Tick>)
    requires s.shared.state == HalfOpen && s.shared.successes == k
    requires |s.goroutines| == c.maxRequests && k < |s.goroutines|
    requires AllAt(s, k, |s.goroutines|, Running)
    ensures Run(c, s, schedule).shared.state == Closed
    decreases |s.goroutines| - k
  {
    var t := Tick(k, 0, true);
    var s1 := Step(c, s, t);
    var s2 := Step(c, s1, t);
    var s3 := Step(c, s2, t);
    var s4 := Step(c, s3, t);
    assert Steps(c, s, t, 4) == Steps(c, s1, t, 3) == Steps(c, s2, t, 2) == Steps(c, s3, t, 1) == s4;
    RunRepeat(c, s, t, 4);
    var rest;
    if k + 1 < |s.goroutines| {
      rest := CrowdSucceeds(c, s4, k + 1);
    } else {
      rest := [t];
      assert Run(c, s4, [t]) == Run(c, Step(c, s4, t), []);
    }
    RunAppend(c, s, Repeat(t, 4), rest);
    schedule := Repeat(t, 4) + rest;
  }

  // A tripped breaker that no sequence of single calls can close (MaxRequests of 2 or more)
  // is closed by MaxRequests goroutines that probe it together.
  lemma CrowdCanRecover(c: Config, m: Counters)
    requires m.state == Open && c.maxRequests >= 1
    ensures exists schedule ::
              Run(c, Idle(m, c.maxRequests), schedule).shared.state == Closed
  {
    var s0 := Idle(m, c.maxRequests);
    var queue := CrowdQueues(c, s0, 0);
    var s1 := Run(c, s0, queue);
    var t := Tick(0, 0, true);
    var s2 := Step(c, Step(c, s1, t), t);
    assert Steps(c, s1, t, 2) == Steps(c, Step(c, s1, t), t, 1) == s2;
    RunRepeat(c, s1, t, 2);
    var enter := CrowdEnters(c, s2, 1);
    var s3 := Run(c, s2, enter);
    var succeed := CrowdSucceeds(c, s3, 0);
    RunAppend(c, s0, queue, Repeat(t, 2));
    RunAppend(c, s0, queue + Repeat(t, 2), enter);
    RunAppend(c, s0, queue + Repeat(t, 2) + enter, succeed);
    assert Run(c, s0, queue + Repeat(t, 2) + enter + succeed).shared.state == Closed;
  }
}
