/** What goroutines can do to a fresh breaker together, and what one goroutine alone cannot.

    Two goroutines are enough, whatever the configuration: while one hesitates before it opens the
    breaker, the other saves up successes; then both queue at the swap to half-open, and the loser
    closes the breaker before the winner has reset the successes.
  */
module BreakerRaces {
  import opened Common
  import opened CircuitBreaker
  import opened I = BreakerInterleavings

  // More failures than requests are counted at the end.
  predicate LosesRequests(c: Config, n: nat, schedule: seq<Tick>) {
    var m := I.Run(c, Start(n), schedule).shared;
    m.failures > m.requests
  }

  // The breaker is not closed at some time, and closed at the end.
  predicate TripsAndCloses(c: Config, n: nat, schedule: seq<Tick>) {
    Open in History(c, Start(n), schedule) && I.Run(c, Start(n), schedule).shared.state == Closed
  }

  // ---------------------------------------------------------------- reachable states

  // Some schedule takes `n` goroutines and a fresh breaker here.
  ghost predicate Reaches(c: Config, n: nat, m: Counters, g: seq<PC>) {
    exists schedule :: Leads(c, n, schedule, m, g)
  }

  predicate Leads(c: Config, n: nat, schedule: seq<Tick>, m: Counters, g: seq<PC>) {
    var s := I.Run(c, Start(n), schedule);
    s.shared == m && s.goroutines == g
  }

  lemma ReachesStart(c: Config, n: nat)
    ensures Reaches(c, n, FRESH, seq(n, _ => LoadState))
  {
    assert Leads(c, n, [], FRESH, seq(n, _ => LoadState));
  }

  lemma Extends(c: Config, n: nat, a: seq<Tick>, b: seq<Tick>, m: Counters, g: seq<PC>)
    requires var s := I.Run(c, I.Run(c, Start(n), a), b); s.shared == m && s.goroutines == g
    ensures Reaches(c, n, m, g)
  {
    I.RunAppend(c, Start(n), a, b);
    assert Leads(c, n, a + b, m, g);
  }

  // One step of goroutine `i`; the result names where it stands then.
  lemma Moves(c: Config, n: nat, m: Counters, g: seq<PC>, i: nat, now: int, ok: bool)
    returns (m': Counters, g': seq<PC>)
    requires Reaches(c, n, m, g) && i < |g|
    ensures var (m1, pc) := Move(c, m, g[i], now, ok); m' == m1 && g' == g[i := pc]
    ensures Reaches(c, n, m', g')
  {
    var schedule :| Leads(c, n, schedule, m, g);
    var s, t := I.Run(c, Start(n), schedule), Tick(i, now, ok);
    var (m1, pc) := Move(c, m, g[i], now, ok);
    m', g' := m1, g[i := pc];
    assert I.Run(c, s, [t]) == I.Run(c, Step(c, s, t), []);
    Extends(c, n, schedule, [t], m', g');
  }

  // The same with goroutine `i` at `pc` and the others as in `g`.
  lemma Goes(c: Config, n: nat, m: Counters, g: seq<PC>, i: nat, pc: PC, now: int, ok: bool)
    returns (m': Counters, pc': PC)
    requires i < |g| && Reaches(c, n, m, g[i := pc])
    ensures (m', pc') == Move(c, m, pc, now, ok) && Reaches(c, n, m', g[i := pc'])
  {
    var g';
    m', g' := Moves(c, n, m, g[i := pc], i, now, ok);
    pc' := g'[i];
    assert g' == g[i := pc'];
  }

  // A whole call of goroutine `i`.
  lemma Calls(c: Config, n: nat, m: Counters, g: seq<PC>, i: nat, call: Call)
    requires Reaches(c, n, m, g) && i < |g| && g[i] == LoadState
    ensures Reaches(c, n, AfterCall(c, m, call), g)
  {
    var schedule :| Leads(c, n, schedule, m, g);
    var s := I.Run(c, Start(n), schedule);
    SoloIsACall(c, s, i, call);
    Extends(c, n, schedule, Solo(c, s, i, call), AfterCall(c, m, call), g);
  }

  // ---------------------------------------------------------------- to the brink of opening

  // A failing call of a closed breaker, up to the stores of its failure.
  lemma CountsFailure(c: Config, n: nat, m: Counters, g: seq<PC>) returns (m': Counters)
    requires g != [] && Reaches(c, n, m, g[0 := LoadState]) && m.state == Closed
    ensures m' == m.(requests := m.requests + 1, failures := m.failures + 1, lastFailure := 0)
    ensures Reaches(c, n, m', g[0 := ZeroSuccesses])
  {
    var pc := LoadState;
    m', pc := Goes(c, n, m, g, 0, pc, 0, false);
    m', pc := Goes(c, n, m', g, 0, pc, 0, false);
    m', pc := Goes(c, n, m', g, 0, pc, 0, false);
    m', pc := Goes(c, n, m', g, 0, pc, 0, false);
    m', pc := Goes(c, n, m', g, 0, pc, 0, false);
  }

  // From there to the swap, if the breaker has to open.
  lemma DecidesToOpen(c: Config, n: nat, m: Counters, g: seq<PC>) returns (m': Counters)
    requires g != [] && Reaches(c, n, m, g[0 := ZeroSuccesses]) && m.state == Closed
    requires ShouldOpen(c, m.failures, m.requests)
    ensures m' == m.(successes := 0) && Reaches(c, n, m', g[0 := CasClosedOpen])
  {
    var pc := ZeroSuccesses;
    m', pc := Goes(c, n, m, g, 0, pc, 0, false);
    m', pc := Goes(c, n, m', g, 0, pc, 0, false);
    m', pc := Goes(c, n, m', g, 0, pc, 0, false);
    m', pc := Goes(c, n, m', g, 0, pc, 0, false);
  }

  // Enough failing calls bring goroutine 0 there.
  lemma {:induction false} Brink(c: Config, n: nat, m: Counters, g: seq<PC>) returns (m': Counters)
    requires Reaches(c, n, m, g) && g != [] && g[0] == LoadState && m.state == Closed
    ensures m'.state == Closed && m'.successes == 0 && Reaches(c, n, m', g[0 := CasClosedOpen])
    decreases Max(0, c.maxFailures - m.failures)
  {
    if ShouldOpen(c, m.failures + 1, m.requests + 1) {
      assert g[0 := LoadState] == g;
      m' := CountsFailure(c, n, m, g);
      m' := DecidesToOpen(c, n, m', g);
    } else {
      var call := Call(0, false, 0);
      Calls(c, n, m, g, 0, call);
      m' := Brink(c, n, AfterCall(c, m, call), g);
    }
  }

  // Meanwhile another goroutine succeeds any number of times.
  lemma {:induction false} SavesUp(c: Config, n: nat, m: Counters, g: seq<PC>, k: nat) returns (m': Counters)
    requires Reaches(c, n, m, g) && |g| >= 2 && g[1] == LoadState && m.state == Closed
    ensures m'.state == Closed && m'.successes == m.successes + k && Reaches(c, n, m', g)
    decreases k
  {
    if k == 0 {
      m' := m;
    } else {
      var call := Call(0, true, 0);
      Calls(c, n, m, g, 1, call);
      m' := SavesUp(c, n, AfterCall(c, m, call), g, k - 1);
    }
  }

  // ---------------------------------------------------------------- the race

  lemma Queues(c: Config, n: nat, m: Counters, g: seq<PC>, i: nat)
    requires Reaches(c, n, m, g) && i < |g| && g[i] == LoadState && m.state == Open
    ensures Reaches(c, n, m, g[i := CasOpenHalfOpen])
  {
    var m1, g1 := Moves(c, n, m, g, i, m.lastFailure + c.timeout, true);
    var m2, g2 := Moves(c, n, m1, g1, i, m.lastFailure + c.timeout, true);
    assert m2 == m && g2 == g[i := CasOpenHalfOpen];
  }

  // A probe that succeeds often enough in total closes the breaker, up to the first store.
  lemma ProbeCloses(c: Config, n: nat, m: Counters, g: seq<PC>, i: nat) returns (m': Counters)
    requires Reaches(c, n, m, g) && i < |g| && g[i] == Running && m.state == HalfOpen
    requires m.successes + 1 >= c.maxRequests
    ensures m'.state == Closed && Reaches(c, n, m', g[i := ZeroFailures])
  {
    assert g[i := Running] == g;
    var pc := Running;
    m', pc := Goes(c, n, m, g, i, pc, 0, true);
    m', pc := Goes(c, n, m', g, i, pc, 0, true);
    m', pc := Goes(c, n, m', g, i, pc, 0, true);
    m', pc := Goes(c, n, m', g, i, pc, 0, true);
    m', pc := Goes(c, n, m', g, i, pc, 0, true);
  }

  // Goroutine 0 has won the swap to half-open and not yet reset the successes; goroutine 1 has
  // lost it, and closes the breaker.
  lemma TwoClose(c: Config, n: nat) returns (m: Counters, g: seq<PC>)
    requires n >= 2
    ensures Reaches(c, n, m, g) && m.state == Closed
    ensures |g| == n && g[0] == ResetSuccesses && g[1] == ZeroFailures
  {
    ReachesStart(c, n);
    g := seq(n, _ => LoadState);
    m := Brink(c, n, FRESH, g);
    g := g[0 := CasClosedOpen];
    m := SavesUp(c, n, m, g, Max(0, c.maxRequests - 1));
    m, g := Moves(c, n, m, g, 0, 0, false);
    Queues(c, n, m, g, 0);
    g := g[0 := CasOpenHalfOpen];
    Queues(c, n, m, g, 1);
    g := g[1 := CasOpenHalfOpen];
    m, g := Moves(c, n, m, g, 0, 0, true);
    m, g := Moves(c, n, m, g, 1, 0, true);
    m := ProbeCloses(c, n, m, g, 1);
    g := g[1 := ZeroFailures];
  }

  // With MaxRequests of 1 or less, one goroutine gets as far.
  lemma OneCloses(c: Config, n: nat) returns (m: Counters, g: seq<PC>)
    requires n >= 1 && c.maxRequests <= 1
    ensures Reaches(c, n, m, g) && m.state == Closed && |g| == n && g[0] == ZeroFailures
  {
    ReachesStart(c, n);
    g := seq(n, _ => LoadState);
    m := Brink(c, n, FRESH, g);
    g := g[0 := CasClosedOpen];
    m, g := Moves(c, n, m, g, 0, 0, false);
    Queues(c, n, m, g, 0);
    g := g[0 := CasOpenHalfOpen];
    m, g := Moves(c, n, m, g, 0, 0, true);
    m, g := Moves(c, n, m, g, 0, 0, true);
    m := ProbeCloses(c, n, m, g, 0);
    g := g[0 := ZeroFailures];
  }

  // Between the two stores of the reset, goroutine 0 counts a failure.
  lemma FailsMeanwhile(c: Config, n: nat, m: Counters, g: seq<PC>) returns (m': Counters)
    requires g != [] && Reaches(c, n, m, g[0 := ResetSuccesses])
    ensures m'.failures == m.failures + 1 && Reaches(c, n, m', g[0 := StoreLastFailure])
  {
    var pc := ResetSuccesses;
    m', pc := Goes(c, n, m, g, 0, pc, 0, false);
    m', pc := Goes(c, n, m', g, 0, pc, 0, false);
    m', pc := Goes(c, n, m', g, 0, pc, 0, false);
    m', pc := Goes(c, n, m', g, 0, pc, 0, false);
  }

  // The second store then forgets the request of that failure.
  lemma FailsBetweenStores(c: Config, n: nat, m: Counters, g: seq<PC>) returns (m': Counters, g': seq<PC>)
    requires Reaches(c, n, m, g) && |g| >= 2 && g[0] == ResetSuccesses && g[1] == ZeroFailures
    ensures Reaches(c, n, m', g') && m'.failures > m'.requests
  {
    m', g' := Moves(c, n, m, g, 1, 0, true);
    assert g'[0 := ResetSuccesses] == g';
    m' := FailsMeanwhile(c, n, m', g');
    m', g' := Moves(c, n, m', g'[0 := StoreLastFailure], 1, 0, true);
  }

  // ---------------------------------------------------------------- one goroutine alone

  // Failures stay within requests, counting a failure still owed, in every single step.
  predicate AloneBooks(s: System) {
    && |s.goroutines| <= 1
    && 0 <= s.shared.failures
    && s.shared.failures <= s.shared.requests
    && forall i :: 0 <= i < |s.goroutines| ==>
         && (s.goroutines[i] == AddFailure ==> s.shared.failures < s.shared.requests)
         && (s.goroutines[i] == ZeroRequests ==> s.shared.failures == 0)
  }

  lemma {:induction false} AloneKeepsBooks(c: Config, s: System, schedule: seq<Tick>)
    requires AloneBooks(s)
    ensures AloneBooks(I.Run(c, s, schedule))
    decreases |schedule|
  {
    if schedule != [] {
      AloneKeepsBooks(c, Step(c, s, schedule[0]), schedule[1..]);
    }
  }

  // Where the reset goes wrong: for every configuration, a breaker can come to count more failures
  // than requests if and only if two goroutines share it. The reset is two stores.
  lemma ResetCanLoseRequests(c: Config, n: nat)
    ensures (exists schedule :: LosesRequests(c, n, schedule)) <==> n >= 2
  {
    if n >= 2 {
      var m, g := TwoClose(c, n);
      var m', g' := FailsBetweenStores(c, n, m, g);
      var schedule :| Leads(c, n, schedule, m', g');
      assert LosesRequests(c, n, schedule);
    } else {
      forall schedule
        ensures !LosesRequests(c, n, schedule)
      {
        AloneKeepsBooks(c, Start(n), schedule);
      }
    }
  }

  // What keeps a breaker with MaxRequests of 2 or more from closing, in every single step of one
  // goroutine: requests run ahead of the successes, so the last success needed is not admitted.
  predicate CannotClose(c: Config, m: Counters, pc: PC) {
    && m.requests >= 0 && m.successes >= 0
    && pc !in {CasHalfOpenClosed, ZeroFailures, ZeroRequests}
    && (pc.LoadStateAfterSuccess? && m.state == HalfOpen ==> pc.successes < c.maxRequests)
    && (m.state != Closed || After(pc) ==> m.requests >= 1)
    && (m.state == HalfOpen && pc in {LoadState, LoadRequests} ==> m.requests >= m.successes + 1)
    && (m.state == HalfOpen && (pc == Running || pc == AddRequest(true)) ==>
          m.requests >= m.successes + 1 && m.successes + 2 <= c.maxRequests)
    && (m.state == HalfOpen && pc == AddSuccess ==> m.requests >= m.successes + 2 && m.successes + 2 <= c.maxRequests)
    && (m.state == HalfOpen && pc.LoadStateAfterSuccess? ==> m.requests >= m.successes + 1)
    && (m.state == Closed ==> pc !in {LoadLastFailure, CasOpenHalfOpen, ResetSuccesses, LoadRequests, CasHalfOpenOpen})
    && (m.state == Open ==> pc in {LoadState, LoadLastFailure, CasOpenHalfOpen})
    && (m.state == HalfOpen ==>
      pc !in {LoadLastFailure, CasOpenHalfOpen, LoadFailures, CasClosedOpen} && !pc.LoadRequestsForRatio?)
  }

  // A request has been added by this call.
  predicate After(pc: PC) {
    pc in {AddFailure, StoreLastFailure, ZeroSuccesses, LoadStateAfterFailure, LoadFailures, CasClosedOpen,
           CasHalfOpenOpen, AddSuccess}
    || pc.LoadRequestsForRatio? || pc.LoadStateAfterSuccess?
  }

  lemma MoveKeepsCannotClose(c: Config, m: Counters, pc: PC, now: int, ok: bool)
    requires c.maxRequests >= 2 && CannotClose(c, m, pc)
    ensures var (m', pc') := Move(c, m, pc, now, ok);
      CannotClose(c, m', pc') && (m.state != Closed ==> m'.state != Closed)
  {
  }

  predicate AloneCannotClose(c: Config, s: System) {
    |s.goroutines| == 0 || (|s.goroutines| == 1 && CannotClose(c, s.shared, s.goroutines[0]))
  }

  lemma {:induction false} AloneStaysTripped(c: Config, s: System, schedule: seq<Tick>)
    requires c.maxRequests >= 2 && AloneCannotClose(c, s)
    ensures s.shared.state != Closed || Open in History(c, s, schedule) ==> I.Run(c, s, schedule).shared.state != Closed
    decreases |schedule|
  {
    if schedule != [] {
      var t := schedule[0];
      if t.who < |s.goroutines| {
        MoveKeepsCannotClose(c, s.shared, s.goroutines[0], t.now, t.succeeds);
      }
      AloneStaysTripped(c, Step(c, s, t), schedule[1..]);
      assert History(c, s, schedule) == [s.shared.state] + History(c, Step(c, s, t), schedule[1..]);
    }
  }

  lemma {:induction false} NobodyMoves(c: Config, s: System, schedule: seq<Tick>)
    requires s.goroutines == [] && s.shared.state == Closed
    ensures Open !in History(c, s, schedule)
    decreases |schedule|
  {
    if schedule != [] {
      NobodyMoves(c, s, schedule[1..]);
      assert History(c, s, schedule) == [s.shared.state] + History(c, s, schedule[1..]);
    }
  }

  // ---------------------------------------------------------------- recovery

  // A breaker that has been reset has been open.
  lemma {:induction false} ResetMeansTripped(c: Config, s: System, schedule: seq<Tick>)
    requires s.shared.state == Closed
    ensures I.Run(c, s, schedule).resets > s.resets ==> Open in History(c, s, schedule)
    decreases |schedule|
  {
    if schedule != [] {
      var s' := Step(c, s, schedule[0]);
      assert History(c, s, schedule) == [s.shared.state] + History(c, s', schedule[1..]);
      if s'.shared.state == Closed {
        ResetMeansTripped(c, s', schedule[1..]);
      } else {
        assert History(c, s', schedule[1..])[0] == Open;
      }
    }
  }

  lemma ClosingMeansTripped(c: Config, n: nat, m: Counters, g: seq<PC>, i: nat) returns (schedule: seq<Tick>)
    requires Reaches(c, n, m, g) && m.state == Closed && i < |g| && g[i] == ZeroFailures
    ensures TripsAndCloses(c, n, schedule)
  {
    schedule :| Leads(c, n, schedule, m, g);
    OwingNone(Start(n).goroutines);
    RunKeepsBooks(c, Start(n), schedule);
    ResetMeansTripped(c, Start(n), schedule);
  }

  // From a fresh breaker: it can trip and close again if and only if two goroutines share it, or
  // MaxRequests is at most 1 and there is a goroutine at all.
  lemma TripsAndClosesIff(c: Config, n: nat)
    ensures (exists schedule :: TripsAndCloses(c, n, schedule)) <==> n >= 2 || (n == 1 && c.maxRequests <= 1)
  {
    if n >= 2 {
      var m, g := TwoClose(c, n);
      var _ := ClosingMeansTripped(c, n, m, g, 1);
    } else if n == 1 && c.maxRequests <= 1 {
      var m, g := OneCloses(c, n);
      var _ := ClosingMeansTripped(c, n, m, g, 0);
    } else {
      forall schedule
        ensures !TripsAndCloses(c, n, schedule)
      {
        if n == 0 {
          NobodyMoves(c, Start(n), schedule);
        } else {
          AloneStaysTripped(c, Start(n), schedule);
        }
      }
    }
  }
}
