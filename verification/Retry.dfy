/** Retries: which errors are retried, how long the waits are, and retries inside a circuit breaker.

    Durations are whole nanoseconds. Backoff and jitter are computed over the reals and truncated
    toward zero, as the source converts them.
  */
module Retry {
  import opened Common
  import CircuitBreaker

  datatype ErrorType = Network | RateLimit | Authentication | Timeout | API | Permanent | Temporary

  datatype AgentError = AgentError(kind: ErrorType, retryable: bool, retryAfter: int)

  const SECOND := 1_000_000_000

  // What the classifier can see of an error: a structured error in its chain, a status code, a
  // deadline in its chain, a timeout flag, and its text.
  datatype Failure = Failure(
    structured: Option<AgentError>,
    status: Option<int>,
    deadline: bool,
    timedOut: bool,
    message: string)

  // ---------------------------------------------------------------- text search

  function LowerChar(c: char): char {
    if 'A' <= c <= 'Z' then (c as int - 'A' as int + 'a' as int) as char else c
  }

  function Lower(s: string): string {
    seq(|s|, i requires 0 <= i < |s| => LowerChar(s[i]))
  }

  // Meant to ignore case; a text as long as the keyword is compared exactly.
  predicate Contains(s: string, sub: string) {
    |s| >= |sub| && (s == sub || (|s| > |sub| &&
      (s[..|sub|] == sub || s[|s| - |sub|..] == sub || Includes(Lower(s), Lower(sub)))))
  }

  lemma LowerSlice(s: string, i: nat, j: nat)
    requires i <= j <= |s|
    ensures Lower(s)[i..j] == Lower(s[i..j])
  {
  }

  // Exactly when the search ignores case: unless text and keyword have one length and differ.
  lemma ContainsIgnoresCaseIff(s: string, sub: string)
    ensures Contains(s, sub) <==> Includes(Lower(s), Lower(sub)) && (|s| == |sub| ==> s == sub)
  {
    if |s| >= |sub| {
      LowerSlice(s, 0, |sub|);
      LowerSlice(s, |s| - |sub|, |s|);
      if s == sub || s[..|sub|] == sub {
        assert OccursAt(Lower(s), Lower(sub), 0);
      } else if s[|s| - |sub|..] == sub {
        assert OccursAt(Lower(s), Lower(sub), |s| - |sub|);
      }
    }
  }

  // ---------------------------------------------------------------- classification

  predicate IsTimeout(f: Failure) {
    f.deadline || f.timedOut || Contains(f.message, "timeout") || Contains(f.message, "deadline exceeded")
  }

  predicate IsNetwork(f: Failure) {
    || Contains(f.message, "connection refused")
    || Contains(f.message, "no such host")
    || Contains(f.message, "network unreachable")
    || Contains(f.message, "connection reset")
  }

  function ClassifyStatus(status: int): Option<AgentError> {
    if status == 429 then Some(AgentError(RateLimit, true, 60 * SECOND))
    else if status == 401 || status == 403 then Some(AgentError(Authentication, false, 0))
    else if status in {500, 502, 503, 504} then Some(AgentError(API, true, 5 * SECOND))
    else if status == 404 || status == 400 then Some(AgentError(Permanent, false, 0))
    else None
  }

  function ClassifyError(f: Failure): AgentError {
    if f.structured.Some? then f.structured.value
    else
      var byStatus := if f.status.Some? then ClassifyStatus(f.status.value) else None;
      if byStatus.Some? then byStatus.value
      else if IsTimeout(f) then AgentError(Timeout, true, 10 * SECOND)
      else if IsNetwork(f) then AgentError(Network, true, 5 * SECOND)
      else AgentError(Temporary, true, 5 * SECOND)
  }

  // ---------------------------------------------------------------- policy

  datatype Policy = Policy(
    maxAttempts: int,
    baseDelay: int,
    maxDelay: int,
    backoffFactor: real,
    jitterFactor: real,
    retryableErrors: seq<ErrorType>)

  const DEFAULT_POLICY := Policy(3, SECOND, 30 * SECOND, 2.0, 0.1, [Network, Timeout, API, Temporary])

  predicate ShouldRetry(p: Policy, e: AgentError) {
    e.retryable && e.kind in p.retryableErrors
  }

  function Power(x: real, n: nat): real {
    if n == 0 then 1.0 else x * Power(x, n - 1)
  }

  // Division by two, toward zero.
  function Half(d: int): int {
    if d >= 0 then d / 2 else -((-d) / 2)
  }

  // `u` is the random sample, between -1 and 1.
  function Scale(x: real, factor: real): real {
    x * factor
  }

  function Shake(p: Policy, delay: int, u: real): int {
    Truncate(Scale(Scale(delay as real, p.jitterFactor), u))
  }

  function AddJitter(p: Policy, delay: int, u: real): int {
    if p.jitterFactor <= 0.0 then delay else
      var jittered := delay + Shake(p, delay, u);
      if jittered < 0 then Half(delay) else jittered
  }

  function Backoff(p: Policy, attempt: nat): int
    requires attempt >= 1
  {
    var delay := Truncate(p.baseDelay as real * Power(p.backoffFactor, attempt - 1));
    if delay > p.maxDelay then p.maxDelay else delay
  }

  function CalculateDelay(p: Policy, attempt: nat, e: AgentError, u: real): int
    requires attempt >= 1
  {
    AddJitter(p, if e.retryAfter > 0 then e.retryAfter else Backoff(p, attempt), u)
  }

  // ---------------------------------------------------------------- bounds on one wait

  predicate Sample(u: real) {
    -1.0 <= u <= 1.0
  }

  lemma TruncateAtMost(x: real, b: real)
    requires x <= b && b >= 0.0
    ensures Truncate(x) as real <= b
  {
  }

  lemma NonNegative(a: real, b: real)
    requires a >= 0.0 && b >= 0.0
    ensures a * b >= 0.0
  {
  }

  lemma ScaleDown(x: real, f: real)
    requires 0.0 <= f <= 1.0
    ensures x >= 0.0 ==> 0.0 <= Scale(x, f) <= x
    ensures x <= 0.0 ==> x <= Scale(x, f) <= 0.0
  {
    if x >= 0.0 {
      NonNegative(x, f);
      NonNegative(x, 1.0 - f);
      assert x * (1.0 - f) == x - x * f;
    } else {
      NonNegative(-x, f);
      NonNegative(-x, 1.0 - f);
      assert (-x) * (1.0 - f) == x * f - x;
      assert (-x) * f == -(x * f);
    }
  }

  lemma ScaleWithin(x: real, u: real)
    requires Sample(u)
    ensures x >= 0.0 ==> Scale(x, u) <= x
    ensures x <= 0.0 ==> Scale(x, u) <= -x
  {
    if x >= 0.0 {
      NonNegative(x, 1.0 - u);
      assert x * (1.0 - u) == x - x * u;
    } else {
      NonNegative(-x, 1.0 + u);
      assert (-x) * (1.0 + u) == -x - x * u;
    }
  }

  lemma Scaled(a: real, b: real, j: real)
    requires a <= b && 0.0 <= j
    ensures a * (1.0 + j) <= b * (1.0 + j)
  {
  }

  // The jitter alone, for a delay and for a negative one.
  lemma ShakeAtMost(p: Policy, delay: int, u: real)
    requires 0.0 < p.jitterFactor <= 1.0 && Sample(u)
    ensures delay >= 0 ==> Shake(p, delay, u) as real <= Scale(delay as real, p.jitterFactor)
    ensures delay < 0 ==> Shake(p, delay, u) as real <= -(delay as real)
  {
    var m := Scale(delay as real, p.jitterFactor);
    ScaleDown(delay as real, p.jitterFactor);
    ScaleWithin(m, u);
    TruncateAtMost(Scale(m, u), if delay >= 0 then m else -(delay as real));
  }

  function Jitter(p: Policy): real {
    if p.jitterFactor > 0.0 then p.jitterFactor else 0.0
  }

  // The longest wait that a delay bound allows.
  function Stretched(p: Policy, bound: int): real {
    bound as real * (1.0 + Jitter(p))
  }

  lemma StretchedGrows(p: Policy, a: int, b: int)
    requires 0 <= a <= b
    ensures 0.0 <= Stretched(p, a) <= Stretched(p, b)
    ensures b as real <= Stretched(p, b)
  {
    Scaled(a as real, b as real, Jitter(p));
    NonNegative(a as real, Jitter(p));
    NonNegative(b as real, Jitter(p));
    assert b as real * (1.0 + Jitter(p)) == b as real + b as real * Jitter(p);
    assert a as real * (1.0 + Jitter(p)) == a as real + a as real * Jitter(p);
  }

  lemma JitteredAtMost(p: Policy, delay: int, u: real)
    requires 0.0 < p.jitterFactor <= 1.0 && Sample(u)
    ensures (delay + Shake(p, delay, u)) as real <= Stretched(p, Max(0, delay))
  {
    ShakeAtMost(p, delay, u);
    StretchedGrows(p, 0, Max(0, delay));
    if delay >= 0 {
      assert Stretched(p, delay) == delay as real + Scale(delay as real, p.jitterFactor);
    }
  }

  // A wait exceeds the delay it is made from by the jitter factor at most.
  lemma JitterAtMost(p: Policy, delay: int, u: real, bound: int)
    requires p.jitterFactor <= 1.0 && Sample(u) && delay <= bound && 0 <= bound
    ensures Max(0, AddJitter(p, delay, u)) as real <= Stretched(p, bound)
  {
    StretchedGrows(p, Max(0, delay), bound);
    if p.jitterFactor > 0.0 {
      JitteredAtMost(p, delay, u);
    }
  }

  // The longest delay that a run of the operation can ask for.
  function Longest(p: Policy, tries: seq<Try>): int {
    if tries == [] then Max(0, p.maxDelay) else
      var rest := Longest(p, tries[..|tries| - 1]);
      var outcome := tries[|tries| - 1].outcome;
      if outcome.None? then rest else Max(rest, ClassifyError(outcome.value).retryAfter)
  }

  // One execution of the operation, the jitter sample after it, and how long was waited.
  datatype Try = Try(outcome: Option<Failure>, sample: real, waited: int)

  function Waited(tries: seq<Try>): int {
    if tries == [] then 0 else Waited(tries[..|tries| - 1]) + tries[|tries| - 1].waited
  }

  // `n` times `x`, by repeated addition.
  function Multiple(n: nat, x: real): real {
    if n == 0 then 0.0 else Multiple(n - 1, x) + x
  }

  lemma {:induction false} MultipleIsProduct(n: nat, x: real)
    ensures Multiple(n, x) == n as real * x
    decreases n
  {
    if n > 0 {
      MultipleIsProduct(n - 1, x);
      assert n as real * x == (n - 1) as real * x + x;
    }
  }

  lemma {:induction false} WaitedAtMost(tries: seq<Try>, n: nat, each: real)
    requires |tries| <= n && each >= 0.0
    requires forall k :: 0 <= k < |tries| ==> tries[k].waited as real <= each
    ensures Waited(tries) as real <= Multiple(n, each)
    decreases n
  {
    if n > 0 {
      WaitedAtMost(if |tries| == n then tries[..n - 1] else tries, n - 1, each);
    }
  }

  lemma {:induction false} LongestCovers(p: Policy, tries: seq<Try>, k: nat)
    requires k < |tries| && tries[k].outcome.Some?
    ensures ClassifyError(tries[k].outcome.value).retryAfter <= Longest(p, tries)
    ensures p.maxDelay <= Longest(p, tries) && 0 <= Longest(p, tries)
    decreases |tries|
  {
    if k < |tries| - 1 {
      LongestCovers(p, tries[..|tries| - 1], k);
    } else {
      LongestAtLeast(p, tries);
    }
  }

  lemma {:induction false} LongestAtLeast(p: Policy, tries: seq<Try>)
    ensures p.maxDelay <= Longest(p, tries) && 0 <= Longest(p, tries)
    decreases |tries|
  {
    if tries != [] {
      LongestAtLeast(p, tries[..|tries| - 1]);
    }
  }

  // ---------------------------------------------------------------- the retry loop

  datatype Result = Succeeded | Exhausted | NotRetryable | CancelledWaiting | NeverRan

  predicate FailedRetryably(p: Policy, t: Try) {
    t.outcome.Some? && ShouldRetry(p, ClassifyError(t.outcome.value))
  }

  // How the result follows from what happened.
  function ResultOf(p: Policy, tries: seq<Try>): Result {
    if tries == [] then NeverRan
    else
      var last := tries[|tries| - 1];
      if last.outcome.None? then Succeeded
      else if |tries| >= p.maxAttempts then Exhausted
      else if !FailedRetryably(p, last) then NotRetryable
      else CancelledWaiting
  }

  // What is to be waited after the given attempt.
  function DelayAfter(p: Policy, attempt: nat, t: Try): int
    requires attempt >= 1
  {
    if t.outcome.None? then 0 else Max(0, CalculateDelay(p, attempt, ClassifyError(t.outcome.value), t.sample))
  }

  predicate WaitOf(p: Policy, attempt: nat, t: Try)
    requires attempt >= 1
  {
    Sample(t.sample) && 0 <= t.waited <= DelayAfter(p, attempt, t)
  }

  predicate FullWait(p: Policy, attempt: nat, t: Try)
    requires attempt >= 1
  {
    t.waited == DelayAfter(p, attempt, t)
  }

  // Only the last wait can be cut short, by cancellation.
  predicate Waits(p: Policy, tries: seq<Try>) {
    && (forall k :: 0 <= k < |tries| ==> WaitOf(p, k + 1, tries[k]))
    && (forall k :: 0 <= k < |tries| - 1 ==> FullWait(p, k + 1, tries[k]))
  }

  lemma WaitAtMost(p: Policy, tries: seq<Try>, k: nat)
    requires Waits(p, tries) && k < |tries| && p.jitterFactor <= 1.0
    ensures tries[k].waited as real <= Stretched(p, Longest(p, tries))
  {
    LongestAtLeast(p, tries);
    var bound := Longest(p, tries);
    StretchedGrows(p, 0, bound);
    assert WaitOf(p, k + 1, tries[k]);
    if tries[k].outcome.Some? {
      LongestCovers(p, tries, k);
      var e := ClassifyError(tries[k].outcome.value);
      var delay := if e.retryAfter > 0 then e.retryAfter else Backoff(p, k + 1);
      JitterAtMost(p, delay, tries[k].sample, bound);
    }
  }

  lemma EachAtMost(p: Policy, tries: seq<Try>, each: real)
    requires Waits(p, tries) && p.jitterFactor <= 1.0 && each == Stretched(p, Longest(p, tries))
    ensures forall k :: 0 <= k < |tries| ==> tries[k].waited as real <= each
  {
    forall k | 0 <= k < |tries|
      ensures tries[k].waited as real <= each
    {
      WaitAtMost(p, tries, k);
    }
  }

  // Total waiting: there is no wait after the last permitted run.
  lemma TotalWait(p: Policy, tries: seq<Try>)
    requires Waits(p, tries) && p.jitterFactor <= 1.0 && tries != []
    requires |tries| < p.maxAttempts || (|tries| == p.maxAttempts && tries[|tries| - 1].waited == 0)
    ensures Waited(tries) as real <= Multiple(p.maxAttempts - 1, Stretched(p, Longest(p, tries)))
  {
    var each := Stretched(p, Longest(p, tries));
    LongestAtLeast(p, tries);
    StretchedGrows(p, 0, Longest(p, tries));
    EachAtMost(p, tries, each);
    if |tries| == p.maxAttempts {
      WaitedAtMost(tries[..|tries| - 1], p.maxAttempts - 1, each);
    } else {
      WaitedAtMost(tries, p.maxAttempts - 1, each);
    }
  }

  // What the operation meets, attempt by attempt from 0: how it ends, what the random source gives,
  // and whether the context ends during the wait that follows, and after how long.
  datatype World = World(outcome: nat -> Option<Failure>, sample: nat -> real, patience: nat -> Option<nat>)

  ghost predicate Random(w: World) {
    forall k: nat :: Sample(w.sample(k))
  }

  function Delay(p: Policy, w: World, k: nat): int {
    if w.outcome(k).None? then 0 else Max(0, CalculateDelay(p, k + 1, ClassifyError(w.outcome(k).value), w.sample(k)))
  }

  predicate Interrupted(p: Policy, w: World, k: nat) {
    w.patience(k).Some? && w.patience(k).value < Delay(p, w, k)
  }

  // Attempt `k` fails, with an error that is marked as retryable and of a kind that the policy lists.
  predicate Retryable(p: Policy, w: World, k: nat) {
    && w.outcome(k).Some?
    && ClassifyError(w.outcome(k).value).retryable
    && ClassifyError(w.outcome(k).value).kind in p.retryableErrors
  }

  // There is another attempt after attempt `k`.
  predicate GoesOn(p: Policy, w: World, k: nat) {
    k + 1 < p.maxAttempts && Retryable(p, w, k) && !Interrupted(p, w, k)
  }

  function TryOf(p: Policy, w: World, k: nat): Try {
    Try(w.outcome(k), w.sample(k),
      if k + 1 >= p.maxAttempts || !Retryable(p, w, k) then 0
      else if Interrupted(p, w, k) then w.patience(k).value
      else Delay(p, w, k))
  }

  lemma TryWaits(p: Policy, w: World, k: nat)
    requires Random(w)
    ensures WaitOf(p, k + 1, TryOf(p, w, k))
    ensures GoesOn(p, w, k) ==> FullWait(p, k + 1, TryOf(p, w, k)) && FailedRetryably(p, TryOf(p, w, k))
  {
  }

  method Execute(p: Policy, w: World) returns (result: Result, tries: seq<Try>)
    requires Random(w)
    ensures p.maxAttempts >= 1 ==> 1 <= |tries| <= p.maxAttempts
    ensures p.maxAttempts <= 0 ==> tries == []
    // Every attempt but the last is followed by another one, and the last is not.
    ensures forall k :: 0 <= k < |tries| ==> tries[k].outcome == w.outcome(k) && (GoesOn(p, w, k) <==> k < |tries| - 1)
    ensures tries != [] ==>
      var last := |tries| - 1;
      && (result == Succeeded <==> w.outcome(last).None?)
      && (result == Exhausted <==> w.outcome(last).Some? && |tries| == p.maxAttempts)
      && (result == NotRetryable <==>
           w.outcome(last).Some? && |tries| < p.maxAttempts && !Retryable(p, w, last))
      && (result == CancelledWaiting <==>
           |tries| < p.maxAttempts && Retryable(p, w, last) && Interrupted(p, w, last))
    ensures result == ResultOf(p, tries)
    ensures forall k :: 0 <= k < |tries| - 1 ==> FailedRetryably(p, tries[k])
    ensures Waits(p, tries)
    ensures p.maxAttempts >= 1 && p.jitterFactor <= 1.0 ==>
      Waited(tries) as real <= Multiple(p.maxAttempts - 1, Stretched(p, Longest(p, tries)))
  {
    tries := [];
    var attempt, done := 1, false;
    while attempt <= p.maxAttempts && !done
      invariant 1 <= attempt <= Max(1, p.maxAttempts + 1)
      invariant if done then 1 <= |tries| == attempt else |tries| == attempt - 1
      invariant done ==> attempt <= p.maxAttempts && !GoesOn(p, w, attempt - 1)
      invariant forall k :: 0 <= k < |tries| ==> tries[k] == TryOf(p, w, k)
      invariant forall k :: 0 <= k < attempt - 1 ==> GoesOn(p, w, k)
      invariant !done ==> attempt <= p.maxAttempts || tries == []
      decreases p.maxAttempts - attempt, !done
    {
      var outcome, u := w.outcome(attempt - 1), w.sample(attempt - 1);
      done := true;
      var waited := 0;
      if outcome.Some? {
        var e := ClassifyError(outcome.value);
        if attempt < p.maxAttempts && ShouldRetry(p, e) {
          var delay := CalculateDelay(p, attempt, e, u);
          var patience := w.patience(attempt - 1);
          if patience.Some? && patience.value < Max(0, delay) {
            waited := patience.value;
          } else {
            waited := Max(0, delay);
            done := false;
          }
        }
      }
      tries := tries + [Try(outcome, u, waited)];
      if !done {
        attempt := attempt + 1;
      }
    }
    result := ResultOf(p, tries);
    AllWait(p, w, tries);
    if p.maxAttempts >= 1 && p.jitterFactor <= 1.0 {
      TotalWait(p, tries);
    }
  }

  lemma AllWait(p: Policy, w: World, tries: seq<Try>)
    requires Random(w)
    requires forall k :: 0 <= k < |tries| ==> tries[k] == TryOf(p, w, k)
    requires forall k :: 0 <= k < |tries| - 1 ==> GoesOn(p, w, k)
    ensures Waits(p, tries)
    ensures forall k :: 0 <= k < |tries| - 1 ==> FailedRetryably(p, tries[k])
  {
    forall k | 0 <= k < |tries|
      ensures WaitOf(p, k + 1, tries[k])
      ensures k < |tries| - 1 ==> FullWait(p, k + 1, tries[k]) && FailedRetryably(p, tries[k])
    {
      TryWaits(p, w, k);
    }
  }

  // ---------------------------------------------------------------- how long one wait is

  function IntPower(b: int, n: nat): int {
    if n == 0 then 1 else b * IntPower(b, n - 1)
  }

  lemma {:induction false} PowerOfInt(b: int, n: nat)
    ensures Power(b as real, n) == IntPower(b, n) as real
  {
    if n > 0 {
      PowerOfInt(b, n - 1);
    }
  }

  // With a whole factor there is nothing to truncate: the first delay is the base delay, and each one
  // is the factor times the one before, up to the maximum.
  lemma WholeBackoff(p: Policy, factor: nat, attempt: nat)
    requires attempt >= 1 && p.backoffFactor == factor as real && p.baseDelay >= 0
    ensures Backoff(p, attempt) == Min(p.baseDelay * IntPower(factor, attempt - 1), p.maxDelay)
  {
    PowerOfInt(factor, attempt - 1);
    var n := IntPower(factor, attempt - 1);
    assert p.baseDelay as real * n as real == (p.baseDelay * n) as real;
    assert Truncate((p.baseDelay * n) as real) == p.baseDelay * n;
  }

  // By default the delays are 1, 2, 4, 8 and 16 seconds, and 30 from then on.
  lemma DefaultBackoff(attempt: nat)
    requires attempt >= 1
    ensures Backoff(DEFAULT_POLICY, attempt) == Min(IntPower(2, attempt - 1) * SECOND, 30 * SECOND)
  {
    WholeBackoff(DEFAULT_POLICY, 2, attempt);
  }

  lemma TruncateAtLeast(x: real, b: real)
    requires -b <= x && b >= 0.0
    ensures -b <= Truncate(x) as real
  {
  }

  // A wait is off by the jitter factor at most, in both directions, and not at all if the sample is 0
  // or there is no jitter.
  lemma JitterWithin(p: Policy, delay: int, u: real)
    requires Sample(u) && p.jitterFactor <= 1.0 && delay >= 0
    ensures var wait := AddJitter(p, delay, u);
      && wait >= 0
      && delay as real - Scale(delay as real, Jitter(p)) <= wait as real
      && wait as real <= delay as real + Scale(delay as real, Jitter(p))
    ensures p.jitterFactor <= 0.0 || u == 0.0 ==> AddJitter(p, delay, u) == delay
  {
    if p.jitterFactor > 0.0 {
      var m := Scale(delay as real, p.jitterFactor);
      ScaleDown(delay as real, p.jitterFactor);
      ScaleWithin(m, u);
      ScaleWithin(m, -u);
      assert Scale(m, -u) == -Scale(m, u);
      TruncateAtMost(Scale(m, u), m);
      TruncateAtLeast(Scale(m, u), m);
    }
  }

  // The jitter is used in full: with the largest sample the wait is as long as it can be, up to less
  // than a nanosecond, and with the smallest it is as short.
  lemma JitterReaches(p: Policy, delay: int, u: real)
    requires 0.0 < p.jitterFactor <= 1.0 && delay >= 0
    ensures u == 1.0 ==> AddJitter(p, delay, u) as real > delay as real + Scale(delay as real, p.jitterFactor) - 1.0
    ensures u == -1.0 ==> (AddJitter(p, delay, u) as real) < delay as real - Scale(delay as real, p.jitterFactor) + 1.0
  {
    var m := Scale(delay as real, p.jitterFactor);
    ScaleDown(delay as real, p.jitterFactor);
    assert Scale(m, 1.0) == m && Scale(m, -1.0) == -m;
    TruncateAtLeast(-m, m);
  }

  // However large the jitter factor is, no wait is negative: a jitter that would make it so leaves half
  // of the delay.
  lemma JitterFloor(p: Policy, delay: int, u: real)
    requires p.jitterFactor > 0.0 && delay >= 0
    ensures AddJitter(p, delay, u) >= 0
    ensures delay as real + Scale(Scale(delay as real, p.jitterFactor), u) <= -1.0 ==>
      AddJitter(p, delay, u) == delay / 2
  {
  }

  // A delay that comes with the error is used as it is; otherwise the backoff is.
  lemma DelayWithoutJitter(p: Policy, attempt: nat, e: AgentError, u: real, factor: nat)
    requires attempt >= 1 && p.jitterFactor <= 0.0
    requires p.backoffFactor == factor as real && p.baseDelay >= 0
    ensures CalculateDelay(p, attempt, e, u) ==
      if e.retryAfter > 0 then e.retryAfter else Min(p.baseDelay * IntPower(factor, attempt - 1), p.maxDelay)
  {
    WholeBackoff(p, factor, attempt);
  }

  // What the classifier makes of an error that is not structured: a known status decides; of the
  // others a timeout is waited out for longer.
  lemma UnstructuredIs(f: Failure)
    requires f.structured.None?
    ensures var e := ClassifyError(f);
      var status := if f.status.Some? then f.status.value else 0;
      && (status == 429 ==> e == AgentError(RateLimit, true, 60 * SECOND))
      && (status in {401, 403} ==> e == AgentError(Authentication, false, 0))
      && (status in {400, 404} ==> e == AgentError(Permanent, false, 0))
      && (status in {500, 502, 503, 504} ==> e == AgentError(API, true, 5 * SECOND))
      && (status !in {400, 401, 403, 404, 429, 500, 502, 503, 504} ==>
           e.retryable && (e.kind == Timeout <==> IsTimeout(f))
           && e.retryAfter == if e.kind == Timeout then 10 * SECOND else 5 * SECOND)
  {
  }

  // ---------------------------------------------------------------- what classification does to the policy

  // Backoff only ever applies to errors that come already structured: whatever the classifier
  // makes up itself and would retry has a delay of its own, the same for every attempt.
  lemma BackoffNeedsStructuredError(p: Policy, f: Failure, a: nat, b: nat, u: real)
    requires a >= 1 && b >= 1 && f.structured.None? && ShouldRetry(p, ClassifyError(f))
    ensures CalculateDelay(p, a, ClassifyError(f), u) == CalculateDelay(p, b, ClassifyError(f), u)
    ensures ClassifyError(f).retryAfter >= 5 * SECOND
  {
    assert f.status.Some? && ClassifyStatus(f.status.value).Some? && ClassifyError(f).retryable ==>
      ClassifyError(f).retryAfter >= 5 * SECOND;
  }

  // With every kind listed in the policy, an unstructured error is given up at once exactly for four
  // status codes; under the default policy, for "too many requests" as well.
  predicate AllListed(p: Policy) {
    forall kind: ErrorType :: kind in p.retryableErrors
  }

  lemma GivenUpIff(p: Policy, f: Failure)
    requires AllListed(p) && f.structured.None?
    ensures !ShouldRetry(p, ClassifyError(f)) <==> f.status.Some? && f.status.value in {400, 401, 403, 404}
  {
    var e := ClassifyError(f);
    assert e.kind in p.retryableErrors;
  }

  lemma DefaultGivesUpIff(f: Failure)
    requires f.structured.None?
    ensures !ShouldRetry(DEFAULT_POLICY, ClassifyError(f)) <==>
      f.status.Some? && f.status.value in {400, 401, 403, 404, 429}
  {
    assert DEFAULT_POLICY.retryableErrors == [Network, Timeout, API, Temporary];
  }

  // ---------------------------------------------------------------- retries inside a breaker

  // One decorated call: admission, then the whole retry loop as the protected function.
  method ExecuteProtected(breaker: CircuitBreaker.Breaker, p: Policy, w: World, at: int, doneAt: int)
    returns (admitted: bool, result: Result, tries: seq<Try>)
    requires Random(w)
    modifies breaker
    ensures
      var call := CircuitBreaker.Call(at, result == Succeeded, doneAt);
      && admitted == CircuitBreaker.Admitted(breaker.config, old(breaker.Snapshot()), call)
      && breaker.Snapshot() == CircuitBreaker.AfterCall(breaker.config, old(breaker.Snapshot()), call)
    ensures !admitted ==> tries == []
    ensures admitted && p.maxAttempts >= 1 ==> 1 <= |tries| <= p.maxAttempts
    ensures admitted ==> result == ResultOf(p, tries)
    ensures forall k :: 0 <= k < |tries| ==> tries[k].outcome == w.outcome(k) && (GoesOn(p, w, k) <==> k < |tries| - 1)
    // In every state that calls can reach, this is exactly the case of an open breaker with
    // MaxRequests of at most 1: see `CircuitBreaker.AddsOneRequestIff`.
    ensures admitted ==>
      var successes := if old(breaker.state) == CircuitBreaker.Open then 0 else old(breaker.successiveSuccesses);
      var closes := old(breaker.state) != CircuitBreaker.Closed && successes + 1 >= breaker.config.maxRequests;
      breaker.requests == if closes && result == Succeeded then 0 else old(breaker.requests) + 1
    ensures breaker.failures <= old(breaker.failures) + 1 || breaker.failures == 0
  {
    tries, result := [], NeverRan;
    admitted := breaker.CanExecute(at);
    if admitted {
      result, tries := Execute(p, w);
      breaker.RecordResult(result == Succeeded, doneAt);
    }
  }
}
