/** Aggregation of pull-request checks, the polling loop that waits for them, and the retry loop
    that tries to repair failing ones.
  */
module PRChecks {

  import opened Common

  datatype CheckRun = CheckRun(name: string, status: string, conclusion: string)

  datatype StatusCheck = StatusCheck(context: string, state: string)

  datatype CheckStatus = Pending | Running | Failed | Success

  datatype Result = Result(
    status: CheckStatus,
    allChecksPassing: bool,
    failedChecks: seq<string>,
    pendingChecks: seq<string>,
    totalChecks: nat)

  // ---------------------------------------------------------------- which checks count as what

  predicate RunFails(c: CheckRun) {
    c.status == "completed" && (c.conclusion == "failure" || c.conclusion == "cancelled" || c.conclusion == "timed_out")
  }

  predicate RunWaits(c: CheckRun) {
    c.status == "queued" || c.status == "in_progress" || (c.status == "completed" && c.conclusion == "action_required")
  }

  function WaitingName(c: CheckRun): string {
    if c.status == "completed" then c.name + " (action required)" else c.name
  }

  predicate StatusFails(s: StatusCheck) {
    s.state == "failure" || s.state == "error"
  }

  predicate StatusWaits(s: StatusCheck) {
    s.state == "pending"
  }

  function RunName(c: CheckRun): string {
    c.name
  }

  function Context(s: StatusCheck): string {
    s.context
  }

  // The names, in order, of the items that satisfy `p`.
  function Select<T>(items: seq<T>, p: T -> bool, name: T -> string): seq<string> {
    if items == [] then []
    else
      var last := items[|items| - 1];
      Select(items[..|items| - 1], p, name) + if p(last) then [name(last)] else []
  }

  function FailedNames(runs: seq<CheckRun>, statuses: seq<StatusCheck>): seq<string> {
    Select(runs, RunFails, RunName) + Select(statuses, StatusFails, Context)
  }

  function PendingNames(runs: seq<CheckRun>, statuses: seq<StatusCheck>): seq<string> {
    Select(runs, RunWaits, WaitingName) + Select(statuses, StatusWaits, Context)
  }

  // The verdict as a function of two numbers.
  function Verdict(failed: nat, pending: nat): CheckStatus {
    if failed > 0 then Failed else if pending > 0 then Running else Success
  }

  // ---------------------------------------------------------------- the verdict, stated outright

  // What GitHub has to say about a commit.
  datatype Answer = Answer(runs: seq<CheckRun>, statuses: seq<StatusCheck>)

  predicate SomeFailed(a: Answer) {
    || (exists c :: c in a.runs && c.status == "completed" && c.conclusion in {"failure", "cancelled", "timed_out"})
    || (exists s :: s in a.statuses && s.state in {"failure", "error"})
  }

  predicate SomeWaiting(a: Answer) {
    || (exists c :: c in a.runs && c.status in {"queued", "in_progress"})
    || (exists c :: c in a.runs && c.status == "completed" && c.conclusion == "action_required")
    || (exists s :: s in a.statuses && s.state == "pending")
  }

  // A failure counts before anything that is still to come.
  function VerdictOf(a: Answer): CheckStatus {
    if SomeFailed(a) then Failed else if SomeWaiting(a) then Running else Success
  }

  lemma {:induction false} SelectSome<T>(items: seq<T>, p: T -> bool, name: T -> string)
    ensures Select(items, p, name) != [] <==> exists x :: x in items && p(x)
    ensures forall x :: x in items && p(x) ==> name(x) in Select(items, p, name)
  {
    if items != [] {
      var n := |items| - 1;
      SelectSome(items[..n], p, name);
      assert items == items[..n] + [items[n]];
      assert items[n] in items;
    }
  }

  lemma VerdictIs(a: Answer)
    ensures Verdict(|FailedNames(a.runs, a.statuses)|, |PendingNames(a.runs, a.statuses)|) == VerdictOf(a)
  {
    SelectSome(a.runs, RunFails, RunName);
    SelectSome(a.statuses, StatusFails, Context);
    SelectSome(a.runs, RunWaits, WaitingName);
    SelectSome(a.statuses, StatusWaits, Context);
    FailedMeans(a);
    WaitingMeans(a);
  }

  lemma FailedMeans(a: Answer)
    ensures SomeFailed(a) <==>
      (exists c :: c in a.runs && RunFails(c)) || (exists s :: s in a.statuses && StatusFails(s))
  {
    if c :| c in a.runs && RunFails(c) {
      assert c.conclusion in {"failure", "cancelled", "timed_out"};
    } else if s :| s in a.statuses && StatusFails(s) {
      assert s.state in {"failure", "error"};
    } else if c :| c in a.runs && c.status == "completed" && c.conclusion in {"failure", "cancelled", "timed_out"} {
      assert RunFails(c);
    } else if s :| s in a.statuses && s.state in {"failure", "error"} {
      assert StatusFails(s);
    }
  }

  lemma WaitingMeans(a: Answer)
    ensures SomeWaiting(a) <==>
      (exists c :: c in a.runs && RunWaits(c)) || (exists s :: s in a.statuses && StatusWaits(s))
  {
    if c :| c in a.runs && RunWaits(c) {
      assert c.status in {"queued", "in_progress"} || c.status == "completed";
    } else if s :| s in a.statuses && StatusWaits(s) {
      assert s.state == "pending";
    } else if c :| c in a.runs && c.status in {"queued", "in_progress"} {
      assert RunWaits(c);
    } else if c :| c in a.runs && c.status == "completed" && c.conclusion == "action_required" {
      assert RunWaits(c);
    } else if s :| s in a.statuses && s.state == "pending" {
      assert StatusWaits(s);
    }
  }

  // What is reported by name: every failed check, and every one that is waited for, with a remark if
  // somebody has to act.
  lemma FailuresReported(a: Answer)
    ensures var failed := FailedNames(a.runs, a.statuses);
      && (forall c :: c in a.runs && c.status == "completed" ==>
            (c.conclusion in {"failure", "cancelled", "timed_out"} ==> c.name in failed))
      && (forall s :: s in a.statuses && s.state in {"failure", "error"} ==> s.context in failed)
  {
    SelectSome(a.runs, RunFails, RunName);
    SelectSome(a.statuses, StatusFails, Context);
    assert forall c :: c in a.runs && RunFails(c) ==> RunName(c) in Select(a.runs, RunFails, RunName);
    assert forall s :: s in a.statuses && StatusFails(s) ==> Context(s) in Select(a.statuses, StatusFails, Context);
  }

  lemma WaitingReported(a: Answer)
    ensures var pending := PendingNames(a.runs, a.statuses);
      && (forall c :: c in a.runs && c.status in {"queued", "in_progress"} ==> c.name in pending)
      && (forall c :: c in a.runs && c.status == "completed" && c.conclusion == "action_required" ==>
            c.name + " (action required)" in pending)
      && (forall s :: s in a.statuses && s.state == "pending" ==> s.context in pending)
  {
    SelectSome(a.runs, RunWaits, WaitingName);
    SelectSome(a.statuses, StatusWaits, Context);
    assert forall c :: c in a.runs && RunWaits(c) ==> WaitingName(c) in Select(a.runs, RunWaits, WaitingName);
    assert forall s :: s in a.statuses && StatusWaits(s) ==> Context(s) in Select(a.statuses, StatusWaits, Context);
  }

  // ---------------------------------------------------------------- the loops

  method AnalyzeCheckResults(runs: seq<CheckRun>, statuses: seq<StatusCheck>) returns (r: Result)
    ensures r.failedChecks == FailedNames(runs, statuses)
    ensures r.pendingChecks == PendingNames(runs, statuses)
    ensures r.totalChecks == |runs| + |statuses|
    ensures r.status == Verdict(|r.failedChecks|, |r.pendingChecks|)
    ensures r.status == Success <==> r.allChecksPassing
    ensures r.allChecksPassing <==> r.failedChecks == [] && r.pendingChecks == []
  {
    var status := Pending;
    var passing := true;
    var failed: seq<string>, pending: seq<string> := [], [];

    for i := 0 to |runs|
      invariant failed == Select(runs[..i], RunFails, RunName)
      invariant pending == Select(runs[..i], RunWaits, WaitingName)
      invariant passing <==> failed == [] && pending == []
      invariant failed == [] ==> (status == Running <==> pending != [])
    {
      var check := runs[i];
      SelectNext(runs, i, RunFails, RunName);
      SelectNext(runs, i, RunWaits, WaitingName);
      if check.status == "queued" || check.status == "in_progress" {
        pending := pending + [check.name];
        status := Running;
        passing := false;
      } else if check.status == "completed" {
        if check.conclusion == "failure" || check.conclusion == "cancelled" || check.conclusion == "timed_out" {
          passing := false;
          status := Failed;
          failed := failed + [check.name];
        } else if check.conclusion == "action_required" {
          pending := pending + [check.name + " (action required)"];
          status := Running;
          passing := false;
        }
      }
    }
    assert runs[..|runs|] == runs;

    ghost var failedRuns, pendingRuns := failed, pending;
    for i := 0 to |statuses|
      invariant failed == failedRuns + Select(statuses[..i], StatusFails, Context)
      invariant pending == pendingRuns + Select(statuses[..i], StatusWaits, Context)
      invariant passing <==> failed == [] && pending == []
      invariant failed == [] ==> (status == Running <==> pending != [])
    {
      var st := statuses[i];
      SelectNext(statuses, i, StatusFails, Context);
      SelectNext(statuses, i, StatusWaits, Context);
      if st.state == "pending" {
        pending := pending + [st.context];
        status := Running;
        passing := false;
      } else if st.state == "failure" || st.state == "error" {
        passing := false;
        status := Failed;
        failed := failed + [st.context];
      }
    }
    assert statuses[..|statuses|] == statuses;

    if passing && pending == [] {
      status := Success;
    } else if failed != [] {
      status := Failed;
    } else if pending != [] {
      if status != Running {
        status := Pending;
      }
    }
    r := Result(status, passing, failed, pending, |runs| + |statuses|);
  }

  lemma SelectNext<T>(items: seq<T>, i: nat, p: T -> bool, name: T -> string)
    requires i < |items|
    ensures Select(items[..i + 1], p, name) ==
      Select(items[..i], p, name) + if p(items[i]) then [name(items[i])] else []
  {
    assert items[..i + 1][..i] == items[..i];
  }

  // The verdict on an answer.
  method Analyze(a: Answer) returns (r: Result)
    ensures r.status == VerdictOf(a) && (r.allChecksPassing <==> r.status == Success)
  {
    r := AnalyzeCheckResults(a.runs, a.statuses);
    VerdictIs(a);
  }

  lemma {:induction false} SelectSize<T>(items: seq<T>, i: nat, p: T -> bool, name: T -> string)
    requires i < |items|
    ensures |Select(items, p, name)| == |Select(Without(items, i), p, name)| + (if p(items[i]) then 1 else 0)
  {
    var n := |items| - 1;
    if i == n {
      assert Without(items, i) == items[..n];
    } else {
      assert Without(items, i)[..n - 1] == Without(items[..n], i);
      SelectSize(items[..n], i, p, name);
    }
  }

  function Without<T>(s: seq<T>, i: nat): seq<T>
    requires i < |s|
  {
    s[..i] + s[i + 1..]
  }

  lemma WithoutOne<T>(s: seq<T>, i: nat)
    requires i < |s|
    ensures multiset(s) == multiset(Without(s, i)) + multiset{s[i]}
  {
    assert s == s[..i] + [s[i]] + s[i + 1..];
  }

  lemma FindIn<T>(s: seq<T>, x: T) returns (i: nat)
    requires x in multiset(s)
    ensures i < |s| && s[i] == x
  {
    i :| 0 <= i < |s| && s[i] == x;
  }

  // Taking an equal element out of each leaves permutations.
  lemma TakeOut<T>(a: seq<T>, b: seq<T>) returns (i: nat)
    requires multiset(a) == multiset(b) && a != []
    ensures i < |b| && b[i] == a[|a| - 1] && multiset(a[..|a| - 1]) == multiset(Without(b, i))
  {
    var n := |a| - 1;
    WithoutOne(a, n);
    assert Without(a, n) == a[..n];
    i := FindIn(b, a[n]);
    WithoutOne(b, i);
    assert multiset(a[..n]) == multiset(a) - multiset{a[n]};
    assert multiset(Without(b, i)) == multiset(b) - multiset{a[n]};
  }

  lemma {:induction false} SelectSizeOfPermutation<T>(a: seq<T>, b: seq<T>, p: T -> bool, name: T -> string)
    requires multiset(a) == multiset(b)
    ensures |Select(a, p, name)| == |Select(b, p, name)|
    decreases |a|
  {
    assert |multiset(a)| == |a| && |multiset(b)| == |b|;
    if a != [] {
      var i := TakeOut(a, b);
      SelectSize(b, i, p, name);
      SelectSizeOfPermutation(a[..|a| - 1], Without(b, i), p, name);
    }
  }

  // The order in which GitHub lists the checks never matters, although the loops overwrite the
  // status as they go.
  lemma VerdictIgnoresOrder(
    runs: seq<CheckRun>, runs': seq<CheckRun>, statuses: seq<StatusCheck>, statuses': seq<StatusCheck>)
    requires multiset(runs) == multiset(runs') && multiset(statuses) == multiset(statuses')
    ensures Verdict(|FailedNames(runs, statuses)|, |PendingNames(runs, statuses)|)
         == Verdict(|FailedNames(runs', statuses')|, |PendingNames(runs', statuses')|)
  {
    SelectSizeOfPermutation(runs, runs', RunFails, RunName);
    SelectSizeOfPermutation(runs, runs', RunWaits, WaitingName);
    SelectSizeOfPermutation(statuses, statuses', StatusFails, Context);
    SelectSizeOfPermutation(statuses, statuses', StatusWaits, Context);
  }

  // ---------------------------------------------------------------- waiting

  // Durations in nanoseconds.
  datatype Options = Options(
    maxWaitTime: int,
    pollInterval: int,
    maxRetries: int,
    backoffFactor: real,
    maxPollTime: int)

  const SECOND := 1_000_000_000

  const DEFAULT_OPTIONS := Options(1800 * SECOND, 30 * SECOND, 3, 1.5, 300 * SECOND)

  function Effective(opts: Options): Options {
    if opts.maxWaitTime == 0 then DEFAULT_OPTIONS else opts
  }

  // With such options the intervals never shrink below the first one.
  predicate Patient(opts: Options) {
    1 <= opts.pollInterval <= opts.maxPollTime && opts.backoffFactor >= 1.0
  }

  lemma Growth(interval: int, factor: real)
    ensures interval >= 0 && factor >= 1.0 ==> Truncate(interval as real * factor) >= interval
  {
    if interval >= 0 && factor >= 1.0 {
      assert interval as real * (factor - 1.0) >= 0.0;
      assert interval as real * factor == interval as real * (factor - 1.0) + interval as real;
    }
  }

  // Exponential backoff with a cap; the product is truncated to whole nanoseconds.
  function NextInterval(opts: Options, interval: int): (next: int)
    ensures next <= opts.maxPollTime
    ensures Patient(opts) && interval >= opts.pollInterval ==> opts.pollInterval <= next
  {
    Growth(interval, opts.backoffFactor);
    var grown := Truncate(interval as real * opts.backoffFactor);
    if grown > opts.maxPollTime then opts.maxPollTime else grown
  }

  // The pause after the reads numbered from 0.
  function Interval(opts: Options, k: nat): int {
    if k == 0 then opts.pollInterval else NextInterval(opts, Interval(opts, k - 1))
  }

  // What the first `k` pauses take together; a negative pause takes no time.
  function Waited(opts: Options, k: nat): nat {
    if k == 0 then 0 else Waited(opts, k - 1) + Max(0, Interval(opts, k - 1))
  }

  lemma {:induction false} WaitedGrows(opts: Options, j: nat, k: nat)
    requires j <= k
    ensures Waited(opts, j) <= Waited(opts, k)
    decreases k
  {
    if j < k {
      WaitedGrows(opts, j, k - 1);
    }
  }

  lemma {:induction false} IntervalAtLeast(opts: Options, k: nat)
    requires Patient(opts)
    ensures opts.pollInterval <= Interval(opts, k)
  {
    if k > 0 {
      IntervalAtLeast(opts, k - 1);
    }
  }

  // Without the growth of the intervals the bound is a quotient.
  lemma {:induction false} WaitedAtLeast(opts: Options, k: nat)
    requires Patient(opts)
    ensures k * opts.pollInterval <= Waited(opts, k)
  {
    if k > 0 {
      WaitedAtLeast(opts, k - 1);
      IntervalAtLeast(opts, k - 1);
      MulStep(k - 1, opts.pollInterval);
    }
  }

  // Under the default options, the only ones in use: 30 seconds at first, 1.5 times as long each
  // time, at most 5 minutes. The tenth pause ends after the 30 minutes are over.
  lemma DefaultFetches(fetches: nat)
    requires fetches > 0 ==> Waited(DEFAULT_OPTIONS, fetches - 1) < DEFAULT_OPTIONS.maxWaitTime
    ensures fetches <= 10
  {
    DefaultWait();
    if fetches > 10 {
      WaitedGrows(DEFAULT_OPTIONS, 10, fetches - 1);
    }
  }

  lemma Grows(d: int)
    requires 0 <= 3 * d && d % 2 == 0
    ensures NextInterval(DEFAULT_OPTIONS, d) == Min(3 * d / 2, DEFAULT_OPTIONS.maxPollTime)
  {
    assert d as real * 1.5 == (3 * (d / 2)) as real;
  }

  // The next pause, given the one before and the time so far.
  lemma NextWait(k: nat, d: int, wait: nat)
    requires Interval(DEFAULT_OPTIONS, k) == d && Waited(DEFAULT_OPTIONS, k) == wait && d >= 0 && d % 2 == 0
    ensures Interval(DEFAULT_OPTIONS, k + 1) == Min(3 * d / 2, DEFAULT_OPTIONS.maxPollTime)
    ensures Waited(DEFAULT_OPTIONS, k + 1) == wait + d
  {
    Grows(d);
  }

  lemma DefaultWait()
    ensures Waited(DEFAULT_OPTIONS, 10) >= DEFAULT_OPTIONS.maxWaitTime
  {
    NextWait(0, 30_000_000_000, 0);
    NextWait(1, 45_000_000_000, 30_000_000_000);
    NextWait(2, 67_500_000_000, 75_000_000_000);
    NextWait(3, 101_250_000_000, 142_500_000_000);
    NextWait(4, 151_875_000_000, 243_750_000_000);
    NextWait(5, 227_812_500_000, 395_625_000_000);
    NextWait(6, 300_000_000_000, 623_437_500_000);
    NextWait(7, 300_000_000_000, 923_437_500_000);
    NextWait(8, 300_000_000_000, 1_223_437_500_000);
    NextWait(9, 300_000_000_000, 1_523_437_500_000);
  }

  lemma MulStep(n: int, x: int)
    ensures (n + 1) * x == n * x + x
  {
  }

  lemma MulCancel(a: int, b: int, x: int)
    requires x >= 1 && a * x < b * x
    ensures a < b
  {
  }

  lemma FetchBound(fetches: nat, interval: int, wait: int)
    requires interval >= 1 && wait >= 0
    requires fetches > 0 ==> (fetches - 1) * interval < wait
    ensures fetches <= wait / interval + 1
  {
    var q := wait / interval;
    MulStep(q, interval);
    assert wait == interval * q + wait % interval;
    if fetches > 0 {
      MulCancel(fetches - 1, q + 1, interval);
    }
  }

  // What the limit on the pauses says about the number of fetches.
  lemma FetchBounds(opts: Options, fetches: nat)
    requires fetches > 0 ==> Waited(opts, fetches - 1) < opts.maxWaitTime
    ensures opts == DEFAULT_OPTIONS ==> fetches <= 10
    ensures Patient(opts) && opts.maxWaitTime >= 0 ==> fetches <= opts.maxWaitTime / opts.pollInterval + 1
  {
    if opts == DEFAULT_OPTIONS {
      DefaultFetches(fetches);
    }
    if Patient(opts) && opts.maxWaitTime >= 0 {
      WaitedAtLeast(opts, Max(0, fetches - 1));
      FetchBound(fetches, opts.pollInterval, opts.maxWaitTime);
    }
  }

  // What happens around one validation: whether the context has ended when the k-th round begins,
  // what GitHub answers then (`None` for an error), and how long the calls of that round take.
  datatype Env = Env(done: nat -> bool, answer: nat -> Option<Answer>, took: nat -> nat)

  // How long the first `k` rounds last; a round takes at least one nanosecond, whatever the options.
  function Spent(opts: Options, env: Env, k: nat): nat {
    if k == 0 then 0 else Spent(opts, env, k - 1) + Max(1, Max(0, Interval(opts, k - 1)) + env.took(k - 1))
  }

  lemma {:induction false} SpentAtLeast(opts: Options, env: Env, k: nat)
    ensures Waited(opts, k) <= Spent(opts, env, k)
  {
    if k > 0 {
      SpentAtLeast(opts, env, k - 1);
    }
  }

  // The k-th round takes place.
  predicate Begins(opts: Options, env: Env, k: nat) {
    !env.done(k) && Spent(opts, env, k) < opts.maxWaitTime
  }

  // It takes place, and its verdict is that checks are running.
  predicate GoesOn(opts: Options, env: Env, k: nat) {
    Begins(opts, env, k) && env.answer(k).Some? && VerdictOf(env.answer(k).value) == Running
  }

  // The validation ends in the k-th round with this verdict, or with an error.
  ghost predicate Ends(opts: Options, env: Env, k: nat, v: Option<CheckStatus>) {
    && (forall i :: 0 <= i < k ==> GoesOn(opts, env, i))
    && !GoesOn(opts, env, k)
    && v == if Begins(opts, env, k) && env.answer(k).Some? then Some(VerdictOf(env.answer(k).value)) else None
  }

  // However many rounds there are.
  ghost predicate EndsWith(options: Options, env: Env, v: Option<CheckStatus>) {
    exists k :: Ends(Effective(options), env, k, v)
  }

  // What happens around it decides how a validation ends.
  lemma EndsOnce(opts: Options, env: Env, k: nat, v: Option<CheckStatus>, k': nat, v': Option<CheckStatus>)
    requires Ends(opts, env, k, v) && Ends(opts, env, k', v')
    ensures k == k' && v == v'
  {
    assert k < k' ==> GoesOn(opts, env, k);
    assert k' < k ==> GoesOn(opts, env, k');
  }

  // `fetches` is the number of times the status was fetched, and `seen` the verdicts that came back.
  // No result is an error, a cancelled context or a timeout.
  method ValidatePR(options: Options, env: Env)
    returns (r: Option<Result>, fetches: nat, seen: seq<CheckStatus>, ghost rounds: nat)
    ensures Ends(Effective(options), env, rounds, if r.Some? then Some(r.value.status) else None)
    ensures fetches == rounds + (if Begins(Effective(options), env, rounds) then 1 else 0)
    ensures r.Some? <==> seen != [] && seen[|seen| - 1] != Running
    ensures r.Some? ==> r.value.status == seen[|seen| - 1]
                        && r.value.status == (if r.value.allChecksPassing then Success else Failed)
    ensures forall i :: 0 <= i < |seen| - 1 ==> seen[i] == Running
    ensures |seen| <= fetches <= |seen| + 1
    ensures fetches > 0 ==> Waited(Effective(options), fetches - 1) < Effective(options).maxWaitTime
    ensures Effective(options) == DEFAULT_OPTIONS ==> fetches <= 10
    ensures Patient(Effective(options)) && Effective(options).maxWaitTime >= 0 ==>
              fetches <= Effective(options).maxWaitTime / Effective(options).pollInterval + 1
  {
    var opts := if options.maxWaitTime == 0 then DEFAULT_OPTIONS else options;
    var elapsed := 0;
    var interval := opts.pollInterval;
    r, fetches, seen := None, 0, [];
    rounds := 0;
    while true
      invariant r == None && |seen| == fetches == rounds
      invariant forall i :: 0 <= i < rounds ==> GoesOn(opts, env, i)
      invariant forall i :: 0 <= i < |seen| ==> seen[i] == Running
      invariant interval == Interval(opts, fetches) && elapsed == Spent(opts, env, fetches)
      decreases opts.maxWaitTime - elapsed
    {
      if env.done(fetches) || elapsed >= opts.maxWaitTime {
        break;
      }
      var answer, took := env.answer(fetches), env.took(fetches);
      fetches := fetches + 1;
      if answer.None? {
        break;
      }
      var result := Analyze(answer.value);
      seen := seen + [result.status];
      assert result.status == VerdictOf(answer.value);
      if result.allChecksPassing && result.status == Success {
        r := Some(result);
        break;
      }
      if result.status == Failed {
        r := Some(result);
        break;
      }
      assert GoesOn(opts, env, rounds);
      elapsed := elapsed + Max(1, Max(0, interval) + took);
      interval := NextInterval(opts, interval);
      rounds := rounds + 1;
    }
    RoundBounds(opts, env, rounds, fetches);
  }

  // What the time spent says about the number of fetches.
  lemma RoundBounds(opts: Options, env: Env, rounds: nat, fetches: nat)
    requires forall i :: 0 <= i < rounds ==> GoesOn(opts, env, i)
    requires fetches == rounds + (if Begins(opts, env, rounds) then 1 else 0)
    ensures fetches > 0 ==> Waited(opts, fetches - 1) < opts.maxWaitTime
    ensures opts == DEFAULT_OPTIONS ==> fetches <= 10
    ensures Patient(opts) && opts.maxWaitTime >= 0 ==> fetches <= opts.maxWaitTime / opts.pollInterval + 1
  {
    if fetches > 0 {
      assert fetches - 1 < rounds ==> GoesOn(opts, env, fetches - 1);
      SpentAtLeast(opts, env, fetches - 1);
    }
    FetchBounds(opts, fetches);
  }

  method Validated(options: Options, env: Env)
    returns (r: Option<Result>, fetches: nat, seen: seq<CheckStatus>)
    ensures EndsWith(options, env, if r.Some? then Some(r.value.status) else None)
    ensures r.Some? ==> r.value.status == (if r.value.allChecksPassing then Success else Failed)
  {
    ghost var rounds;
    r, fetches, seen, rounds := ValidatePR(options, env);
  }

  // How an attempt to repair failing checks ends: whether there is a fix, whether it can be staged,
  // whether it changes anything, and whether it is committed and pushed.
  datatype Repair = Repair(fixed: bool, staged: bool, changed: bool, pushed: bool)

  predicate GivesUp(r: Repair) {
    r.fixed && (!r.staged || (r.changed && !r.pushed))
  }

  // One validation per attempt. `verdicts` are the outcomes of the calls of ValidatePR, in order,
  // `None` for an error; `fixes` counts the calls of fixPRFailures.
  method ValidatePRChecks(opts: Options, envs: nat -> Env, repairs: nat -> Repair)
    returns (passed: bool, verdicts: seq<Option<CheckStatus>>, fixes: nat)
    ensures forall i :: 0 <= i < |verdicts| ==> EndsWith(opts, envs(i), verdicts[i])
    ensures passed <==> verdicts != [] && verdicts[|verdicts| - 1] == Some(Success)
    ensures forall i :: 0 <= i < |verdicts| - 1 ==> verdicts[i] == Some(Failed) && !GivesUp(repairs(i))
    ensures |verdicts| <= Max(0, opts.maxRetries)
    ensures |verdicts| < opts.maxRetries ==> verdicts != []
    ensures 0 < |verdicts| < opts.maxRetries && verdicts[|verdicts| - 1] == Some(Failed) ==>
      GivesUp(repairs(|verdicts| - 1))
    ensures fixes <= Max(0, opts.maxRetries - 1) && |verdicts| - 1 <= fixes <= |verdicts|
  {
    verdicts, fixes := [], 0;
    var attempt := 1;
    while attempt <= opts.maxRetries
      invariant |verdicts| == attempt - 1 == fixes
      invariant attempt <= Max(0, opts.maxRetries) + 1
      invariant fixes <= Max(0, opts.maxRetries - 1)
      invariant forall i :: 0 <= i < |verdicts| ==> verdicts[i] == Some(Failed) && !GivesUp(repairs(i))
      invariant forall i :: 0 <= i < |verdicts| ==> EndsWith(opts, envs(i), verdicts[i])
      invariant attempt > opts.maxRetries ==> opts.maxRetries <= 0
    {
      var result, _, _ := Validated(opts, envs(attempt - 1));
      if result == None {
        verdicts := verdicts + [None];
        return false, verdicts, fixes;
      }
      verdicts := verdicts + [Some(result.value.status)];
      if result.value.allChecksPassing && result.value.status == Success {
        return true, verdicts, fixes;
      }
      if result.value.status == Failed {
        if attempt >= opts.maxRetries {
          return false, verdicts, fixes;
        }
        fixes := fixes + 1;
        var repair := repairs(attempt - 1);
        if repair.fixed {
          if !repair.staged {
            return false, verdicts, fixes;
          }
          if repair.changed && !repair.pushed {
            return false, verdicts, fixes;
          }
        }
      }
      attempt := attempt + 1;
    }
    return false, verdicts, fixes;
  }
}
