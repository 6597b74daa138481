/** The developer workflow of internal/developer: processIssue, the decomposition that makes it call
    itself through processChildIssues, and the poll loop that drives it.

    Every outcome of GitHub, Claude, git, the disk and the context is chosen arbitrarily (`:= *`), so
    what is proved holds for all of them. Nothing in the source counts how deep the recursion is; it
    ends because every caller holds an active workspace until it returns.
  */
module Workflow {
  import opened Common
  import opened SavedStates
  import PRChecks
  import W = WorkspaceManager

  datatype Label = Ready | Claimed | InProgress | InReview | Epic | HasFailed | Subtask

  // An issue on GitHub. `grants` counts how often it was given the ready label when it did not have
  // it, by anybody, and `claims` how often this agent claimed it; the program sees neither.
  datatype Record = Record(labels: set<Label>, grants: nat, claims: nat)

  predicate Balanced(r: Record) {
    r.claims + (if Ready in r.labels then 1 else 0) <= r.grants
  }

  // It was made ready more often than it was claimed.
  predicate Claimable(r: Record) {
    r.claims < r.grants
  }

  function Labelled(r: Record, ls: set<Label>): Record {
    r.(labels := r.labels + ls, grants := r.grants + if Ready in ls - r.labels then 1 else 0)
  }

  function Unlabelled(r: Record, l: Label): Record {
    r.(labels := r.labels - {l})
  }

  // Claimed and not offered any more.
  predicate Taken(r: Record) {
    Claimed in r.labels && Ready !in r.labels
  }

  // An issue given back for another attempt.
  function MadeReady(r: Record): Record {
    Labelled(Unlabelled(Unlabelled(r, Claimed), InProgress), {Ready})
  }

  // ---------------------------------------------------------------- GitHub

  class GitHub {
    // Whether label calls succeed, as long as the context lasts.
    const reliable: bool
    // Whether listing, fetching, creating and commenting succeed as well, as long as the context lasts.
    const flawless: bool
    // Whether calls fail once their context has ended. Those of the client in use do.
    const heedsContext: bool
    // Whether nobody else ever acts.
    const quiet: bool
    var issues: map<IssueId, Record>
    // Issue numbers are handed out in increasing order; all numbers in use are below `next`.
    var next: int
    // Whether the context of this agent's calls has ended.
    var cancelled: bool

    predicate Ended()
      reads this
    {
      heedsContext && cancelled
    }

    // The end of the context can come between the two label calls of a claim. That is the one way in
    // which an issue comes to be out of balance, and there is no claim after it.
    ghost predicate Valid()
      reads this
    {
      && (forall k :: k in issues ==> k.number < next)
      && (reliable ==> forall k :: k in issues ==> issues[k].claims <= issues[k].grants)
      && (reliable && !Ended() ==> forall k :: k in issues ==> Balanced(issues[k]))
      && (reliable ==> AtMostOneOut())
    }

    ghost predicate AtMostOneOut()
      reads this
    {
      forall j, k :: j in issues && k in issues && !Balanced(issues[j]) && !Balanced(issues[k]) ==> j == k
    }

    // The context ends, or it does not.
    method MayEnd()
      requires Valid()
      modifies this`cancelled
      ensures Valid() && (old(cancelled) ==> cancelled)
    {
      var now: bool := *;
      cancelled := cancelled || now;
    }

    // A call that is cut short by the end of the context may or may not have had its effect.
    method AddLabels(k: IssueId, ls: set<Label>) returns (ok: bool)
      requires Valid() && k in issues
      modifies this
      ensures Valid() && next == old(next) && (old(cancelled) ==> cancelled)
      ensures k in issues && issues == old(issues)[k := issues[k]]
      ensures issues[k] == Labelled(old(issues)[k], ls) || issues[k] == old(issues)[k]
      ensures reliable && (ok || !Ended()) ==> issues[k] == Labelled(old(issues)[k], ls)
      ensures reliable && !Ended() ==> ok
      ensures old(Ended()) ==> !ok && issues == old(issues)
    {
      var applied: bool;
      ok, applied := *, *;
      MayEnd();
      if Ended() {
        ok := false;
      } else {
        if reliable {
          ok, applied := true, true;
        }
        if applied {
          issues := issues[k := Labelled(issues[k], ls)];
        }
        MayEnd();
        if Ended() {
          ok := *;
          ok := ok && applied;
        }
      }
    }

    method RemoveLabel(k: IssueId, l: Label) returns (ok: bool)
      requires Valid() && k in issues
      modifies this
      ensures Valid() && next == old(next) && (old(cancelled) ==> cancelled)
      ensures k in issues && issues == old(issues)[k := issues[k]]
      ensures issues[k] == Unlabelled(old(issues)[k], l) || issues[k] == old(issues)[k]
      ensures reliable && !Ended() ==> issues[k] == Unlabelled(old(issues)[k], l)
      ensures old(Ended()) ==> issues == old(issues)
    {
      var applied: bool;
      ok, applied := *, *;
      MayEnd();
      if !Ended() {
        if reliable || applied {
          issues := issues[k := Unlabelled(issues[k], l)];
        }
        MayEnd();
      }
    }

    // Creation is retried. Every attempt can make an issue, and can do so without its answer coming
    // back; then the issue stays, and `k` is another one or none.
    method CreateIssue(ls: set<Label>) returns (ok: bool, k: IssueId)
      requires Valid()
      modifies this
      ensures Valid() && OnlyAdded()
      ensures forall j :: j in issues && j !in old(issues) ==> issues[j] == Labelled(Record({}, 0, 0), ls)
      ensures ok ==> k in issues && k !in old(issues)
      ensures old(Ended()) ==> !ok && issues == old(issues)
      ensures flawless && !Ended() ==> ok
    {
      ok, k := false, W.Issue(next);
      ghost var first := true;
      var attempts: int :| attempts >= 1;
      while attempts > 0 && !ok
        invariant Valid() && OnlyAdded()
        invariant forall j :: j in issues && j !in old(issues) ==> issues[j] == Labelled(Record({}, 0, 0), ls)
        invariant ok ==> k in issues && k !in old(issues)
        invariant old(Ended()) ==> !ok && issues == old(issues)
        invariant if first then attempts >= 1 else flawless && !Ended() ==> ok
        decreases attempts
      {
        MayEnd();
        if !Ended() {
          ok, k := Attempt(ls, flawless);
        }
        first := false;
        attempts := attempts - 1;
      }
    }

    // Issues may have been filed, and the context may have ended; nothing else has happened.
    twostate predicate OnlyAdded()
      reads this
    {
      && old(next) <= next && (old(cancelled) ==> cancelled)
      && (forall j :: j in old(issues) ==> j in issues && issues[j] == old(issues)[j])
      && (forall j :: j in issues && j !in old(issues) ==> old(next) <= j.number)
    }

    // One request. Others may have taken numbers in the meantime.
    method Attempt(ls: set<Label>, sure: bool) returns (ok: bool, k: IssueId)
      requires Valid()
      modifies this
      ensures Valid() && old(next) <= k.number < next && cancelled == old(cancelled)
      ensures issues == old(issues)[k := Labelled(Record({}, 0, 0), ls)] || (issues == old(issues) && !ok)
      ensures sure ==> ok
    {
      var number: int :| number >= next;
      var made: bool := *;
      ok, k, next := *, W.Issue(number), number + 1;
      made := made || sure;
      ok := (ok || sure) && made;
      if made {
        issues := issues[k := Labelled(Record({}, 0, 0), ls)];
      }
    }

    // The open issues with the ready label, in any order; one page of them.
    method ListIssues() returns (ok: bool, l: seq<IssueId>)
      requires Valid()
      modifies this`cancelled
      ensures Valid() && (old(cancelled) ==> cancelled)
      ensures flawless && !Ended() ==> ok
      ensures Distinct(l) && forall i :: 0 <= i < |l| ==> l[i] in issues && Ready in issues[l[i]].labels
      ensures |l| == if ok then Min(50, |Offered(issues)|) else 0
      ensures ok && |Offered(issues)| <= 50 ==> forall k :: k in Offered(issues) ==> k in l
    {
      ok := *;
      MayEnd();
      ok := if Ended() then false else ok || flawless;
      l := [];
      var rest := Offered(issues);
      while rest != {} && |l| < 50 && ok
        invariant Distinct(l) && forall i :: 0 <= i < |l| ==> l[i] in issues && Ready in issues[l[i]].labels
        invariant forall k :: k in rest ==> k in issues && Ready in issues[k].labels && k !in l
        invariant forall k :: k in Offered(issues) ==> k in l || k in rest
        invariant |l| <= 50 && |l| + |rest| == |Offered(issues)| && (!ok ==> l == [])
        decreases rest
      {
        var k :| k in rest;
        l, rest := l + [k], rest - {k};
      }
    }

    // Anybody else, once: files an issue, or adds or removes a label.
    method OthersActOnce()
      requires Valid() && !quiet
      modifies this
      ensures Valid() && OnlyOthers()
    {
      var ls: set<Label>, l: Label, choice: int := *, *, *;
      if choice == 0 {
        var _, _ := Attempt(ls, false);
      } else if issues.Keys != {} {
        var k :| k in issues.Keys;
        issues := issues[k := if choice == 1 then Labelled(issues[k], ls) else Unlabelled(issues[k], l)];
      }
    }

    // What others never do: claim for this agent, take back a grant, or remove an issue.
    twostate predicate OnlyOthers()
      reads this
    {
      && old(next) <= next && (old(cancelled) ==> cancelled)
      && (forall k :: k in old(issues) ==> k in issues)
      && (forall k :: k in old(issues) ==> issues[k].claims == old(issues)[k].claims)
      && (forall k :: k in old(issues) ==> issues[k].grants >= old(issues)[k].grants)
      && (quiet ==> issues == old(issues) && next == old(next))
    }

    // Anybody else, any number of times.
    method OthersAct()
      requires Valid()
      modifies this
      ensures Valid() && OnlyOthers()
    {
      var more: int :| more >= 0;
      while more > 0 && !quiet
        invariant Valid() && OnlyOthers()
        decreases more
      {
        OthersActOnce();
        MayEnd();
        more := more - 1;
      }
    }

    method CountClaim(k: IssueId)
      requires Valid() && k in issues
      requires reliable ==> issues[k].claims < issues[k].grants && (Ended() || Ready !in issues[k].labels)
      requires reliable ==> forall j :: j in issues ==> Balanced(issues[j])
      modifies this`issues
      ensures Valid()
      ensures issues == old(issues)[k := old(issues)[k].(claims := old(issues)[k].claims + 1)]
    {
      issues := issues[k := issues[k].(claims := issues[k].claims + 1)];
    }
  }

  // ---------------------------------------------------------------- the state store

  function TraceOf(traces: map<IssueId, seq<Saved>>, k: IssueId): seq<Saved> {
    if k in traces then traces[k] else []
  }

  // One slot per agent type, of which there is one here. `traces` holds, for every issue, what was
  // saved for it by the latest call of processIssue.
  class FileStore {
    // Whether the file can always be written.
    const writable: bool
    var slot: Option<Saved>
    ghost var traces: map<IssueId, seq<Saved>>

    ghost function Trace(k: IssueId): seq<Saved>
      reads this
    {
      TraceOf(traces, k)
    }

    ghost method StartTrace(k: IssueId)
      modifies this`traces
      ensures traces == old(traces)[k := []]
    {
      traces := traces[k := []];
    }

    method Save(e: Saved) returns (ok: bool)
      modifies this
      ensures writable ==> ok
      ensures traces == old(traces)[e.issue := old(Trace(e.issue)) + [e]]
      ensures slot == if ok then Some(e) else old(slot)
    {
      traces := traces[e.issue := Trace(e.issue) + [e]];
      ok := *;
      ok := ok || writable;
      if ok {
        slot := Some(e);
      }
    }
  }

  // The trace ends in `ws`, or in a checkpoint of it.
  ghost predicate Traced(t: seq<Saved>, ws: Saved) {
    t != [] && IsTrace(t) && t[|t| - 1].(checkpoint := false) == ws
  }

  // ---------------------------------------------------------------- counting the recursion

  function Power(b: nat, e: nat): nat {
    if e == 0 then 1 else b * Power(b, e - 1)
  }

  // b^0 + b^1 + ... + b^n
  function SumOfPowers(b: nat, n: nat): (sum: nat)
    ensures sum >= 1
  {
    if n == 0 then 1 else SumOfPowers(b, n - 1) + Power(b, n)
  }

  lemma {:induction false} SumUnfolds(b: nat, n: nat)
    requires n > 0
    ensures SumOfPowers(b, n) == 1 + b * SumOfPowers(b, n - 1)
  {
    assert Power(b, n) == b * Power(b, n - 1);
    if n == 1 {
      assert SumOfPowers(b, n - 1) == 1 && Power(b, n - 1) == 1;
    } else {
      SumUnfolds(b, n - 1);
      Distribute(b, SumOfPowers(b, n - 2), Power(b, n - 1));
    }
  }

  lemma Distribute(b: nat, x: nat, y: nat)
    ensures b * (x + y) == b * x + b * y
  {
  }

  lemma TimesMonotone(a: nat, b: nat, x: nat)
    requires a <= b
    ensures a * x <= b * x
  {
  }

  // n times x, added up one at a time.
  function Times(n: nat, x: nat): nat {
    if n == 0 then 0 else Times(n - 1, x) + x
  }

  lemma {:induction false} TimesIsProduct(n: nat, x: nat)
    ensures Times(n, x) == n * x
  {
    if n > 0 {
      TimesIsProduct(n - 1, x);
      Distribute(x, n - 1, 1);
    }
  }

  // At most b trees of height n fit under one root.
  lemma ChildrenFit(children: nat, b: nat, n: nat)
    requires children <= b
    ensures Times(children, SumOfPowers(b, n)) < SumOfPowers(b, n + 1)
  {
    TimesIsProduct(children, SumOfPowers(b, n));
    TimesMonotone(children, b, SumOfPowers(b, n));
    SumUnfolds(b, n + 1);
  }

  // ---------------------------------------------------------------- how one call can end

  predicate Passed(verdicts: seq<Option<PRChecks.CheckStatus>>) {
    verdicts != [] && verdicts[|verdicts| - 1] == Some(PRChecks.Success)
  }

  // How everything outside ends for one call of processIssue: the disk, git, Claude, and GitHub for the
  // pull request and its checks. `subtasks` is how many subtasks Claude names, 0 also if it fails.
  datatype Fate = Fate(
    diskOk: bool,
    mkdirOk: bool,
    cloned: bool,
    analyzed: bool,
    tooComplex: bool,
    implemented: bool,
    outOfIterations: bool,
    removable: bool,
    pushed: bool,
    prOpened: bool,
    number: int,
    subtasks: nat,
    envs: nat -> PRChecks.Env,
    repairs: nat -> PRChecks.Repair)

  // `begun` says whether the claim succeeded, `last` is then the last state saved, and `held` says
  // whether a workspace was made active for the issue.
  datatype Outcome = Outcome(begun: bool, held: bool, last: Stage, verdicts: seq<Option<PRChecks.CheckStatus>>)

  // The work gets as far as a pull request; or it is given to child issues.
  predicate Publishes(fate: Fate, decomposition: bool) {
    && fate.cloned && fate.analyzed && !(fate.tooComplex && decomposition)
    && fate.implemented && fate.pushed && fate.prOpened
  }

  predicate Splits(fate: Fate, decomposition: bool) {
    && fate.cloned && fate.analyzed && decomposition
    && (fate.tooComplex || (!fate.implemented && fate.outOfIterations))
  }

  // One verdict for each validation of the pull request.
  ghost predicate Checked(fate: Fate, verdicts: seq<Option<PRChecks.CheckStatus>>) {
    && verdicts != []
    && forall i :: 0 <= i < |verdicts| ==> PRChecks.EndsWith(PRChecks.DEFAULT_OPTIONS, fate.envs(i), verdicts[i])
  }

  // How the work in a workspace ends. `calm` says that GitHub did not get in the way.
  ghost predicate Fits(
    fate: Fate, decomposition: bool, calm: bool, last: Stage, verdicts: seq<Option<PRChecks.CheckStatus>>)
  {
    && Terminal(last)
    && (last == Complete <==> Passed(verdicts))
    && (if Publishes(fate, decomposition) then Checked(fate, verdicts) else verdicts == [])
    && (last == Decompose ==> Splits(fate, decomposition) && fate.subtasks > 0)
    && (calm && Splits(fate, decomposition) && fate.subtasks > 0 ==> last == Decompose)
  }

  // The labels that say how the work on an issue ended.
  predicate Shows(last: Stage, labels: set<Label>) {
    && (last == Complete ==> InReview in labels && InProgress !in labels)
    && (last == Failed ==> HasFailed in labels)
    && (last == Decompose ==> Epic in labels && Ready !in labels)
  }

  // What the saves of one call have to do with its outcome.
  ghost predicate Explains(o: Outcome, t: seq<Saved>) {
    && IsTrace(t)
    && (t != [] <==> o.begun)
    && (t != [] ==> t[|t| - 1].stage == o.last)
    && (if o.held then Terminal(o.last) else o.last in {Claim, Failed})
    && (o.last == Complete <==> Passed(o.verdicts))
  }

  // ---------------------------------------------------------------- the agent

  class Developer {
    const manager: W.Manager
    const github: GitHub
    const store: FileStore
    const maxSubtasks: nat
    const decomposition: bool
    // What the calls of ProcessIssue meet, in the order in which they are made.
    const fates: nat -> Fate

    // The issues of all calls of ProcessIssue so far, the number of calls not yet returned, and the
    // most of them at any time.
    var log: seq<IssueId>
    ghost var nesting: nat
    ghost var deepest: nat

    ghost predicate Valid()
      reads this, manager, github, store
    {
      && github.Valid()
      && (forall k :: k in ActiveIssues() ==> k.number < github.next)
      && (forall k :: k in store.traces ==> k.number < github.next)
    }

    constructor (manager: W.Manager, github: GitHub, store: FileStore, maxSubtasks: nat, decomposition: bool,
                 fates: nat -> Fate)
      requires github.Valid() && store.traces == map[]
      requires W.InState(manager.workspaces, W.Active) == {}
      ensures this.manager == manager && this.github == github && this.store == store
      ensures this.maxSubtasks == maxSubtasks && this.decomposition == decomposition && this.fates == fates
      ensures Valid()
      ensures log == [] && nesting == deepest == 0
    {
      this.manager, this.github, this.store := manager, github, store;
      this.maxSubtasks, this.decomposition, this.fates := maxSubtasks, decomposition, fates;
      log, nesting, deepest := [], 0, 0;
    }

    // Workspaces that can still be made active.
    ghost function Free(): nat
      reads manager
    {
      Max(0, manager.maxConcurrent - W.ActiveCount(manager.workspaces))
    }

    // What a step that works on the issues in `changed` does not do to any other issue numbered
    // below `bound`: claim it, take back a grant, save a state for it, or, unless others act
    // meanwhile, change it at all.
    twostate predicate Kept(changed: set<IssueId>, bound: int)
      reads github, store
    {
      && old(github.next) <= github.next && (old(github.cancelled) ==> github.cancelled)
      && (forall k :: k in old(github.issues) ==> k in github.issues)
      && (forall k :: k in old(github.issues) && k.number < bound && k !in changed ==>
            && github.issues[k].claims == old(github.issues)[k].claims
            && github.issues[k].grants >= old(github.issues)[k].grants
            && (github.quiet ==> github.issues[k] == old(github.issues)[k]))
      && (forall k: IssueId :: k.number < bound && k !in changed ==>
            TraceOf(store.traces, k) == TraceOf(old(store.traces), k))
    }

    ghost function ActiveIssues(): set<IssueId>
      reads manager
    {
      W.InState(manager.workspaces, W.Active)
    }

    // A step that touches nothing but one issue on GitHub and its part of the log.
    twostate predicate Touched(k: IssueId)
      reads github, store
    {
      && github.next == old(github.next) && (old(github.cancelled) ==> github.cancelled)
      && k in github.issues && github.issues == old(github.issues)[k := github.issues[k]]
      && store.traces == old(store.traces)[k := store.Trace(k)]
    }

    // It neither claims the issue nor offers it again.
    twostate predicate Only(k: IssueId)
      reads github, store
    {
      Touched(k) && Own(k)
    }

    // What is done for an issue does not claim it again; and while nobody else acts, it stays taken.
    twostate predicate Own(k: IssueId)
      reads github
    {
      && k in old(github.issues) && k in github.issues
      && github.issues[k].claims == old(github.issues)[k].claims
      && (github.quiet && Taken(old(github.issues)[k]) ==> Taken(github.issues[k]))
    }

    twostate lemma OnlyKeeps(k: IssueId)
      requires Touched(k)
      ensures Kept({k}, old(github.next))
    {
    }

    // With reliable labels the issue shows how the work on it ended.
    predicate Shown(k: IssueId, last: Stage)
      reads github
    {
      github.reliable && !github.Ended() ==> k in github.issues && Shows(last, github.issues[k].labels)
    }

    // Nothing that GitHub did has changed the course of the work.
    predicate Calm()
      reads github
    {
      github.flawless && !github.Ended()
    }

    method SaveState(e: Saved, ghost ws: Saved)
      requires Valid() && e.issue in github.issues
      requires Traced(store.Trace(e.issue), ws) && Follows(ws, e)
      modifies store
      ensures Valid() && Only(e.issue)
      ensures Traced(store.Trace(e.issue), e.(checkpoint := false))
      ensures store.Trace(e.issue) == old(store.Trace(e.issue)) + [e]
    {
      TraceExtends(store.Trace(e.issue), e);
      var _ := store.Save(e);
    }

    // A workspace snapshot, after which the state is saved again if a snapshot was taken.
    method Snapshot(ws: Saved)
      requires Valid() && ws.issue in github.issues
      requires Traced(store.Trace(ws.issue), ws) && !Terminal(ws.stage)
      modifies store
      ensures Valid() && Only(ws.issue)
      ensures Traced(store.Trace(ws.issue), ws) && old(store.Trace(ws.issue)) <= store.Trace(ws.issue)
    {
      var taken: bool := *;
      if taken {
        SaveState(ws, ws);
      }
    }

    method FailIssue(ws: Saved) returns (ws': Saved)
      requires Valid() && ws.issue in github.issues
      requires Traced(store.Trace(ws.issue), ws) && !Terminal(ws.stage)
      modifies github, store
      ensures Valid() && Only(ws.issue)
      ensures ws' == ws.(stage := Failed) && Traced(store.Trace(ws.issue), ws') && Shown(ws.issue, Failed)
    {
      ws' := ws.(stage := Failed);
      SaveState(ws', ws);
      var _ := github.AddLabels(ws.issue, {HasFailed});
    }

    // `claimed` says whether the claimed label was reported to be on, which is counted as a claim.
    method ClaimIssue(issue: IssueId) returns (ok: bool, ghost claimed: bool)
      requires Valid() && issue in github.issues
      requires github.reliable && !github.Ended() ==> Claimable(github.issues[issue])
      modifies github
      ensures Valid() && github.next == old(github.next) && (old(github.cancelled) ==> github.cancelled)
      ensures issue in github.issues && github.issues == old(github.issues)[issue := github.issues[issue]]
      ensures ok ==> claimed
      ensures github.issues[issue].claims == old(github.issues)[issue].claims + if claimed then 1 else 0
      ensures github.issues[issue].grants == old(github.issues)[issue].grants
      ensures github.reliable && claimed ==> Claimed in github.issues[issue].labels
      ensures github.reliable && !github.Ended() ==> claimed && Ready !in github.issues[issue].labels
      ensures old(github.Ended()) ==> !claimed && github.issues == old(github.issues)
      ensures github.reliable && Calm() ==> ok
    {
      var added := github.AddLabels(issue, {Claimed});
      if !added {
        return false, false;
      }
      var _ := github.RemoveLabel(issue, Ready);
      github.CountClaim(issue);
      github.MayEnd();
      var commented: bool := *;
      return commented || (github.flawless && !github.Ended()), true;
    }

    method ResetIssueToReady(issue: IssueId)
      requires Valid() && issue in github.issues
      modifies github
      ensures Valid() && github.next == old(github.next) && (old(github.cancelled) ==> github.cancelled)
      ensures issue in github.issues && github.issues == old(github.issues)[issue := github.issues[issue]]
      ensures github.reliable && !github.Ended() ==> github.issues[issue] == MadeReady(old(github.issues)[issue])
      ensures github.issues[issue].claims == old(github.issues)[issue].claims
      ensures old(github.Ended()) ==> github.issues == old(github.issues)
    {
      var _ := github.RemoveLabel(issue, Claimed);
      var _ := github.RemoveLabel(issue, InProgress);
      var _ := github.AddLabels(issue, {Ready});
    }

    // The only place that calls this has the issue in the claim state, where the workspace is
    // removed at once and the issue is to be made ready again. It is called when the context has
    // ended, and uses that context for the label calls: with a client that heeds it they all fail,
    // and the issue stays as it was claimed.
    method HandleGracefulShutdown(ws: Saved, fate: Fate)
      requires Valid() && ws.issue in github.issues && ws.stage == Claim && github.cancelled
      requires Traced(store.Trace(ws.issue), ws)
      requires ws.issue !in ActiveIssues()
      modifies manager, github, store
      ensures Valid() && Touched(ws.issue) && ActiveIssues() == old(ActiveIssues())
      ensures github.issues[ws.issue].claims == old(github.issues)[ws.issue].claims
      ensures manager.workspaces ==
        if fate.removable then old(manager.workspaces) - {ws.issue} else old(manager.workspaces)
      ensures github.heedsContext ==> github.issues == old(github.issues)
      ensures github.reliable && !github.heedsContext ==>
        github.issues[ws.issue] == MadeReady(old(github.issues)[ws.issue])
      ensures store.Trace(ws.issue) == old(store.Trace(ws.issue)) + [ws.(checkpoint := true)]
      ensures Traced(store.Trace(ws.issue), ws)
    {
      SaveState(ws.(checkpoint := true), ws);
      var present: bool := *;
      var _ := manager.CleanupWorkspace(ws.issue, present, fate.removable);
      assert ActiveIssues() == old(ActiveIssues());
      ResetIssueToReady(ws.issue);
    }

    // ------------------------------------------------------------ decomposition

    // One issue per subtask, until one cannot be created.
    method CreateChildIssues(subtasks: nat) returns (ok: bool, children: seq<IssueId>)
      requires Valid()
      modifies github
      ensures Valid() && github.OnlyAdded()
      ensures |children| <= subtasks && (ok ==> |children| == subtasks)
      ensures Calm() ==> ok
      ensures Fresh(children, old(github.next)) && NewSubtasks(children)
    {
      ok, children := true, [];
      while |children| < subtasks && ok
        invariant Valid() && github.OnlyAdded()
        invariant |children| <= subtasks && (ok || |children| < subtasks) && (Calm() ==> ok)
        invariant Fresh(children, old(github.next)) && NewSubtasks(children)
        decreases subtasks - |children|, ok
      {
        ok, children := CreateChildIssue(children, old(github.next));
      }
    }

    method CreateChildIssue(children: seq<IssueId>, ghost bound: int) returns (ok: bool, all: seq<IssueId>)
      requires Valid() && bound <= github.next && Fresh(children, bound) && NewSubtasks(children)
      modifies github
      ensures Valid() && github.OnlyAdded()
      ensures |all| == |children| + (if ok then 1 else 0) && (Calm() ==> ok)
      ensures Fresh(all, bound) && NewSubtasks(all)
    {
      var k;
      ok, k := github.CreateIssue({Subtask, Ready});
      all := if ok then children + [k] else children;
    }

    // Each of them is a subtask, ready for its first claim.
    ghost predicate NewSubtasks(children: seq<IssueId>)
      reads this, github
    {
      forall i :: 0 <= i < |children| ==>
        children[i] in github.issues && github.issues[children[i]] == Record({Subtask, Ready}, 1, 0)
    }

    // Distinct issues numbered from `bound`.
    ghost predicate Fresh(children: seq<IssueId>, bound: int)
      reads this, github
    {
      && (forall i :: 0 <= i < |children| ==> children[i] in github.issues && bound <= children[i].number < github.next)
      && (forall i, j :: 0 <= i < j < |children| ==> children[i] != children[j])
    }

    // At most MaxSubtasks of the subtasks are used. `reactive` is the form used after the iteration
    // limit, which also marks the issue as failed.
    method CreateSubtasks(issue: IssueId, reactive: bool, subtasks: nat) returns (ok: bool, children: seq<IssueId>)
      requires Valid() && issue in github.issues
      modifies github
      ensures Valid() && Kept({issue}, old(github.next)) && Own(issue)
      ensures |children| <= maxSubtasks && Fresh(children, old(github.next)) && NewSubtasks(children)
      ensures ok ==> subtasks > 0 && |children| == Min(subtasks, maxSubtasks) && Shown(issue, Decompose)
      ensures Calm() && subtasks > 0 ==> ok
    {
      if subtasks == 0 {
        return false, [];
      }
      var created;
      created, children := CreateChildIssues(if subtasks > maxSubtasks then maxSubtasks else subtasks);
      if !created {
        return false, children;
      }
      LabelParent(issue, reactive, children);
      return true, children;
    }

    method LabelParent(issue: IssueId, reactive: bool, ghost children: seq<IssueId>)
      requires Valid() && issue in github.issues && issue !in children && NewSubtasks(children)
      modifies github
      ensures Valid() && github.next == old(github.next) && (old(github.cancelled) ==> github.cancelled)
      ensures issue in github.issues && github.issues == old(github.issues)[issue := github.issues[issue]]
      ensures Own(issue) && github.issues[issue].grants >= old(github.issues)[issue].grants
      ensures Shown(issue, Decompose) && NewSubtasks(children)
    {
      var _ := github.AddLabels(issue, if reactive then {Epic, HasFailed} else {Epic});
      var _ := github.RemoveLabel(issue, Ready);
    }

    method DecomposeIssue(ws: Saved, reactive: bool, subtasks: nat) returns (ws': Saved, children: seq<IssueId>)
      requires Valid() && ws.issue in github.issues && ws.stage in {Workspace, Implement}
      requires Traced(store.Trace(ws.issue), ws)
      modifies github, store
      ensures Valid() && Kept({ws.issue}, old(github.next)) && Own(ws.issue)
      ensures |children| <= maxSubtasks && Fresh(children, old(github.next))
      ensures ws'.issue == ws.issue && ws'.stage in {Decompose, Failed} && Traced(store.Trace(ws.issue), ws')
      ensures ws'.stage == Decompose ==>
        subtasks > 0 && |children| == Min(subtasks, maxSubtasks) && NewSubtasks(children)
      ensures Calm() && subtasks > 0 ==> ws'.stage == Decompose
      ensures Shown(ws.issue, ws'.stage)
    {
      var ok;
      ok, children := CreateSubtasks(ws.issue, reactive, subtasks);
      if ok {
        ws' := ws.(stage := Decompose);
        SaveState(ws', ws);
      } else {
        ws' := FailIssue(ws);
      }
    }

    // Nobody else acts and every call succeeds, up to now.
    predicate Undisturbed()
      reads github
    {
      github.reliable && github.quiet && github.flawless && !github.cancelled
    }

    // A child that cannot be fetched or has lost the ready label is skipped. Others may act before
    // the child is fetched, and again before it is claimed.
    method FetchChild(child: IssueId) returns (ready: bool)
      requires Valid() && child in github.issues
      modifies github
      ensures Valid() && github.OnlyOthers()
      ensures ready && github.reliable && !github.Ended() ==> Claimable(github.issues[child])
      ensures Undisturbed() && Ready in old(github.issues)[child].labels ==> ready
    {
      github.OthersAct();
      var fetched: bool := *;
      github.MayEnd();
      ready := (fetched || (github.flawless && !github.Ended())) && Ready in github.issues[child].labels;
      github.OthersAct();
    }

    method ProcessChild(child: IssueId)
      requires Valid() && child in github.issues && child !in ActiveIssues()
      modifies this`log, this`nesting, this`deepest, manager, github, store
      ensures Valid() && nesting == old(nesting) && Kept({child}, old(github.next))
      ensures ActiveIssues() == old(ActiveIssues())
      ensures old(log) <= log && |log| <= |old(log)| + SumOfPowers(maxSubtasks, old(Free()))
      ensures Undisturbed() && Ready in old(github.issues)[child].labels ==> |log| > |old(log)|
      ensures deepest <= Max(old(deepest), nesting + old(Free()) + 1)
      decreases Free(), 6
    {
      var ready := FetchChild(child);
      if ready {
        var _, _ := ProcessIssue(child);
      }
    }

    // The children from the i-th on can still be claimed, unless somebody has changed them.
    ghost predicate StillReady(children: seq<IssueId>, i: nat)
      reads github
    {
      github.quiet ==> forall j :: i <= j < |children| ==>
        children[j] in github.issues && Ready in github.issues[children[j]].labels
    }

    method ProcessNext(children: seq<IssueId>, i: nat, ghost bound: int)
      requires Valid() && Fresh(children, bound) && StillReady(children, i) && i < |children|
      requires forall k :: k in ActiveIssues() ==> k.number < bound
      modifies this`log, this`nesting, this`deepest, manager, github, store
      ensures Valid() && nesting == old(nesting) && Kept({}, bound) && ActiveIssues() == old(ActiveIssues())
      ensures Fresh(children, bound) && StillReady(children, i + 1)
      ensures old(log) <= log && |log| <= |old(log)| + SumOfPowers(maxSubtasks, old(Free()))
      ensures Undisturbed() ==> |log| > |old(log)|
      ensures deepest <= Max(old(deepest), nesting + old(Free()) + 1)
      decreases Free(), 7
    {
      ProcessChild(children[i]);
    }

    method ProcessChildIssues(children: seq<IssueId>, ghost bound: int)
      requires Valid() && Fresh(children, bound) && |children| <= maxSubtasks && StillReady(children, 0)
      requires forall k :: k in ActiveIssues() ==> k.number < bound
      modifies this`log, this`nesting, this`deepest, manager, github, store
      ensures Valid() && nesting == old(nesting) && Kept({}, bound) && ActiveIssues() == old(ActiveIssues())
      ensures old(log) <= log && |log| < |old(log)| + SumOfPowers(maxSubtasks, old(Free()) + 1)
      ensures Undisturbed() ==> |log| >= |old(log)| + |children|
      ensures deepest <= Max(old(deepest), nesting + old(Free()) + 1)
      decreases Free(), 8
    {
      ghost var free, active, start, top := Free(), ActiveIssues(), log, Max(deepest, nesting + Free() + 1);
      ghost var each := SumOfPowers(maxSubtasks, free);
      var i := 0;
      while i < |children|
        invariant i <= |children|
        invariant Valid() && nesting == old(nesting) && Kept({}, bound) && ActiveIssues() == active && Free() == free
        invariant Fresh(children, bound) && StillReady(children, i)
        invariant start <= log && |log| <= |start| + Times(i, each)
        invariant Undisturbed() ==> |log| >= |start| + i
        invariant deepest <= top
      {
        ghost var before := |log|;
        ProcessNext(children, i, bound);
        assert |log| <= before + each;
        i := i + 1;
      }
      ChildrenFit(|children|, maxSubtasks, free);
    }

    // Creates the child issues, records the decomposition and works through them.
    method GiveToChildren(ws: Saved, reactive: bool, subtasks: nat) returns (ws': Saved)
      requires Valid() && ws.issue in github.issues && ws.stage in {Workspace, Implement}
      requires Traced(store.Trace(ws.issue), ws)
      modifies this`log, this`nesting, this`deepest, manager, github, store
      ensures Valid() && nesting == old(nesting) && Kept({ws.issue}, old(github.next))
      ensures ActiveIssues() == old(ActiveIssues())
      ensures ws'.issue == ws.issue && Own(ws.issue)
      ensures ws'.stage in {Decompose, Failed} && Traced(store.Trace(ws.issue), ws')
      ensures ws'.stage == Decompose ==> subtasks > 0
      ensures Calm() && subtasks > 0 ==> ws'.stage == Decompose
      ensures github.quiet ==> Shown(ws.issue, ws'.stage)
      ensures old(log) <= log && |log| < |old(log)| + SumOfPowers(maxSubtasks, old(Free()) + 1)
      ensures Undisturbed() && subtasks > 0 ==> |log| >= |old(log)| + Min(subtasks, maxSubtasks)
      ensures deepest <= Max(old(deepest), nesting + old(Free()) + 1)
      decreases Free(), 9
    {
      ghost var bound := github.next;
      var children;
      ws', children := DecomposeIssue(ws, reactive, subtasks);
      assert ws.issue.number < bound;
      if ws'.stage == Decompose {
        ProcessChildIssues(children, bound);
      }
    }

    // ------------------------------------------------------------ the stages

    // Clone, branch, size limit and analysis.
    method Prepare(ws: Saved, fate: Fate) returns (ws': Saved)
      requires Valid() && ws.issue in github.issues && ws.stage == Claim
      requires Traced(store.Trace(ws.issue), ws)
      modifies github, store
      ensures Valid() && Only(ws.issue)
      ensures ws'.issue == ws.issue && ws'.stage in {Workspace, Failed} && Traced(store.Trace(ws.issue), ws')
      ensures ws'.stage == Workspace <==> fate.cloned && fate.analyzed
      ensures Shown(ws.issue, ws'.stage)
    {
      ws' := ws.(stage := Workspace);
      SaveState(ws', ws);
      if !fate.cloned {
        ws' := FailIssue(ws');
        return;
      }
      ws' := Analyze(ws', fate);
    }

    // The checkpoint and the snapshot of a fresh workspace.
    method Checkpoint(ws: Saved)
      requires Valid() && ws.issue in github.issues && !Terminal(ws.stage)
      requires Traced(store.Trace(ws.issue), ws)
      modifies store
      ensures Valid() && Only(ws.issue) && Traced(store.Trace(ws.issue), ws)
      ensures old(store.Trace(ws.issue)) + [ws.(checkpoint := true)] <= store.Trace(ws.issue)
    {
      SaveState(ws.(checkpoint := true), ws);
      Snapshot(ws);
    }

    // Both of them, and the analysis.
    method Analyze(ws: Saved, fate: Fate) returns (ws': Saved)
      requires Valid() && ws.issue in github.issues && ws.stage == Workspace
      requires Traced(store.Trace(ws.issue), ws)
      modifies github, store
      ensures Valid() && Only(ws.issue)
      ensures ws'.issue == ws.issue && ws'.stage in {Workspace, Failed} && Traced(store.Trace(ws.issue), ws')
      ensures ws'.stage == Workspace <==> fate.analyzed
      ensures Shown(ws.issue, ws'.stage)
    {
      ws' := ws;
      Checkpoint(ws);
      if !fate.analyzed {
        ws' := FailIssue(ws);
      }
    }

    method StartImplementation(ws: Saved) returns (ws': Saved)
      requires Valid() && ws.issue in github.issues && ws.stage == Workspace
      requires Traced(store.Trace(ws.issue), ws)
      modifies github, store
      ensures Valid() && Only(ws.issue)
      ensures ws' == ws.(stage := Implement) && Traced(store.Trace(ws.issue), ws')
      ensures github.reliable && !github.Ended() ==> InProgress in github.issues[ws.issue].labels
    {
      var _ := github.AddLabels(ws.issue, {InProgress});
      ws' := ws.(stage := Implement);
      SaveState(ws', ws);
      Snapshot(ws');
    }

    // Staging, the check for changes, the commit and the push.
    method CommitAndPush(ws: Saved, fate: Fate) returns (ws': Saved)
      requires Valid() && ws.issue in github.issues && ws.stage == Implement
      requires Traced(store.Trace(ws.issue), ws)
      modifies github, store
      ensures Valid() && Only(ws.issue)
      ensures ws'.issue == ws.issue && ws'.stage in {Commit, Failed} && Traced(store.Trace(ws.issue), ws')
      ensures ws'.stage == Commit <==> fate.pushed
      ensures Shown(ws.issue, ws'.stage)
    {
      ws' := ws.(stage := Commit);
      SaveState(ws', ws);
      Snapshot(ws');
      if !fate.pushed {
        ws' := FailIssue(ws');
      }
    }

    method OpenPullRequest(ws: Saved, fate: Fate) returns (ws': Saved)
      requires Valid() && ws.issue in github.issues && ws.stage == Commit
      requires Traced(store.Trace(ws.issue), ws)
      modifies github, store
      ensures Valid() && Only(ws.issue)
      ensures ws'.issue == ws.issue && ws'.stage in {Review, Failed} && Traced(store.Trace(ws.issue), ws')
      ensures if fate.prOpened then ws'.stage == Review && ws'.pr == fate.number else ws'.stage == Failed
      ensures Shown(ws.issue, ws'.stage)
    {
      ws' := ws.(stage := OpenPR);
      SaveState(ws', ws);
      if fate.prOpened {
        ghost var was := ws';
        ws' := ws'.(stage := Review, pr := fate.number);
        SaveState(ws', was);
      } else {
        ws' := FailIssue(ws');
      }
    }

    // The labels and the last save of an issue whose checks have passed. A failed merge is only
    // reported.
    method CompleteIssue(ws: Saved) returns (ws': Saved)
      requires Valid() && ws.issue in github.issues && ws.stage == Validation
      requires Traced(store.Trace(ws.issue), ws)
      modifies github, store
      ensures Valid() && Only(ws.issue)
      ensures ws' == ws.(stage := Complete) && Traced(store.Trace(ws.issue), ws') && Shown(ws.issue, Complete)
    {
      var _ := github.RemoveLabel(ws.issue, InProgress);
      var _ := github.AddLabels(ws.issue, {InReview});
      ws' := ws.(stage := Complete);
      SaveState(ws', ws);
    }

    // `verdicts` are the outcomes of ValidatePR.
    method Validate(ws: Saved, fate: Fate) returns (ws': Saved, verdicts: seq<Option<PRChecks.CheckStatus>>)
      requires Valid() && ws.issue in github.issues && ws.stage == Review
      requires Traced(store.Trace(ws.issue), ws)
      modifies github, store
      ensures Valid() && Only(ws.issue)
      ensures ws'.issue == ws.issue && ws'.stage in {Complete, Failed} && Traced(store.Trace(ws.issue), ws')
      ensures (ws'.stage == Complete <==> Passed(verdicts)) && Checked(fate, verdicts)
      ensures Shown(ws.issue, ws'.stage)
    {
      ws' := ws.(stage := Validation);
      SaveState(ws', ws);
      var passed, fixes;
      passed, verdicts, fixes := PRChecks.ValidatePRChecks(PRChecks.DEFAULT_OPTIONS, fate.envs, fate.repairs);
      if passed {
        ws' := CompleteIssue(ws');
      } else {
        ws' := FailIssue(ws');
      }
    }

    // The pull request of a pushed branch, and its checks.
    method PublishBranch(ws: Saved, fate: Fate) returns (ws': Saved, verdicts: seq<Option<PRChecks.CheckStatus>>)
      requires Valid() && ws.issue in github.issues && ws.stage == Commit
      requires Traced(store.Trace(ws.issue), ws)
      modifies github, store
      ensures Valid() && Only(ws.issue)
      ensures ws'.issue == ws.issue && ws'.stage in {Complete, Failed} && Traced(store.Trace(ws.issue), ws')
      ensures ws'.stage == Complete <==> Passed(verdicts)
      ensures if fate.prOpened then Checked(fate, verdicts) else verdicts == []
      ensures Shown(ws.issue, ws'.stage)
    {
      verdicts := [];
      ws' := OpenPullRequest(ws, fate);
      if ws'.stage == Review {
        ws', verdicts := Validate(ws', fate);
      }
    }

    method Publish(ws: Saved, fate: Fate) returns (ws': Saved, verdicts: seq<Option<PRChecks.CheckStatus>>)
      requires Valid() && ws.issue in github.issues && ws.stage == Implement
      requires Traced(store.Trace(ws.issue), ws)
      modifies github, store
      ensures Valid() && Only(ws.issue)
      ensures ws'.issue == ws.issue && ws'.stage in {Complete, Failed} && Traced(store.Trace(ws.issue), ws')
      ensures ws'.stage == Complete <==> Passed(verdicts)
      ensures if fate.pushed && fate.prOpened then Checked(fate, verdicts) else verdicts == []
      ensures Shown(ws.issue, ws'.stage)
    {
      verdicts := [];
      ws' := CommitAndPush(ws, fate);
      if ws'.stage == Commit {
        ws', verdicts := PublishBranch(ws', fate);
      }
    }

    // The conversation that implements the issue, and what follows if it succeeds. One that runs
    // out of iterations is left at the implement stage when it can still be decomposed.
    method ImplementIssue(ws: Saved, fate: Fate) returns (ws': Saved, verdicts: seq<Option<PRChecks.CheckStatus>>)
      requires Valid() && ws.issue in github.issues && ws.stage == Workspace
      requires Traced(store.Trace(ws.issue), ws)
      modifies github, store
      ensures Valid() && Only(ws.issue)
      ensures ws'.issue == ws.issue && ws'.stage in {Implement, Complete, Failed} && Traced(store.Trace(ws.issue), ws')
      ensures ws'.stage == Complete <==> Passed(verdicts)
      ensures ws'.stage == Implement <==> !fate.implemented && fate.outOfIterations && decomposition
      ensures if fate.implemented && fate.pushed && fate.prOpened then Checked(fate, verdicts) else verdicts == []
      ensures Shown(ws.issue, ws'.stage)
    {
      verdicts := [];
      ws' := StartImplementation(ws);
      if fate.implemented {
        ws', verdicts := Publish(ws', fate);
      } else if !fate.outOfIterations || !decomposition {
        ws' := FailIssue(ws');
      }
    }

    method ImplementAndPublish(ws: Saved, fate: Fate) returns (ws': Saved, verdicts: seq<Option<PRChecks.CheckStatus>>)
      requires Valid() && ws.issue in github.issues && ws.stage == Workspace
      requires fate.cloned && fate.analyzed && !(fate.tooComplex && decomposition)
      requires Traced(store.Trace(ws.issue), ws)
      modifies this`log, this`nesting, this`deepest, manager, github, store
      ensures Valid() && nesting == old(nesting) && Kept({ws.issue}, old(github.next))
      ensures ActiveIssues() == old(ActiveIssues())
      ensures ws'.issue == ws.issue && Own(ws.issue)
      ensures Traced(store.Trace(ws.issue), ws')
      ensures Fits(fate, decomposition, Calm(), ws'.stage, verdicts)
      ensures github.quiet ==> Shown(ws.issue, ws'.stage)
      ensures old(log) <= log && |log| < |old(log)| + SumOfPowers(maxSubtasks, old(Free()) + 1)
      ensures Undisturbed() && ws'.stage == Decompose ==> |log| >= |old(log)| + Min(fate.subtasks, maxSubtasks)
      ensures deepest <= Max(old(deepest), nesting + old(Free()) + 1)
      decreases Free(), 10
    {
      ws', verdicts := ImplementIssue(ws, fate);
      OnlyKeeps(ws.issue);
      if ws'.stage == Implement {
        verdicts := [];
        ws' := GiveToChildren(ws', true, fate.subtasks);
      }
    }

    method Continue(ws: Saved, fate: Fate) returns (ws': Saved, verdicts: seq<Option<PRChecks.CheckStatus>>)
      requires Valid() && ws.issue in github.issues && ws.stage == Workspace
      requires fate.cloned && fate.analyzed
      requires Traced(store.Trace(ws.issue), ws)
      modifies this`log, this`nesting, this`deepest, manager, github, store
      ensures Valid() && nesting == old(nesting) && Kept({ws.issue}, old(github.next))
      ensures ActiveIssues() == old(ActiveIssues())
      ensures ws'.issue == ws.issue && Own(ws.issue)
      ensures Traced(store.Trace(ws.issue), ws')
      ensures Fits(fate, decomposition, Calm(), ws'.stage, verdicts)
      ensures github.quiet ==> Shown(ws.issue, ws'.stage)
      ensures old(log) <= log && |log| < |old(log)| + SumOfPowers(maxSubtasks, old(Free()) + 1)
      ensures Undisturbed() && ws'.stage == Decompose ==> |log| >= |old(log)| + Min(fate.subtasks, maxSubtasks)
      ensures deepest <= Max(old(deepest), nesting + old(Free()) + 1)
      decreases Free(), 11
    {
      if fate.tooComplex && decomposition {
        verdicts := [];
        ws' := GiveToChildren(ws, false, fate.subtasks);
      } else {
        ws', verdicts := ImplementAndPublish(ws, fate);
      }
    }

    // Everything that happens while the issue's workspace is held.
    method Work(ws: Saved, fate: Fate) returns (ws': Saved, verdicts: seq<Option<PRChecks.CheckStatus>>)
      requires Valid() && ws.issue in github.issues && ws.stage == Claim
      requires Traced(store.Trace(ws.issue), ws)
      modifies this`log, this`nesting, this`deepest, manager, github, store
      ensures Valid() && nesting == old(nesting) && Kept({ws.issue}, old(github.next))
      ensures ActiveIssues() == old(ActiveIssues())
      ensures ws'.issue == ws.issue && Own(ws.issue)
      ensures Traced(store.Trace(ws.issue), ws')
      ensures Fits(fate, decomposition, Calm(), ws'.stage, verdicts)
      ensures github.quiet ==> Shown(ws.issue, ws'.stage)
      ensures old(log) <= log && |log| < |old(log)| + SumOfPowers(maxSubtasks, old(Free()) + 1)
      ensures Undisturbed() && ws'.stage == Decompose ==> |log| >= |old(log)| + Min(fate.subtasks, maxSubtasks)
      ensures deepest <= Max(old(deepest), nesting + old(Free()) + 1)
      decreases Free(), 12
    {
      verdicts := [];
      ws' := Prepare(ws, fate);
      OnlyKeeps(ws.issue);
      if ws'.stage == Workspace {
        ws', verdicts := Continue(ws', fate);
      } else {
        assert Fits(fate, decomposition, Calm(), Failed, verdicts);
      }
    }

    // ------------------------------------------------------------ one issue

    // The first save of a call, and its checkpoint.
    method SaveClaim(ws: Saved)
      requires Valid() && ws.issue in github.issues && ws == Saved(ws.issue, Claim, 0, false)
      requires store.Trace(ws.issue) == []
      modifies store
      ensures Valid() && Only(ws.issue) && Traced(store.Trace(ws.issue), ws)
      ensures store.Trace(ws.issue) == [ws, ws.(checkpoint := true)]
    {
      var _ := store.Save(ws);
      assert store.Trace(ws.issue) == [ws];
      SaveState(ws.(checkpoint := true), ws);
    }

    // The claim, the first save and its checkpoint; `begun` is false if nothing was saved.
    method Begin(issue: IssueId) returns (begun: bool, ws: Saved, ghost claimed: bool)
      requires Valid() && issue in github.issues
      requires github.reliable && !github.Ended() ==> Claimable(github.issues[issue])
      modifies github, store
      ensures Valid() && Touched(issue)
      ensures ws == Saved(issue, Claim, 0, false)
      ensures if begun then Traced(store.Trace(issue), ws) else store.Trace(issue) == []
      ensures github.issues[issue].claims == old(github.issues)[issue].claims + if claimed then 1 else 0
      ensures begun ==> claimed
      ensures github.reliable && !github.cancelled ==> claimed && Taken(github.issues[issue])
      ensures github.reliable && github.flawless && !github.cancelled ==> begun
    {
      ws, claimed := Saved(issue, Claim, 0, false), false;
      store.StartTrace(issue);
      github.MayEnd();
      if github.cancelled {
        return false, ws, false;
      }
      var ok;
      ok, claimed := ClaimIssue(issue);
      if !ok {
        return false, ws, claimed;
      }
      SaveClaim(ws);
      return true, ws, claimed;
    }

    // Works on an issue whose workspace has just been made active, and releases the workspace.
    method WithWorkspace(ws: Saved, fate: Fate) returns (ghost outcome: Outcome, last: Stage)
      requires Valid() && ws.issue in github.issues && ws.stage == Claim
      requires Traced(store.Trace(ws.issue), ws) && ws.issue in ActiveIssues()
      modifies this`log, this`nesting, this`deepest, manager, github, store
      ensures Valid() && nesting == old(nesting) && Kept({ws.issue}, old(github.next)) && Own(ws.issue)
      ensures ActiveIssues() == old(ActiveIssues()) - {ws.issue}
      ensures outcome.begun && outcome.held && outcome.last == last && Explains(outcome, store.Trace(ws.issue))
      ensures Fits(fate, decomposition, Calm(), last, outcome.verdicts)
      ensures github.quiet ==> Shown(ws.issue, last)
      ensures Released(ws.issue, last)
      ensures old(log) <= log && |log| < |old(log)| + SumOfPowers(maxSubtasks, old(Free()) + 1)
      ensures Undisturbed() && last == Decompose ==> |log| >= |old(log)| + Min(fate.subtasks, maxSubtasks)
      ensures deepest <= Max(old(deepest), nesting + old(Free()) + 1)
      decreases Free(), 13
    {
      var ws', verdicts := Work(ws, fate);
      last := ws'.stage;
      outcome := Outcome(true, true, last, verdicts);
      assert ws.issue in ActiveIssues();
      ghost var before := manager.workspaces;
      var now: int := *;
      var _ := manager.UpdateWorkspaceState(ws.issue, if last == Failed then W.Failed else W.Stale, now);
      W.ReleaseOne(before, ws.issue, manager.workspaces[ws.issue]);
    }

    // The workspace was marked failed or stale, according to how the work ended.
    ghost predicate Released(issue: IssueId, last: Stage)
      reads this, manager
    {
      && issue in manager.workspaces
      && manager.workspaces[issue].state == if last == Failed then W.Failed else W.Stale
    }

    // A workspace is to be had exactly if the disk allows it and a place is free.
    method Acquire(issue: IssueId, fate: Fate) returns (created: bool)
      requires issue !in ActiveIssues()
      modifies manager
      ensures created <==> fate.diskOk && fate.mkdirOk && old(Free()) > 0
      ensures ActiveIssues() == old(ActiveIssues()) + if created then {issue} else {}
      ensures Free() == old(Free()) - if created then 1 else 0
    {
      ghost var before := manager.workspaces;
      var now: int := *;
      created := manager.CreateWorkspace(issue, now, fate.diskOk, fate.mkdirOk);
      if created {
        W.OccupyOne(before, issue, manager.workspaces[issue]);
      }
    }

    method Refuse(ws: Saved) returns (ghost outcome: Outcome, last: Stage)
      requires Valid() && ws.issue in github.issues && ws.stage == Claim
      requires Traced(store.Trace(ws.issue), ws)
      modifies github, store
      ensures Valid() && Kept({ws.issue}, github.next) && Own(ws.issue) && github.next == old(github.next)
      ensures outcome == Outcome(true, false, Failed, []) && last == Failed
      ensures Explains(outcome, store.Trace(ws.issue)) && Shown(ws.issue, Failed)
    {
      var _ := FailIssue(ws);
      last := Failed;
      outcome := Outcome(true, false, last, []);
    }

    // Works in a workspace that has just been taken; the one place less that is free meanwhile is
    // what bounds the recursion.
    method WorkWithin(ws: Saved, fate: Fate, ghost before: set<IssueId>, ghost free: nat)
      returns (ghost outcome: Outcome, last: Stage)
      requires Valid() && ws.issue in github.issues && ws.stage == Claim
      requires Traced(store.Trace(ws.issue), ws)
      requires ws.issue !in before && ActiveIssues() == before + {ws.issue} && Free() + 1 == free
      modifies this`log, this`nesting, this`deepest, manager, github, store
      ensures Valid() && nesting == old(nesting) && Kept({ws.issue}, old(github.next)) && Own(ws.issue)
      ensures ActiveIssues() == before
      ensures outcome.begun && outcome.held && outcome.last == last && Explains(outcome, store.Trace(ws.issue))
      ensures Fits(fate, decomposition, Calm(), last, outcome.verdicts)
      ensures github.quiet ==> Shown(ws.issue, last)
      ensures Released(ws.issue, last)
      ensures old(log) <= log && |log| < |old(log)| + SumOfPowers(maxSubtasks, free)
      ensures Undisturbed() && last == Decompose ==> |log| >= |old(log)| + Min(fate.subtasks, maxSubtasks)
      ensures deepest <= Max(old(deepest), nesting + free)
      decreases free, 0
    {
      // The source releases the workspace in a deferred call.
      outcome, last := WithWorkspace(ws, fate);
      assert before + {ws.issue} - {ws.issue} == before;
    }

    // What a call that has claimed its issue does, given whether a workspace is to be had.
    ghost predicate Done(fate: Fate, held: bool, outcome: Outcome, calm: bool) {
      && outcome.begun && outcome.held == held
      && (if held then Fits(fate, decomposition, calm, outcome.last, outcome.verdicts)
          else outcome.last == Failed && outcome.verdicts == [])
    }

    method WorkOrRefuse(ws: Saved, fate: Fate, created: bool, ghost before: set<IssueId>, ghost free: nat)
      returns (ghost outcome: Outcome, last: Stage)
      requires Valid() && ws.issue in github.issues && ws.stage == Claim
      requires Traced(store.Trace(ws.issue), ws) && ws.issue !in before
      requires ActiveIssues() == before + (if created then {ws.issue} else {})
      requires created ==> Free() + 1 == free
      modifies this`log, this`nesting, this`deepest, manager, github, store
      ensures Valid() && nesting == old(nesting) && Kept({ws.issue}, old(github.next)) && Own(ws.issue)
      ensures ActiveIssues() == before
      ensures outcome.last == last && Explains(outcome, store.Trace(ws.issue))
      ensures Done(fate, created, outcome, Calm())
      ensures github.quiet ==> Shown(ws.issue, last)
      ensures outcome.held ==> Released(ws.issue, last)
      ensures old(log) <= log && |log| < |old(log)| + SumOfPowers(maxSubtasks, free)
      ensures Undisturbed() && last == Decompose ==> |log| >= |old(log)| + Min(fate.subtasks, maxSubtasks)
      ensures deepest <= Max(old(deepest), nesting + free)
      decreases free, 1
    {
      if created {
        outcome, last := WorkWithin(ws, fate, before, free);
      } else {
        outcome, last := Refuse(ws);
      }
    }

    // Takes a workspace, if one can be had, and works in it.
    method TryWorkspace(ws: Saved, fate: Fate) returns (ghost outcome: Outcome, last: Stage)
      requires Valid() && ws.issue in github.issues && ws.stage == Claim
      requires Traced(store.Trace(ws.issue), ws) && ws.issue !in ActiveIssues()
      modifies this`log, this`nesting, this`deepest, manager, github, store
      ensures Valid() && nesting == old(nesting) && Kept({ws.issue}, old(github.next)) && Own(ws.issue)
      ensures ActiveIssues() == old(ActiveIssues())
      ensures outcome.last == last && Explains(outcome, store.Trace(ws.issue))
      ensures Done(fate, fate.diskOk && fate.mkdirOk && old(Free()) > 0, outcome, Calm())
      ensures github.quiet ==> Shown(ws.issue, last)
      ensures outcome.held ==> Released(ws.issue, last)
      ensures old(log) <= log && |log| < |old(log)| + SumOfPowers(maxSubtasks, old(Free()))
      ensures Undisturbed() && last == Decompose ==> |log| >= |old(log)| + Min(fate.subtasks, maxSubtasks)
      ensures deepest <= Max(old(deepest), nesting + old(Free()))
      decreases Free(), 2
    {
      ghost var before, free := ActiveIssues(), Free();
      var created := Acquire(ws.issue, fate);
      assert Valid() && log == old(log) && Traced(store.Trace(ws.issue), ws);
      outcome, last := WorkOrRefuse(ws, fate, created, before, free);
    }

    // What follows the first save.
    method Proceed(ws: Saved, fate: Fate) returns (ghost outcome: Outcome, last: Stage)
      requires Valid() && ws.issue in github.issues && ws.stage == Claim
      requires Traced(store.Trace(ws.issue), ws) && ws.issue !in ActiveIssues()
      modifies this`log, this`nesting, this`deepest, manager, github, store
      ensures Valid() && nesting == old(nesting) && Kept({ws.issue}, old(github.next))
      ensures ActiveIssues() == old(ActiveIssues())
      ensures outcome.begun && outcome.last == last && Explains(outcome, store.Trace(ws.issue))
      ensures ws.issue in github.issues && github.issues[ws.issue].claims == old(github.issues)[ws.issue].claims
      ensures !github.cancelled ==> Own(ws.issue)
      ensures !github.cancelled ==> Done(fate, fate.diskOk && fate.mkdirOk && old(Free()) > 0, outcome, Calm())
      ensures github.quiet && !github.cancelled ==> Shown(ws.issue, last)
      ensures outcome.held ==> Released(ws.issue, last)
      ensures old(log) <= log && |log| < |old(log)| + SumOfPowers(maxSubtasks, old(Free()))
      ensures Undisturbed() && last == Decompose ==> |log| >= |old(log)| + Min(fate.subtasks, maxSubtasks)
      ensures deepest <= Max(old(deepest), nesting + old(Free()))
      decreases Free(), 3
    {
      github.MayEnd();
      if github.cancelled {
        HandleGracefulShutdown(ws, fate);
        OnlyKeeps(ws.issue);
        last := Claim;
        outcome := Outcome(true, false, last, []);
      } else {
        outcome, last := TryWorkspace(ws, fate);
      }
    }

    method TryIssue(issue: IssueId, fate: Fate) returns (ok: bool, ghost outcome: Outcome)
      requires Valid() && issue in github.issues && issue !in ActiveIssues()
      requires github.reliable && !github.Ended() ==> Claimable(github.issues[issue])
      modifies this`log, this`nesting, this`deepest, manager, github, store
      ensures Valid() && nesting == old(nesting) && Kept({issue}, old(github.next)) && issue in github.issues
      ensures ActiveIssues() == old(ActiveIssues())
      ensures Explains(outcome, store.Trace(issue))
      ensures ok <==> outcome.last in {Complete, Decompose}
      ensures github.reliable && !github.cancelled ==>
        github.issues[issue].claims == old(github.issues)[issue].claims + 1
      ensures github.reliable && github.quiet && !github.cancelled ==> Taken(github.issues[issue])
      ensures github.reliable && github.flawless && !github.cancelled ==>
        Done(fate, fate.diskOk && fate.mkdirOk && old(Free()) > 0, outcome, Calm())
      ensures github.quiet && outcome.begun && !github.cancelled ==> Shown(issue, outcome.last)
      ensures outcome.held ==> Released(issue, outcome.last)
      ensures old(log) <= log && |log| < |old(log)| + SumOfPowers(maxSubtasks, old(Free()))
      ensures Undisturbed() && outcome.last == Decompose ==>
        |log| >= |old(log)| + Min(fate.subtasks, maxSubtasks)
      ensures deepest <= Max(old(deepest), nesting + old(Free()))
      decreases Free(), 4
    {
      var begun, ws, claimed := Begin(issue);
      OnlyKeeps(issue);
      if begun {
        var last;
        outcome, last := Proceed(ws, fate);
        ok := last in {Complete, Decompose};
      } else {
        ok, outcome := false, Outcome(false, false, Claim, []);
      }
    }

    // One call of processIssue. It nests at most one deeper than there are free workspaces, its calls
    // form a tree of that depth with MaxSubtasks branches, and it leaves as many active workspaces
    // as it found. As long as the context lasts, it claims the issue once; and if GitHub does not fail,
    // what happens outside decides how it ends.
    method ProcessIssue(issue: IssueId) returns (ok: bool, ghost outcome: Outcome)
      requires Valid() && issue in github.issues && issue !in ActiveIssues()
      requires github.reliable && !github.Ended() ==> Claimable(github.issues[issue])
      modifies this`log, this`nesting, this`deepest, manager, github, store
      ensures Valid() && nesting == old(nesting) && Kept({issue}, old(github.next)) && issue in github.issues
      ensures ActiveIssues() == old(ActiveIssues())
      ensures Explains(outcome, store.Trace(issue))
      ensures ok <==> outcome.last in {Complete, Decompose}
      ensures github.reliable && !github.cancelled ==>
        github.issues[issue].claims == old(github.issues)[issue].claims + 1
      ensures github.reliable && github.quiet && !github.cancelled ==>
        Claimed in github.issues[issue].labels && Ready !in github.issues[issue].labels
      ensures github.reliable && github.flawless && !github.cancelled ==>
        var fate := fates(|old(log)|);
        Done(fate, fate.diskOk && fate.mkdirOk && old(Free()) > 0, outcome, true)
      ensures github.quiet && outcome.begun && !github.cancelled ==> Shown(issue, outcome.last)
      ensures outcome.held ==> issue in manager.workspaces
      ensures outcome.held ==>
        manager.workspaces[issue].state == if outcome.last == Failed then W.Failed else W.Stale
      ensures old(log) + [issue] <= log && |log| <= |old(log)| + SumOfPowers(maxSubtasks, old(Free()))
      ensures Undisturbed() && outcome.last == Decompose ==>
        |log| > |old(log)| + Min(fates(|old(log)|).subtasks, maxSubtasks)
      ensures deepest <= Max(old(deepest), nesting + old(Free()) + 1)
      decreases Free(), 5
    {
      var fate := fates(|log|);
      log, nesting := log + [issue], nesting + 1;
      deepest := Max(deepest, nesting);
      ok, outcome := TryIssue(issue, fate);
      nesting := nesting - 1;
    }

    // ------------------------------------------------------------ polling

    // What is left of a listing when others have acted since.
    predicate StillClaimable(issues: seq<IssueId>, from: nat)
      reads this, github
    {
      forall i :: from <= i < |issues| ==>
        issues[i] in github.issues && (github.reliable && !github.Ended() ==> Claimable(github.issues[issues[i]]))
    }

    // Every listed issue is processed, in order; one that fails does not stop the others, nor does
    // what others do in between.
    method HandleIssues(issues: seq<IssueId>)
      requires Valid() && Distinct(issues) && StillClaimable(issues, 0) && ActiveIssues() == {}
      modifies this`log, this`nesting, this`deepest, manager, github, store
      ensures Valid() && ActiveIssues() == {} && nesting == old(nesting)
      ensures deepest <= Max(old(deepest), nesting + old(Free()) + 1)
      ensures old(log) <= log && InOrder(issues, log[|old(log)|..])
      ensures github.reliable && !github.cancelled ==> forall i :: 0 <= i < |issues| ==> ClaimedOnce(issues[i])
      ensures OthersKept(set k | k in issues) && (old(github.cancelled) ==> github.cancelled)
    {
      assert InOrder([], log[|old(log)|..]);
      for i := 0 to |issues|
        invariant Valid() && ActiveIssues() == {} && nesting == old(nesting)
        invariant deepest <= Max(old(deepest), nesting + old(Free()) + 1)
        invariant StillClaimable(issues, i)
        invariant old(log) <= log && InOrder(issues[..i], log[|old(log)|..])
        invariant github.reliable && !github.cancelled ==> forall j :: 0 <= j < i ==> ClaimedOnce(issues[j])
        invariant OthersKept(set k | k in issues[..i]) && (old(github.cancelled) ==> github.cancelled)
      {
        ghost var before := log[|old(log)|..];
        HandleIssue(issues, i);
        OneMore(issues, i, before, log[|old(log)|..]);
      }
      assert issues[..|issues|] == issues;
    }

    method HandleIssue(issues: seq<IssueId>, i: nat)
      requires Valid() && Distinct(issues) && i < |issues| && StillClaimable(issues, i) && ActiveIssues() == {}
      modifies this`log, this`nesting, this`deepest, manager, github, store
      ensures Valid() && ActiveIssues() == {} && nesting == old(nesting)
      ensures deepest <= Max(old(deepest), nesting + old(Free()) + 1)
      ensures old(log) + [issues[i]] <= log && StillClaimable(issues, i + 1)
      ensures github.reliable && !github.cancelled ==> ClaimedOnce(issues[i])
      ensures OthersKept({issues[i]}) && (old(github.cancelled) ==> github.cancelled)
    {
      Wait(issues, i);
      assert forall j :: i < j < |issues| ==> issues[j].number < github.next;
      var _, _ := ProcessIssue(issues[i]);
    }

    // What others do meanwhile spoils no listing.
    method Wait(issues: seq<IssueId>, i: nat)
      requires Valid() && StillClaimable(issues, i)
      modifies github
      ensures Valid() && StillClaimable(issues, i) && github.OnlyOthers()
    {
      github.OthersAct();
    }

    twostate predicate ClaimedOnce(k: IssueId)
      reads github
    {
      && k in old(github.issues) && k in github.issues
      && github.issues[k].claims == old(github.issues)[k].claims + 1
    }

    // No issue that was there before was claimed, except these.
    twostate predicate OthersKept(claimed: set<IssueId>)
      reads github
    {
      forall k :: k in old(github.issues) ==>
        k in github.issues && (k !in claimed ==> github.issues[k].claims == old(github.issues)[k].claims)
    }

    // One poll: the issues that are offered, and what is done about them.
    method Poll() returns (ghost l: seq<IssueId>)
      requires Valid() && ActiveIssues() == {}
      modifies this`log, this`nesting, this`deepest, manager, github, store
      ensures Valid() && ActiveIssues() == {} && (old(github.cancelled) ==> github.cancelled)
      ensures Distinct(l) && OthersKept(set k | k in l)
      ensures github.reliable && !github.cancelled ==> forall i :: 0 <= i < |l| ==> ClaimedOnce(l[i])
      ensures github.flawless && !github.cancelled && |Offered(old(github.issues))| <= 50 ==>
        forall k :: k in Offered(old(github.issues)) ==> k in l
    {
      var ok, issues := github.ListIssues();
      l := [];
      if ok {
        HandleIssues(issues);
        l := issues;
      }
    }

    // Poll cycles until the context ends, or as many as there is time for. Others do what they like
    // between cycles, between a listing and the claims, and between one claim and the next. An issue
    // is claimed at most as often as it was given the ready label. As long as the context lasts, an
    // issue with the label was given it once more than it was claimed; at its end this can fail for
    // one issue, whose claim was cut short. `listed` says how often every issue was listed: as long as
    // the context lasts, it is claimed at least as often. And if nobody else acts and GitHub does not
    // fail, everything offered at the start is claimed, one page of it at least.
    method RunPoller(cycles: nat) returns (ghost listed: multiset<IssueId>)
      requires Valid() && ActiveIssues() == {}
      modifies this`log, this`nesting, this`deepest, manager, github, store
      ensures Valid() && ActiveIssues() == {}
      ensures github.reliable ==> forall k :: k in github.issues ==> github.issues[k].claims <= github.issues[k].grants
      ensures github.reliable && !github.Ended() ==> forall k :: k in github.issues ==> Balanced(github.issues[k])
      ensures github.reliable ==> github.AtMostOneOut()
      ensures github.reliable && !github.cancelled ==> EnoughClaims(old(github.issues), github.issues, listed)
      ensures Undisturbed() && cycles > 0 ==> AllListed(old(github.issues), listed)
    {
      listed := multiset{};
      for i := 0 to cycles
        invariant Valid() && ActiveIssues() == {}
        invariant github.reliable && !github.cancelled ==> EnoughClaims(old(github.issues), github.issues, listed)
        invariant i == 0 && github.quiet ==> github.issues == old(github.issues)
        invariant Undisturbed() && i > 0 ==> AllListed(old(github.issues), listed)
      {
        github.OthersAct();
        github.MayEnd();
        if github.cancelled {
          break;
        }
        ghost var before := github.issues;
        ghost var l := Poll();
        if github.reliable && !github.cancelled {
          MoreClaims(old(github.issues), before, github.issues, listed, l);
        }
        listed := listed + multiset(l);
      }
    }
  }

  // The issues with the ready label.
  function Offered(issues: map<IssueId, Record>): set<IssueId> {
    set k | k in issues && Ready in issues[k].labels
  }

  // Everything offered, if it fits on a page.
  ghost predicate AllListed(issues: map<IssueId, Record>, listed: multiset<IssueId>) {
    |Offered(issues)| <= 50 ==> forall k :: k in Offered(issues) ==> k in listed
  }

  lemma {:induction false} DistinctCount(l: seq<IssueId>, k: IssueId)
    requires Distinct(l)
    ensures multiset(l)[k] == if k in l then 1 else 0
    decreases |l|
  {
    if l != [] {
      var init := l[..|l| - 1];
      DistinctCount(init, k);
      assert l == init + [l[|l| - 1]];
    }
  }

  lemma MoreClaims(start: map<IssueId, Record>, before: map<IssueId, Record>, after: map<IssueId, Record>,
                   listed: multiset<IssueId>, l: seq<IssueId>)
    requires EnoughClaims(start, before, listed) && Distinct(l)
    requires forall k :: k in before ==> k in after && (k !in l ==> after[k].claims == before[k].claims)
    requires forall k :: k in l ==> k in before && k in after && after[k].claims == before[k].claims + 1
    ensures EnoughClaims(start, after, listed + multiset(l))
  {
    forall k
      ensures (listed + multiset(l))[k] == listed[k] + if k in l then 1 else 0
    {
      DistinctCount(l, k);
    }
  }

  // Every issue has been claimed at least as often as it was listed.
  ghost predicate EnoughClaims(before: map<IssueId, Record>, after: map<IssueId, Record>, listed: multiset<IssueId>) {
    && (forall k :: k in before ==> k in after && after[k].claims >= before[k].claims + listed[k])
    && (forall k :: k in listed ==> k in after && after[k].claims >= listed[k])
  }

  predicate Distinct(issues: seq<IssueId>) {
    forall i, j :: 0 <= i < j < |issues| ==> issues[i] != issues[j]
  }

  // `calls` contains the issues in this order, possibly with others in between.
  predicate InOrder(issues: seq<IssueId>, calls: seq<IssueId>)
    decreases |calls|
  {
    issues == [] || (calls != [] &&
      (InOrder(issues, calls[..|calls| - 1])
       || (issues[|issues| - 1] == calls[|calls| - 1] && InOrder(issues[..|issues| - 1], calls[..|calls| - 1]))))
  }

  lemma {:induction false} StillInOrder(issues: seq<IssueId>, calls: seq<IssueId>, more: seq<IssueId>)
    requires InOrder(issues, calls) && calls <= more
    ensures InOrder(issues, more)
    decreases |more|
  {
    if |calls| == |more| {
      assert calls == more;
    } else {
      StillInOrder(issues, calls, more[..|more| - 1]);
    }
  }

  lemma OneMore(issues: seq<IssueId>, i: nat, before: seq<IssueId>, after: seq<IssueId>)
    requires i < |issues| && InOrder(issues[..i], before) && before + [issues[i]] <= after
    ensures InOrder(issues[..i + 1], after)
  {
    var calls := before + [issues[i]];
    assert calls[..|calls| - 1] == before && issues[..i + 1][..i] == issues[..i];
    StillInOrder(issues[..i + 1], calls, after);
  }
}
