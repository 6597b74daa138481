/** The states the developer workflow saves for one issue: which sequences of saves are possible in
    one call of processIssue, and what follows from that.
  */
module SavedStates {
  import WorkspaceManager

  type IssueId = WorkspaceManager.IssueId

  datatype Stage =
    | Claim
    | Workspace
    | Implement
    | Commit
    | OpenPR
    | Review
    | Validation
    | Complete
    | Decompose
    | Failed

  // One call of Store.Save. `pr` is 0 until a pull request exists; `checkpoint` marks the copies
  // made by the checkpoint manager.
  datatype Saved = Saved(issue: IssueId, stage: Stage, pr: int, checkpoint: bool)

  predicate Terminal(s: Stage) {
    s in {Complete, Decompose, Failed}
  }

  // Position on the main line; the two side exits share the last position.
  function Rank(s: Stage): nat {
    match s
    case Claim => 0
    case Workspace => 1
    case Implement => 2
    case Commit => 3
    case OpenPR => 4
    case Review => 5
    case Validation => 6
    case Complete => 7
    case Decompose => 7
    case Failed => 7
  }

  predicate Advances(a: Stage, b: Stage) {
    && !Terminal(a)
    && (match b
        case Failed => true
        case Decompose => a in {Workspace, Implement}
        case _ => Rank(b) == Rank(a) + 1)
  }

  predicate Follows(a: Saved, b: Saved) {
    && a.issue == b.issue
    && (if a.stage == b.stage then !Terminal(a.stage) && a.pr == b.pr
        else Advances(a.stage, b.stage) && !b.checkpoint && (b.stage == Review || b.pr == a.pr))
  }

  predicate Step(t: seq<Saved>, k: nat)
    requires 0 < k < |t|
  {
    Follows(t[k - 1], t[k])
  }

  predicate IsTrace(t: seq<Saved>) {
    && (t != [] ==> t[0].stage == Claim && t[0].pr == 0 && !t[0].checkpoint)
    && forall k :: 0 < k < |t| ==> Step(t, k)
  }

  lemma TraceExtends(t: seq<Saved>, next: Saved)
    requires IsTrace(t) && t != [] && Follows(t[|t| - 1], next)
    ensures IsTrace(t + [next])
  {
    var u := t + [next];
    forall k | 0 < k < |u|
      ensures Step(u, k)
    {
      assert k < |t| ==> Step(t, k);
    }
  }

  // Nothing is saved after a terminal state, and a terminal state is never a checkpoint: whoever
  // looks for a checkpoint after the call has finished finds none.
  lemma TerminalIsLast(t: seq<Saved>, k: nat)
    requires IsTrace(t) && k < |t| && Terminal(t[k].stage)
    ensures k == |t| - 1 && !t[k].checkpoint
  {
    assert k + 1 < |t| ==> Step(t, k + 1);
    assert k > 0 ==> Step(t, k);
  }

  // The main line is never left behind and never walked backwards.
  lemma {:induction false} TraceClimbs(t: seq<Saved>, i: nat, j: nat)
    requires IsTrace(t) && i <= j < |t|
    ensures Rank(t[i].stage) <= Rank(t[j].stage)
    ensures t[i].stage != t[j].stage ==> Rank(t[i].stage) < Rank(t[j].stage)
    ensures t[i].issue == t[j].issue
    decreases j - i
  {
    if i < j {
      assert Step(t, j);
      TraceClimbs(t, i, j - 1);
    }
  }

  // A pull request number is saved from the review state on, and never changes.
  lemma {:induction false} NoPRBeforeReview(t: seq<Saved>, k: nat)
    requires IsTrace(t) && k < |t| && Rank(t[k].stage) < Rank(Review)
    ensures t[k].pr == 0
  {
    if k > 0 {
      assert Step(t, k);
      NoPRBeforeReview(t, k - 1);
    }
  }

  lemma {:induction false} PRIsStable(t: seq<Saved>, i: nat, j: nat)
    requires IsTrace(t) && i <= j < |t| && Rank(Review) <= Rank(t[i].stage)
    ensures t[j].pr == t[i].pr
    decreases j - i
  {
    if i < j {
      assert Step(t, j);
      TraceClimbs(t, i, j - 1);
      PRIsStable(t, i, j - 1);
    }
  }

  predicate Visits(t: seq<Saved>, s: Stage) {
    exists k :: 0 <= k < |t| && t[k].stage == s
  }

  // No stage of the main line is skipped on the way to any other of them.
  lemma {:induction false} NoStageSkipped(t: seq<Saved>, k: nat, s: Stage)
    requires IsTrace(t) && k < |t| && t[k].stage !in {Decompose, Failed}
    requires s !in {Decompose, Failed} && Rank(s) <= Rank(t[k].stage)
    ensures Visits(t[..k + 1], s)
  {
    if t[k].stage == s {
      assert t[..k + 1][k].stage == s;
    } else {
      assert k > 0 ==> Step(t, k);
      NoStageSkipped(t, k - 1, s);
      var j :| 0 <= j < k && t[..k][j].stage == s;
      assert t[..k + 1][j].stage == s;
    }
  }

  // Work is given to child issues only before or during implementation.
  lemma DecomposeOnlyEarly(t: seq<Saved>, k: nat)
    requires IsTrace(t) && k < |t| && t[k].stage == Decompose
    ensures k > 0 && t[k - 1].stage in {Workspace, Implement} && t[k].pr == 0
  {
    assert k > 0 ==> Step(t, k);
    NoPRBeforeReview(t, k - 1);
  }
}
