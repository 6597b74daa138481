/** The workspace manager of internal/workspace: an in-memory cache of one entry per issue, and a
    limit on how many entries are active at once.

    The outcome of every disk operation is an input of the method that performs it.
  */
module WorkspaceManager {

  datatype IssueId = Issue(number: int)

  datatype WorkspaceState = Active | Stale | Failed | Cleaned

  datatype Workspace = Workspace(id: IssueId, createdAt: int, updatedAt: int, state: WorkspaceState)

  type Cache = map<IssueId, Workspace>

  datatype Stats = Stats(total: nat, active: nat, stale: nat, failed: nat)

  // The issues among `ids` whose workspace is in state `st`.
  function Among(m: Cache, ids: set<IssueId>, st: WorkspaceState): set<IssueId> {
    set k | k in ids && k in m && m[k].state == st
  }

  function InState(m: Cache, st: WorkspaceState): set<IssueId> {
    Among(m, m.Keys, st)
  }

  function ActiveCount(m: Cache): nat {
    |InState(m, Active)|
  }

  predicate IsActive(m: Cache, id: IssueId) {
    id in m && m[id].state == Active
  }

  // ---------------------------------------------------------------- specification of the operations

  datatype Op =
    | Create(id: IssueId, now: int, diskOk: bool, mkdirOk: bool)
    | Cleanup(id: IssueId, removeOk: bool)
    | Update(id: IssueId, st: WorkspaceState, now: int)

  function Apply(limit: int, m: Cache, op: Op): Cache {
    match op
    case Create(id, now, diskOk, mkdirOk) =>
      if IsActive(m, id) || !diskOk || ActiveCount(m) >= limit || !mkdirOk then m
      else m[id := Workspace(id, now, now, Active)]
    case Cleanup(id, removeOk) => if removeOk then m - {id} else m
    case Update(id, st, now) => if id in m then m[id := m[id].(state := st, updatedAt := now)] else m
  }

  function ApplyAll(limit: int, m: Cache, ops: seq<Op>): Cache
    decreases |ops|
  {
    if ops == [] then m else ApplyAll(limit, Apply(limit, m, ops[0]), ops[1..])
  }

  // ---------------------------------------------------------------- the object

  class Manager {
    const maxConcurrent: int
    const cleanupEnabled: bool
    var workspaces: Cache

    // `found` are the issues that have a directory on disk at start-up.
    constructor (maxConcurrent: int, cleanupEnabled: bool, found: map<IssueId, int>)
      ensures this.maxConcurrent == maxConcurrent && this.cleanupEnabled == cleanupEnabled
      ensures workspaces == map k | k in found :: Workspace(k, found[k], found[k], Stale)
    {
      this.maxConcurrent, this.cleanupEnabled := maxConcurrent, cleanupEnabled;
      workspaces := map k | k in found :: Workspace(k, found[k], found[k], Stale);
    }

    method CountActive() returns (count: nat)
      ensures count == ActiveCount(workspaces)
    {
      count := 0;
      var rest := workspaces.Keys;
      while rest != {}
        invariant rest <= workspaces.Keys
        invariant count == |Among(workspaces, workspaces.Keys - rest, Active)|
      {
        var k: IssueId :| k in rest;
        var next := rest - {k};
        assert workspaces.Keys - next == (workspaces.Keys - rest) + {k};
        AmongGrows(workspaces, workspaces.Keys - rest, k, Active);
        rest := next;
        if workspaces[k].state == Active {
          count := count + 1;
        }
      }
      assert workspaces.Keys - rest == workspaces.Keys;
    }

    method CreateWorkspace(id: IssueId, now: int, diskOk: bool, mkdirOk: bool) returns (ok: bool)
      modifies this
      ensures workspaces == Apply(maxConcurrent, old(workspaces), Create(id, now, diskOk, mkdirOk))
      ensures ok <==> IsActive(old(workspaces), id)
                      || (diskOk && mkdirOk && ActiveCount(old(workspaces)) < maxConcurrent)
      ensures ok <==> IsActive(workspaces, id)
      ensures !ok || IsActive(old(workspaces), id) ==> workspaces == old(workspaces)
      ensures ok && !IsActive(old(workspaces), id) ==>
        workspaces == old(workspaces)[id := Workspace(id, now, now, Active)]
    {
      if id in workspaces && workspaces[id].state == Active {
        return true;
      }
      if !diskOk {
        return false;
      }
      var active := CountActive();
      if active >= maxConcurrent || !mkdirOk {
        return false;
      }
      workspaces := workspaces[id := Workspace(id, now, now, Active)];
      return true;
    }

    // `found` says whether there is a directory for an issue that is not cached; without one there
    // is nothing to clean up, which is no error.
    method CleanupWorkspace(id: IssueId, found: bool, removeOk: bool) returns (ok: bool)
      modifies this
      ensures workspaces == Apply(maxConcurrent, old(workspaces), Cleanup(id, removeOk))
      ensures ok <==> removeOk || (id !in old(workspaces) && !found)
      ensures workspaces == if removeOk then old(workspaces) - {id} else old(workspaces)
    {
      if id !in workspaces && !found {
        return true;
      }
      if !removeOk {
        return false;
      }
      workspaces := workspaces - {id};
      return true;
    }

    method UpdateWorkspaceState(id: IssueId, st: WorkspaceState, now: int) returns (ok: bool)
      modifies this
      ensures workspaces == Apply(maxConcurrent, old(workspaces), Update(id, st, now))
      ensures ok <==> id in old(workspaces)
      ensures ok ==> id in workspaces && workspaces[id].state == st && workspaces[id].updatedAt == now
                     && workspaces[id].createdAt == old(workspaces)[id].createdAt
      ensures workspaces - {id} == old(workspaces) - {id} && (!ok ==> workspaces == old(workspaces))
    {
      if id !in workspaces {
        return false;
      }
      workspaces := workspaces[id := workspaces[id].(state := st, updatedAt := now)];
      return true;
    }

    // Removal fails for the issues in `stuck`; unless it `lasts`, the context may be cancelled after any
    // removal. With cleanup switched off nothing is removed, and that is no error.
    method CleanupStaleWorkspaces(cutoff: int, stuck: set<IssueId>, lasts: bool) returns (completed: bool)
      modifies this
      ensures forall k :: k in workspaces ==> k in old(workspaces) && workspaces[k] == old(workspaces)[k]
      ensures forall k :: k in old(workspaces) && k !in workspaces ==>
        old(workspaces)[k].state != Active && old(workspaces)[k].updatedAt <= cutoff && k !in stuck
      ensures completed && cleanupEnabled ==>
        forall k :: k in workspaces ==>
          workspaces[k].state == Active || workspaces[k].updatedAt > cutoff || k in stuck
      ensures !cleanupEnabled ==> completed && workspaces == old(workspaces)
      ensures lasts ==> completed
      ensures ActiveCount(workspaces) == ActiveCount(old(workspaces))
    {
      if !cleanupEnabled {
        return true;
      }
      var rest := workspaces.Keys;
      while rest != {}
        invariant forall k :: k in workspaces ==> k in old(workspaces) && workspaces[k] == old(workspaces)[k]
        invariant forall k :: k in old(workspaces) && !Removable(k, old(workspaces)[k], cutoff, stuck) ==>
          k in workspaces
        invariant forall k :: k in workspaces && k !in rest ==> !Removable(k, workspaces[k], cutoff, stuck)
        invariant rest <= workspaces.Keys
        invariant InState(workspaces, Active) == InState(old(workspaces), Active)
      {
        var k: IssueId :| k in rest;
        rest := rest - {k};
        if workspaces[k].state == Active || workspaces[k].updatedAt > cutoff {
          continue;
        }
        var ok := CleanupWorkspace(k, true, k !in stuck);
        if !ok {
          continue;
        }
        assert InState(workspaces, Active) == InState(old(workspaces), Active);
        var cancelled: bool := *;
        if cancelled && !lasts {
          return false;
        }
      }
      return true;
    }

    method GetWorkspaceStats() returns (stats: Stats)
      ensures stats.total == |workspaces|
      ensures stats.active == |InState(workspaces, Active)|
      ensures stats.stale == |InState(workspaces, Stale)|
      ensures stats.failed == |InState(workspaces, Failed)|
    {
      var active, stale, failed := 0, 0, 0;
      var rest := workspaces.Keys;
      while rest != {}
        invariant rest <= workspaces.Keys
        invariant active == |Among(workspaces, workspaces.Keys - rest, Active)|
        invariant stale == |Among(workspaces, workspaces.Keys - rest, Stale)|
        invariant failed == |Among(workspaces, workspaces.Keys - rest, Failed)|
      {
        var k: IssueId :| k in rest;
        var next := rest - {k};
        assert workspaces.Keys - next == (workspaces.Keys - rest) + {k};
        AmongGrows(workspaces, workspaces.Keys - rest, k, Active);
        AmongGrows(workspaces, workspaces.Keys - rest, k, Stale);
        AmongGrows(workspaces, workspaces.Keys - rest, k, Failed);
        rest := next;
        match workspaces[k].state {
          case Active => active := active + 1;
          case Stale => stale := stale + 1;
          case Failed => failed := failed + 1;
          case Cleaned =>
        }
      }
      assert workspaces.Keys - rest == workspaces.Keys;
      stats := Stats(|workspaces|, active, stale, failed);
    }
  }

  predicate Removable(id: IssueId, w: Workspace, cutoff: int, stuck: set<IssueId>) {
    w.state != Active && w.updatedAt <= cutoff && id !in stuck
  }

  lemma AmongGrows(m: Cache, ids: set<IssueId>, k: IssueId, st: WorkspaceState)
    requires k in m && k !in ids
    ensures |Among(m, ids + {k}, st)| == |Among(m, ids, st)| + (if m[k].state == st then 1 else 0)
  {
    if m[k].state == st {
      assert Among(m, ids + {k}, st) == Among(m, ids, st) + {k};
    } else {
      assert Among(m, ids + {k}, st) == Among(m, ids, st);
    }
  }

  // ---------------------------------------------------------------- what every run keeps

  function Limit(limit: int): nat {
    if limit < 0 then 0 else limit
  }

  ghost predicate Valid(limit: int, m: Cache) {
    && (forall k :: k in m ==> m[k].id == k && m[k].state != Cleaned)
    && ActiveCount(m) <= Limit(limit)
  }

  // How one entry's change moves the number of active entries.
  lemma ActiveCountPut(m: Cache, id: IssueId, w: Workspace)
    ensures ActiveCount(m[id := w]) == ActiveCount(m)
                                       - (if IsActive(m, id) then 1 else 0) + (if w.state == Active then 1 else 0)
  {
    var before, after := InState(m, Active), InState(m[id := w], Active);
    if w.state == Active {
      assert after == before + {id};
    } else {
      assert after == before - {id};
    }
  }

  lemma OccupyOne(m: Cache, id: IssueId, w: Workspace)
    requires !IsActive(m, id) && w.state == Active
    ensures InState(m[id := w], Active) == InState(m, Active) + {id}
    ensures ActiveCount(m[id := w]) == ActiveCount(m) + 1
  {
    ActiveCountPut(m, id, w);
  }

  lemma ReleaseOne(m: Cache, id: IssueId, w: Workspace)
    requires w.state != Active
    ensures InState(m[id := w], Active) == InState(m, Active) - {id}
  {
  }

  lemma ActiveCountRemove(m: Cache, id: IssueId)
    ensures ActiveCount(m - {id}) == ActiveCount(m) - (if IsActive(m, id) then 1 else 0)
  {
    assert InState(m - {id}, Active) == InState(m, Active) - {id};
  }

  // An operation keeps the cache valid unless it is an update to Cleaned, or an update that
  // activates an inactive entry while the limit is reached.
  predicate Harmless(limit: int, m: Cache, op: Op) {
    op.Update? && op.id in m ==>
      && op.st != Cleaned
      && (op.st == Active && !IsActive(m, op.id) ==> ActiveCount(m) < Limit(limit))
  }

  lemma ApplyKeepsValidIff(limit: int, m: Cache, op: Op)
    requires Valid(limit, m)
    ensures Valid(limit, Apply(limit, m, op)) <==> Harmless(limit, m, op)
  {
    match op {
      case Create(id, now, _, _) => ActiveCountPut(m, id, Workspace(id, now, now, Active));
      case Cleanup(id, _) => ActiveCountRemove(m, id);
      case Update(id, st, now) =>
        if id in m {
          var w := m[id].(state := st, updatedAt := now);
          ActiveCountPut(m, id, w);
          assert Apply(limit, m, op)[id] == w;
        }
    }
  }

  // The updates the workflow makes.
  predicate FromWorkflow(op: Op) {
    op.Update? ==> op.st in {Stale, Failed}
  }

  lemma {:induction false} RunKeepsValid(limit: int, m: Cache, ops: seq<Op>)
    requires Valid(limit, m)
    requires forall op :: op in ops ==> FromWorkflow(op)
    ensures Valid(limit, ApplyAll(limit, m, ops))
    decreases |ops|
  {
    if ops != [] {
      assert FromWorkflow(ops[0]);
      ApplyKeepsValidIff(limit, m, ops[0]);
      RunKeepsValid(limit, Apply(limit, m, ops[0]), ops[1..]);
    }
  }

  // The statistics add up in every valid cache, and only there can they be trusted to.
  lemma StatsAddUp(m: Cache)
    ensures |m| == |InState(m, Active)| + |InState(m, Stale)| + |InState(m, Failed)| + |InState(m, Cleaned)|
    ensures (forall k :: k in m ==> m[k].state != Cleaned)
       <==> |m| == |InState(m, Active)| + |InState(m, Stale)| + |InState(m, Failed)|
  {
    var a, s, f, c := InState(m, Active), InState(m, Stale), InState(m, Failed), InState(m, Cleaned);
    assert m.Keys == a + s + f + c;
    assert |m.Keys| == |a| + |s| + |f| + |c|;
    if |c| == 0 {
      assert c == {};
      assert forall k :: k in m ==> k !in c;
    }
  }

  // Over any run of the workflow's operations from start-up: the limit holds, every key is its
  // workspace's issue, and the three counts add up to the total.
  lemma CacheInvariant(limit: int, found: map<IssueId, int>, ops: seq<Op>)
    requires forall op :: op in ops ==> FromWorkflow(op)
    ensures var start: Cache := map k | k in found :: Workspace(k, found[k], found[k], Stale);
            var m := ApplyAll(limit, start, ops);
            && ActiveCount(m) <= Limit(limit)
            && (forall k :: k in m ==> m[k].id == k)
            && |m| == |InState(m, Active)| + |InState(m, Stale)| + |InState(m, Failed)|
  {
    var start: Cache := map k | k in found :: Workspace(k, found[k], found[k], Stale);
    assert InState(start, Active) == {};
    RunKeepsValid(limit, start, ops);
    StatsAddUp(ApplyAll(limit, start, ops));
  }

  // The limit can be reached: whatever is in the cache, creations alone lead to exactly as many active
  // entries as it allows, if there are not more already.
  lemma {:induction false} LimitIsReached(limit: int, m: Cache, now: int) returns (ops: seq<Op>)
    requires ActiveCount(m) <= Limit(limit)
    ensures forall op :: op in ops ==> op.Create?
    ensures ActiveCount(ApplyAll(limit, m, ops)) == Limit(limit)
    decreases Limit(limit) - ActiveCount(m)
  {
    if ActiveCount(m) == Limit(limit) {
      ops := [];
    } else {
      var id := NotActive(InState(m, Active));
      var m' := Apply(limit, m, Create(id, now, true, true));
      OccupyOne(m, id, Workspace(id, now, now, Active));
      var rest := LimitIsReached(limit, m', now);
      ops := [Create(id, now, true, true)] + rest;
      assert ops[1..] == rest;
    }
  }

  // Some issue is not among finitely many.
  lemma {:induction false} NotActive(ids: set<IssueId>) returns (id: IssueId)
    ensures id !in ids && forall k :: k in ids ==> k.number < id.number
    decreases |ids|
  {
    if ids == {} {
      id := Issue(0);
    } else {
      var k :| k in ids;
      id := NotActive(ids - {k});
      if id.number <= k.number {
        id := Issue(k.number + 1);
      }
    }
  }

  // A second cleanup of the same issue changes nothing, and re-creating an entry that is not
  // active takes one place if one is left, and otherwise changes nothing.
  lemma CleanupThenCreate(limit: int, m: Cache, id: IssueId, now: int)
    requires Valid(limit, m)
    ensures ApplyAll(limit, m, [Cleanup(id, true), Cleanup(id, true)]) == Apply(limit, m, Cleanup(id, true))
    ensures var m' := Apply(limit, m, Create(id, now, true, true));
            !IsActive(m, id) ==>
              if ActiveCount(m) < limit then IsActive(m', id) && ActiveCount(m') == ActiveCount(m) + 1 else m' == m
  {
    var once := Apply(limit, m, Cleanup(id, true));
    assert once - {id} == once;
    assert ApplyAll(limit, m, [Cleanup(id, true), Cleanup(id, true)])
        == ApplyAll(limit, once, [Cleanup(id, true)]);
    assert ApplyAll(limit, once, [Cleanup(id, true)]) == ApplyAll(limit, once, []);
    ActiveCountPut(m, id, Workspace(id, now, now, Active));
  }
}
