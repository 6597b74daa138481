/** Retention of workspace snapshots: which files a cleanup leaves, and what it means for recovery. */
module Snapshots {
  import opened Common
  import opened Sorting

  datatype SnapshotId = SnapshotId(nanos: int)

  // A snapshot file. One that cannot be read back is passed over.
  datatype Snapshot = Snapshot(id: SnapshotId, issue: int, time: int, compressed: bool, readable: bool)

  datatype Config = Config(enabled: bool, maxSnapshots: int, retention: int, compress: bool)

  predicate UniqueIds(store: set<Snapshot>) {
    forall s, t :: s in store && t in store && s.id == t.id ==> s == t
  }

  // What `GetSnapshots` finds for an issue: only files of the configured form.
  function Visible(c: Config, store: set<Snapshot>, issue: int): set<Snapshot> {
    set s | s in store && s.issue == issue && s.compressed == c.compress && s.readable
  }

  lemma VisibleIs(c: Config, store: set<Snapshot>, issue: int, s: Snapshot)
    ensures s in Visible(c, store, issue) <==>
      s in store && s.issue == issue && s.compressed == c.compress && s.readable
  {
  }

  function Expired(snapshots: set<Snapshot>, cutoff: int): set<Snapshot> {
    set s | s in snapshots && s.time < cutoff
  }

  function SetOf(l: seq<Snapshot>): set<Snapshot> {
    set s | s in l
  }

  predicate Distinct(l: seq<Snapshot>) {
    forall i, j :: 0 <= i < j < |l| ==> l[i] != l[j]
  }

  predicate SortedByTime(l: seq<Snapshot>) {
    forall i, j :: 0 <= i < j < |l| ==> l[i].time <= l[j].time
  }

  // ---------------------------------------------------------------- the exchange sort

  // Everything before `i` is in its final place: sorted, and no later than what follows.
  predicate Settled(l: seq<Snapshot>, i: nat)
    requires i <= |l|
  {
    forall p, q :: 0 <= p < i && p < q < |l| ==> l[p].time <= l[q].time
  }

  predicate LeastSoFar(l: seq<Snapshot>, i: nat, j: nat)
    requires i < |l| && j <= |l|
  {
    forall q :: i < q < j ==> l[i].time <= l[q].time
  }

  function Exchanged(l: seq<Snapshot>, i: nat, j: nat): seq<Snapshot>
    requires i < |l| && j < |l|
  {
    l[i := l[j]][j := l[i]]
  }

  lemma ExchangeStep(l: seq<Snapshot>, i: nat, j: nat)
    requires i < j < |l| && Settled(l, i) && LeastSoFar(l, i, j) && l[i].time > l[j].time
    ensures Settled(Exchanged(l, i, j), i) && LeastSoFar(Exchanged(l, i, j), i, j + 1)
    ensures multiset(Exchanged(l, i, j)) == multiset(l)
  {
  }

  method SortByTime(a: array<Snapshot>)
    modifies a
    ensures SortedByTime(a[..]) && multiset(a[..]) == multiset(old(a[..]))
  {
    var i := 0;
    while i < a.Length - 1
      invariant 0 <= i <= a.Length
      invariant Settled(a[..], i)
      invariant multiset(a[..]) == multiset(old(a[..]))
    {
      var j := i + 1;
      while j < a.Length
        invariant i < j <= a.Length
        invariant Settled(a[..], i) && LeastSoFar(a[..], i, j)
        invariant multiset(a[..]) == multiset(old(a[..]))
      {
        ghost var l := a[..];
        if a[i].time > a[j].time {
          ExchangeStep(l, i, j);
          a[i], a[j] := a[j], a[i];
          assert a[..] == Exchanged(l, i, j);
        }
        j := j + 1;
      }
      i := i + 1;
    }
  }

  // ---------------------------------------------------------------- sequences and sets

  lemma {:induction false} DistinctSize(l: seq<Snapshot>)
    requires Distinct(l)
    ensures |SetOf(l)| == |l|
    decreases |l|
  {
    if l == [] {
      assert SetOf(l) == {};
    } else {
      DistinctSize(l[1..]);
      assert SetOf(l) == {l[0]} + SetOf(l[1..]);
    }
  }

  lemma Rearranged(a: seq<Snapshot>, b: seq<Snapshot>)
    requires multiset(a) == multiset(b) && Distinct(a)
    ensures Distinct(b) && SetOf(a) == SetOf(b)
  {
    var self := (s: Snapshot) => s;
    SameMembers(self, a, b);
    forall i, j | 0 <= i < j < |b|
      ensures b[i] != b[j]
    {
      assert self(b[i]) != self(b[j]);
    }
  }

  // The oldest ones: each at most as recent as every other.
  predicate Oldest(oldest: set<Snapshot>, all: set<Snapshot>) {
    oldest <= all && forall s, t :: s in oldest && t in all - oldest ==> s.time <= t.time
  }

  lemma PrefixIsOldest(l: seq<Snapshot>, k: nat)
    requires SortedByTime(l) && Distinct(l) && k <= |l|
    ensures Oldest(SetOf(l[..k]), SetOf(l)) && |SetOf(l[..k])| == k
  {
    DistinctSize(l[..k]);
    assert l == l[..k] + l[k..];
  }

  // ---------------------------------------------------------------- what a cleanup leaves

  // The snapshots that a cleanup is bound to keep: all but the oldest in excess and the expired.
  function Kept(visible: set<Snapshot>, excess: set<Snapshot>, cutoff: int): set<Snapshot> {
    visible - excess - Expired(visible, cutoff)
  }

  predicate IsNewest(snapshots: set<Snapshot>, time: int) {
    (exists s :: s in snapshots && s.time == time) && forall s :: s in snapshots ==> s.time <= time
  }

  // With room for one, a cleanup does not change the time of the newest snapshot unless that is
  // expired; then nothing is kept.
  lemma NewestIsKeptIff(visible: set<Snapshot>, excess: set<Snapshot>, cutoff: int, time: int)
    requires IsNewest(visible, time) && Oldest(excess, visible) && |excess| < |visible|
    ensures IsNewest(Kept(visible, excess, cutoff), time) <==> time >= cutoff
    ensures time < cutoff ==> Kept(visible, excess, cutoff) == {}
  {
    var s :| s in visible && s.time == time;
    if time >= cutoff {
      var kept := s;
      if s in excess {
        NotAll(visible, excess);
        kept :| kept in visible - excess;
      }
      assert kept in Kept(visible, excess, cutoff) && kept.time == time;
    } else {
      assert Expired(visible, cutoff) == visible;
    }
  }

  // The newest snapshot keeps its time, unless expired.
  ghost predicate KeepsNewest(before: set<Snapshot>, after: set<Snapshot>, cutoff: int) {
    forall time :: KeepsIfNewest(before, after, cutoff, time)
  }

  predicate KeepsIfNewest(before: set<Snapshot>, after: set<Snapshot>, cutoff: int, time: int) {
    time >= cutoff && IsNewest(before, time) ==> IsNewest(after, time)
  }

  lemma NewestSurvives(visible: set<Snapshot>, excess: set<Snapshot>, cutoff: int, after: set<Snapshot>)
    requires Oldest(excess, visible) && |excess| < |visible|
    requires Kept(visible, excess, cutoff) <= after <= visible
    ensures KeepsNewest(visible, after, cutoff)
  {
    forall time
      ensures KeepsIfNewest(visible, after, cutoff, time)
    {
      if time >= cutoff && IsNewest(visible, time) {
        NewestIsKeptIff(visible, excess, cutoff, time);
      }
    }
  }

  lemma VisibleAfter(
    c: Config, before: set<Snapshot>, after: set<Snapshot>, issue: int, excess: set<Snapshot>, cutoff: int)
    requires excess <= Visible(c, before, issue)
    requires before - excess - Expired(Visible(c, before, issue), cutoff) <= after <= before
    ensures Kept(Visible(c, before, issue), excess, cutoff) <= Visible(c, after, issue) <= Visible(c, before, issue)
    ensures after == before - excess - Expired(Visible(c, before, issue), cutoff) ==>
      Visible(c, after, issue) == Kept(Visible(c, before, issue), excess, cutoff)
  {
  }

  // What follows for the snapshots that can still be found.
  lemma CleanedUp(c: Config, before: set<Snapshot>, after: set<Snapshot>, issue: int, excess: set<Snapshot>,
                  cutoff: int, reliable: bool)
    requires c.maxSnapshots >= 0
    requires
      var visible := Visible(c, before, issue);
      && Oldest(excess, visible) && |excess| == Max(0, |visible| - c.maxSnapshots)
      && before - excess - Expired(visible, cutoff) <= after <= before
      && (reliable ==> after == before - excess - Expired(visible, cutoff))
    ensures reliable ==> Visible(c, after, issue) == Kept(Visible(c, before, issue), excess, cutoff)
    ensures reliable ==> forall s :: s in Visible(c, after, issue) ==> s.time >= cutoff
    ensures reliable ==> |Visible(c, after, issue)| <= c.maxSnapshots
    ensures c.maxSnapshots >= 1 ==> KeepsNewest(Visible(c, before, issue), Visible(c, after, issue), cutoff)
  {
    var visible := Visible(c, before, issue);
    VisibleAfter(c, before, after, issue, excess, cutoff);
    KeptCount(visible, excess, cutoff);
    if c.maxSnapshots >= 1 && visible != {} {
      NewestSurvives(visible, excess, cutoff, Visible(c, after, issue));
    }
  }

  lemma NotAll(all: set<Snapshot>, some: set<Snapshot>)
    requires some <= all && |some| < |all|
    ensures all - some != {}
  {
    assert all == some + (all - some);
  }

  // At most `maxSnapshots` are kept, and of those not expired as many as there is room for.
  lemma KeptCount(visible: set<Snapshot>, excess: set<Snapshot>, cutoff: int)
    requires Oldest(excess, visible)
    ensures |Kept(visible, excess, cutoff)| <= |visible| - |excess|
    ensures |Kept(visible, excess, cutoff)| == Min(|visible| - |excess|, |visible - Expired(visible, cutoff)|)
  {
    var rest, recent := visible - excess, visible - Expired(visible, cutoff);
    assert |rest| == |visible| - |excess| by {
      assert visible == excess + rest;
    }
    assert Kept(visible, excess, cutoff) == rest * recent;
    if s :| s in excess && s.time >= cutoff {
      assert rest <= recent;
      assert rest * recent == rest;
      SubsetSize(rest, recent);
    } else {
      assert recent <= rest;
      assert rest * recent == recent;
      SubsetSize(recent, rest);
    }
  }

  // The order of a directory listing is of no importance here.
  method ListOf(snapshots: set<Snapshot>) returns (l: seq<Snapshot>)
    ensures Distinct(l) && SetOf(l) == snapshots
  {
    l := [];
    var rest := snapshots;
    while rest != {}
      invariant rest <= snapshots && Distinct(l) && SetOf(l) == snapshots - rest
      decreases |rest|
    {
      var s :| s in rest;
      assert s !in SetOf(l);
      assert SetOf(l + [s]) == SetOf(l) + {s};
      l, rest := l + [s], rest - {s};
    }
  }

  // ---------------------------------------------------------------- the object

  class Persistence {
    const config: Config
    // On a reliable disk every file that is there can be removed.
    const reliable: bool
    var store: set<Snapshot>

    constructor (config: Config, reliable: bool, store: set<Snapshot>)
      ensures this.config == config && this.reliable == reliable && this.store == store
    {
      this.config, this.reliable, this.store := config, reliable, store;
    }

    method GetSnapshots(issue: int) returns (a: array<Snapshot>)
      ensures fresh(a) && Distinct(a[..])
      ensures SetOf(a[..]) == if config.enabled then Visible(config, store, issue) else {}
    {
      var l: seq<Snapshot> := [];
      if config.enabled {
        l := ListOf(Visible(config, store, issue));
      }
      a := new Snapshot[|l|](i requires 0 <= i < |l| => l[i]);
      assert a[..] == l;
    }

    // Every file with this identifier; failures are only logged.
    method DeleteSnapshot(id: SnapshotId)
      modifies this
      ensures store <= old(store) && forall s :: s in old(store) && s.id != id ==> s in store
      ensures reliable ==> forall s :: s in store ==> s.id != id
    {
      var failed: set<Snapshot> := *;
      store := set s | s in store && (s.id != id || (!reliable && s in failed));
    }

    method DeleteAll(l: seq<Snapshot>, ghost all: set<Snapshot>)
      requires UniqueIds(all) && SetOf(l) <= all && store <= all
      modifies this
      ensures old(store) - SetOf(l) <= store <= old(store)
      ensures reliable ==> store == old(store) - SetOf(l)
    {
      for i := 0 to |l|
        invariant old(store) - SetOf(l[..i]) <= store <= old(store)
        invariant reliable ==> store == old(store) - SetOf(l[..i])
      {
        assert l[i] in SetOf(l) && l[..i + 1] == l[..i] + [l[i]];
        DeleteSnapshot(l[i].id);
      }
      assert l[..|l|] == l;
    }

    method DeleteExpired(l: seq<Snapshot>, cutoff: int, ghost all: set<Snapshot>)
      requires UniqueIds(all) && SetOf(l) <= all && store <= all
      modifies this
      ensures old(store) - Expired(SetOf(l), cutoff) <= store <= old(store)
      ensures reliable ==> store == old(store) - Expired(SetOf(l), cutoff)
    {
      for i := 0 to |l|
        invariant old(store) - Expired(SetOf(l[..i]), cutoff) <= store <= old(store)
        invariant reliable ==> store == old(store) - Expired(SetOf(l[..i]), cutoff)
      {
        assert l[i] in SetOf(l) && l[..i + 1] == l[..i] + [l[i]];
        assert SetOf(l[..i + 1]) == SetOf(l[..i]) + {l[i]};
        if l[i].time < cutoff {
          DeleteSnapshot(l[i].id);
        }
      }
      assert l[..|l|] == l;
    }

    // Sorts only when there are too many; the excess are the first ones then.
    method DeleteExcess(a: array<Snapshot>) returns (excess: set<Snapshot>)
      requires UniqueIds(store) && config.maxSnapshots >= 0 && Distinct(a[..]) && SetOf(a[..]) <= store
      modifies this, a
      ensures Distinct(a[..]) && SetOf(a[..]) == old(SetOf(a[..]))
      ensures Oldest(excess, SetOf(a[..])) && |excess| == Max(0, a.Length - config.maxSnapshots)
      ensures old(store) - excess <= store <= old(store) && (reliable ==> store == old(store) - excess)
    {
      excess := {};
      if a.Length > config.maxSnapshots {
        ghost var before := a[..];
        SortByTime(a);
        Rearranged(before, a[..]);
        var count := a.Length - config.maxSnapshots;
        PrefixIsOldest(a[..], count);
        excess := SetOf(a[..count]);
        DeleteAll(a[..count], old(store));
      }
    }

    // An expired snapshot among the excess is deleted twice, to no further effect.
    method DeleteOldSnapshots(issue: int, cutoff: int) returns (excess: set<Snapshot>)
      requires UniqueIds(store) && config.enabled && config.maxSnapshots >= 0
      modifies this
      ensures var visible := Visible(config, old(store), issue);
        && Oldest(excess, visible) && |excess| == Max(0, |visible| - config.maxSnapshots)
        && old(store) - excess - Expired(visible, cutoff) <= store <= old(store)
        && (reliable ==> store == old(store) - excess - Expired(visible, cutoff))
    {
      var a := GetSnapshots(issue);
      DistinctSize(a[..]);
      excess := DeleteExcess(a);
      DeleteExpired(a[..], cutoff, old(store));
    }

    method CleanupOldSnapshots(issue: int, now: int) returns (excess: set<Snapshot>)
      requires UniqueIds(store) && config.enabled && config.maxSnapshots >= 0
      modifies this
      ensures var visible := Visible(config, old(store), issue);
        && Oldest(excess, visible) && |excess| == Max(0, |visible| - config.maxSnapshots)
        && old(store) - excess - Expired(visible, now - config.retention) <= store <= old(store)
        && (reliable ==> store == old(store) - excess - Expired(visible, now - config.retention))
        && (reliable ==> Visible(config, store, issue) == Kept(visible, excess, now - config.retention))
      ensures forall s :: s in old(store) && s.issue != issue ==> s in store
      ensures reliable ==> forall s :: s in Visible(config, store, issue) ==> s.time >= now - config.retention
      ensures reliable ==> |Visible(config, store, issue)| <= config.maxSnapshots
      ensures config.maxSnapshots >= 1 ==>
        KeepsNewest(Visible(config, old(store), issue), Visible(config, store, issue), now - config.retention)
    {
      excess := DeleteOldSnapshots(issue, now - config.retention);
      CleanedUp(config, old(store), store, issue, excess, now - config.retention, reliable);
    }

    method FindLatestSnapshot(issue: int) returns (latest: Option<Snapshot>)
      requires config.enabled
      ensures latest.None? <==> Visible(config, store, issue) == {}
      ensures latest.Some? ==>
        latest.value in Visible(config, store, issue) && IsNewest(Visible(config, store, issue), latest.value.time)
    {
      var a := GetSnapshots(issue);
      latest := None;
      for i := 0 to a.Length
        invariant latest.None? <==> i == 0
        invariant latest.Some? ==>
          latest.value in SetOf(a[..i]) && forall s :: s in SetOf(a[..i]) ==> s.time <= latest.value.time
      {
        assert a[..i + 1] == a[..i] + [a[i]];
        if latest.None? || a[i].time > latest.value.time {
          latest := Some(a[i]);
        }
      }
      assert a[..a.Length] == a[..];
    }

    // A snapshot just written, later than all others of its issue, is still there afterwards.
    method CreateSnapshot(id: SnapshotId, issue: int, time: int, saves: bool, now: int) returns (ok: bool)
      requires UniqueIds(store) && config.enabled && config.maxSnapshots >= 0
      requires forall s :: s in store ==> s.id != id
      modifies this
      ensures ok == saves && (!ok ==> store == old(store))
      ensures var s := Snapshot(id, issue, time, config.compress, true);
        (&& ok && config.maxSnapshots >= 1 && time >= now - config.retention
         && (forall t :: t in Visible(config, old(store), issue) ==> t.time < time)) ==> s in store
      ensures forall t :: t in old(store) && t.issue != issue ==> t in store
      // The cleanup that follows leaves nothing expired and not too many.
      ensures ok && reliable ==>
        forall t :: t in Visible(config, store, issue) ==> t.time >= now - config.retention
      ensures ok && reliable ==> |Visible(config, store, issue)| <= config.maxSnapshots
    {
      ok := saves;
      if saves {
        var s := Snapshot(id, issue, time, config.compress, true);
        store := store + {s};
        ghost var visible := Visible(config, store, issue);
        var excess := CleanupOldSnapshots(issue, now);
        if config.maxSnapshots >= 1 && s in excess {
          NotAll(visible, excess);
        }
      }
    }
  }
}
