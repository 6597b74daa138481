/** What renumbering the rotated files of one log does to the numbered slots.

    The source lists the files highest number first and then renames from the end of the list, that
    is lowest number first. Renaming replaces its target.
  */
module LogShift {
  import opened LogNames

  datatype Content = Bytes(id: int) | Gzip(of: Content)

  type Slots = map<Slot, Content>

  function Up(s: Slot): Slot {
    Slot(s.number + 1, s.gz)
  }

  predicate HasBelow(m: Slots, s: Slot) {
    s.number > 0 && Slot(s.number - 1, s.gz) in m
  }

  function Below(s: Slot): Slot
    requires s.number > 0
  {
    Slot(s.number - 1, s.gz)
  }

  function Ups(ss: set<Slot>): (ups: set<Slot>)
    ensures forall t :: t in ups <==> t.number > 0 && Below(t) in ss
  {
    var ups := set s | s in ss :: Up(s);
    assert forall t: Slot :: t.number > 0 ==> Up(Below(t)) == t;
    assert forall s :: Below(Up(s)) == s;
    ups
  }

  lemma UpsAdd(ss: set<Slot>, s: Slot)
    ensures Ups(ss + {s}) == Ups(ss) + {Up(s)}
  {
    assert Below(Up(s)) == s;
    forall t
      ensures t in Ups(ss + {s}) <==> t in Ups(ss) || t == Up(s)
    {
      if t.number > 0 && Below(t) == s {
        assert t == Up(s);
      }
    }
  }

  function MoveUp(m: Slots, s: Slot): Slots
    requires s in m
  {
    (m - {s})[Up(s) := m[s]]
  }

  // Rename in the given order. A slot that is not there is passed over.
  function Shift(m: Slots, order: seq<Slot>): Slots
    decreases |order|
  {
    if order == [] then m
    else Shift(if order[0] in m then MoveUp(m, order[0]) else m, order[1..])
  }

  predicate Distinct(order: seq<Slot>) {
    forall i, j :: 0 <= i < j < |order| ==> order[i] != order[j]
  }

  lemma ShiftUnfolds(m: Slots, order: seq<Slot>, m': Slots)
    requires order != [] && order[0] in m && m' == MoveUp(m, order[0])
    ensures Shift(m, order) == Shift(m', order[1..])
  {
  }

  ghost predicate Lists(order: seq<Slot>, m: Slots) {
    Distinct(order) && forall s :: s in m <==> s in order
  }

  predicate Ascending(order: seq<Slot>) {
    forall i, j :: 0 <= i < j < |order| ==> order[i].number <= order[j].number
  }

  predicate Descending(order: seq<Slot>) {
    forall i, j :: 0 <= i < j < |order| ==> order[i].number >= order[j].number
  }

  // ---------------------------------------------------------------- lowest first

  // The lowest slot of the unbroken run of slots, in one form, that ends at `s`.
  function RunStart(m: Slots, s: Slot): (r: Slot)
    requires s in m
    ensures r in m && r.gz == s.gz && r.number <= s.number && !HasBelow(m, r)
    ensures forall n :: r.number <= n <= s.number ==> Slot(n, s.gz) in m
    decreases s.number
  {
    if HasBelow(m, s) then RunStart(m, Below(s)) else s
  }

  // Each run a..b becomes the single slot b+1, with the content that a had.
  function Collapsed(m: Slots): Slots {
    map t | t in Ups(m.Keys) - m.Keys :: m[RunStart(m, Below(t))]
  }

  // The state when exactly the slots of `done` have been renamed, lowest first.
  function PartCollapsed(m: Slots, done: set<Slot>): Slots
    requires done <= m.Keys
  {
    map t | t in m.Keys + Ups(done) - done ::
      if t in Ups(done) then m[RunStart(m, Below(t))] else m[t]
  }

  lemma CollapseStepAt(m: Slots, done: set<Slot>, s: Slot, t: Slot)
    requires done <= m.Keys && s in m && s !in done && Up(s) !in done
    requires HasBelow(m, s) ==> Below(s) in done
    ensures s in PartCollapsed(m, done)
    ensures t in MoveUp(PartCollapsed(m, done), s) <==> t in PartCollapsed(m, done + {s})
    ensures t in PartCollapsed(m, done + {s}) ==>
      MoveUp(PartCollapsed(m, done), s)[t] == PartCollapsed(m, done + {s})[t]
  {
    UpsAdd(done, s);
  }

  lemma CollapseStep(m: Slots, done: set<Slot>, s: Slot)
    requires done <= m.Keys && s in m && s !in done && Up(s) !in done
    requires HasBelow(m, s) ==> Below(s) in done
    ensures s in PartCollapsed(m, done)
    ensures MoveUp(PartCollapsed(m, done), s) == PartCollapsed(m, done + {s})
  {
    CollapseStepAt(m, done, s, s);
    forall t
      ensures t in MoveUp(PartCollapsed(m, done), s) <==> t in PartCollapsed(m, done + {s})
      ensures t in PartCollapsed(m, done + {s}) ==>
        MoveUp(PartCollapsed(m, done), s)[t] == PartCollapsed(m, done + {s})[t]
    {
      CollapseStepAt(m, done, s, t);
    }
  }

  // `order` lists what is left of `m` after `done`.
  ghost predicate Remaining(m: Slots, done: set<Slot>, order: seq<Slot>) {
    && Distinct(order)
    && (forall s :: s in m <==> s in done || s in order)
    && (forall s :: s in order ==> s !in done)
  }

  predicate AllBelow(done: set<Slot>, order: seq<Slot>) {
    forall s, t :: s in done && t in order ==> s.number <= t.number
  }

  predicate AllAbove(done: set<Slot>, order: seq<Slot>) {
    forall s, t :: s in done && t in order ==> s.number >= t.number
  }

  lemma NextRemaining(m: Slots, done: set<Slot>, order: seq<Slot>)
    requires Remaining(m, done, order) && order != []
    ensures Remaining(m, done + {order[0]}, order[1..]) && order[0] in m && order[0] !in done
  {
    var s, rest := order[0], order[1..];
    assert order == [s] + rest;
    assert s !in rest;
  }

  lemma NextLowest(m: Slots, done: set<Slot>, order: seq<Slot>)
    requires Remaining(m, done, order) && Ascending(order) && AllBelow(done, order) && order != []
    requires done <= m.Keys
    ensures Remaining(m, done + {order[0]}, order[1..]) && done + {order[0]} <= m.Keys
    ensures Ascending(order[1..]) && AllBelow(done + {order[0]}, order[1..])
    ensures Shift(PartCollapsed(m, done), order) == Shift(PartCollapsed(m, done + {order[0]}), order[1..])
  {
    NextRemaining(m, done, order);
    CollapseStep(m, done, order[0]);
    ShiftUnfolds(PartCollapsed(m, done), order, PartCollapsed(m, done + {order[0]}));
  }

  lemma {:induction false} ShiftCollapses(m: Slots, done: set<Slot>, order: seq<Slot>)
    requires Remaining(m, done, order) && Ascending(order) && AllBelow(done, order)
    requires done <= m.Keys
    ensures Shift(PartCollapsed(m, done), order) == PartCollapsed(m, m.Keys)
    decreases |order|
  {
    if order == [] {
      assert done == m.Keys;
    } else {
      NextLowest(m, done, order);
      ShiftCollapses(m, done + {order[0]}, order[1..]);
    }
  }

  lemma AllCollapsed(m: Slots)
    ensures PartCollapsed(m, {}) == m && PartCollapsed(m, m.Keys) == Collapsed(m)
  {
  }

  // The exact effect of the source's loop.
  lemma ShiftLowestFirst(m: Slots, order: seq<Slot>)
    requires Lists(order, m) && Ascending(order)
    ensures Shift(m, order) == Collapsed(m)
  {
    AllCollapsed(m);
    ShiftCollapses(m, {}, order);
  }

  // ---------------------------------------------------------------- highest first

  // Every slot moves up by one, at once.
  function Shifted(m: Slots): Slots {
    map t | t in Ups(m.Keys) :: m[Below(t)]
  }

  function PartShifted(m: Slots, done: set<Slot>): Slots
    requires done <= m.Keys
  {
    map t | t in m.Keys - done + Ups(done) ::
      if t in Ups(done) then m[Below(t)] else m[t]
  }

  lemma ShiftStepAt(m: Slots, done: set<Slot>, s: Slot, t: Slot)
    requires done <= m.Keys && s in m && s !in done && (s.number > 0 ==> Below(s) !in done)
    requires Up(s) in m ==> Up(s) in done
    ensures s in PartShifted(m, done)
    ensures t in MoveUp(PartShifted(m, done), s) <==> t in PartShifted(m, done + {s})
    ensures t in PartShifted(m, done + {s}) ==> MoveUp(PartShifted(m, done), s)[t] == PartShifted(m, done + {s})[t]
  {
    UpsAdd(done, s);
  }

  lemma ShiftStep(m: Slots, done: set<Slot>, s: Slot)
    requires done <= m.Keys && s in m && s !in done && (s.number > 0 ==> Below(s) !in done)
    requires Up(s) in m ==> Up(s) in done
    ensures s in PartShifted(m, done)
    ensures MoveUp(PartShifted(m, done), s) == PartShifted(m, done + {s})
  {
    ShiftStepAt(m, done, s, s);
    forall t
      ensures t in MoveUp(PartShifted(m, done), s) <==> t in PartShifted(m, done + {s})
      ensures t in PartShifted(m, done + {s}) ==> MoveUp(PartShifted(m, done), s)[t] == PartShifted(m, done + {s})[t]
    {
      ShiftStepAt(m, done, s, t);
    }
  }

  lemma NextHighest(m: Slots, done: set<Slot>, order: seq<Slot>)
    requires Remaining(m, done, order) && Descending(order) && AllAbove(done, order) && order != []
    requires done <= m.Keys
    ensures Remaining(m, done + {order[0]}, order[1..]) && done + {order[0]} <= m.Keys
    ensures Descending(order[1..]) && AllAbove(done + {order[0]}, order[1..])
    ensures Shift(PartShifted(m, done), order) == Shift(PartShifted(m, done + {order[0]}), order[1..])
  {
    NextRemaining(m, done, order);
    ShiftStep(m, done, order[0]);
    ShiftUnfolds(PartShifted(m, done), order, PartShifted(m, done + {order[0]}));
  }

  lemma {:induction false} ShiftShifts(m: Slots, done: set<Slot>, order: seq<Slot>)
    requires Remaining(m, done, order) && Descending(order) && AllAbove(done, order)
    requires done <= m.Keys
    ensures Shift(PartShifted(m, done), order) == PartShifted(m, m.Keys)
    decreases |order|
  {
    if order == [] {
      assert done == m.Keys;
    } else {
      NextHighest(m, done, order);
      ShiftShifts(m, done + {order[0]}, order[1..]);
    }
  }

  lemma ShiftedBelow(m: Slots, t: Slot)
    ensures t in Shifted(m) <==> HasBelow(m, t)
    ensures t in Collapsed(m) <==> HasBelow(m, t) && t !in m
  {
  }

  lemma AllShifted(m: Slots)
    ensures PartShifted(m, m.Keys) == Shifted(m)
  {
  }

  // What renaming in the order of the list would have done.
  lemma ShiftHighestFirst(m: Slots, order: seq<Slot>)
    requires Lists(order, m) && Descending(order)
    ensures Shift(m, order) == Shifted(m)
  {
    assert PartShifted(m, {}) == m;
    AllShifted(m);
    ShiftShifts(m, {}, order);
  }

  // ---------------------------------------------------------------- what is lost

  // The files that a neighbour's rename overwrites.
  function Overwritten(m: Slots): set<Slot> {
    set s | s in m && HasBelow(m, s)
  }

  lemma {:induction false} UpSize(ss: set<Slot>)
    ensures |Ups(ss)| == |ss|
    decreases |ss|
  {
    if ss == {} {
      assert Ups(ss) == {};
    } else {
      var s :| s in ss;
      UpSize(ss - {s});
      UpsAdd(ss - {s}, s);
      assert ss - {s} + {s} == ss;
      assert Up(s) !in Ups(ss - {s});
    }
  }

  lemma SplitSize(a: set<Slot>, b: set<Slot>)
    ensures |a| == |a - b| + |a * b|
  {
    assert a == (a - b) + (a * b);
  }

  lemma CollapsedKeys(m: Slots)
    ensures Collapsed(m).Keys == Ups(m.Keys) - m.Keys
  {
  }

  lemma OverwrittenKeys(m: Slots)
    ensures Overwritten(m) == Ups(m.Keys) * m.Keys
  {
  }

  lemma CollapsedSize(m: Slots)
    ensures |Collapsed(m)| + |Overwritten(m)| == |m|
  {
    CollapsedKeys(m);
    OverwrittenKeys(m);
    UpSize(m.Keys);
    SplitSize(Ups(m.Keys), m.Keys);
    KeySize(m);
    KeySize(Collapsed(m));
  }

  lemma KeySize(m: Slots)
    ensures |m.Keys| == |m|
  {
  }

  lemma {:induction false} RunEnd(m: Slots, s: Slot) returns (e: Slot)
    requires s in m
    ensures e in m && Up(e) !in m && RunStart(m, e) == RunStart(m, s)
    decreases |set t | t in m && t.number > s.number|
  {
    if Up(s) !in m {
      e := s;
    } else {
      var above, next := set t | t in m && t.number > s.number, set t | t in m && t.number > Up(s).number;
      assert Up(s) in above && Up(s) !in next;
      assert next < above;
      SmallerSet(next, above);
      assert HasBelow(m, Up(s)) && Below(Up(s)) == s;
      e := RunEnd(m, Up(s));
    }
  }

  lemma SmallerSet(a: set<Slot>, b: set<Slot>)
    requires a < b
    ensures |a| < |b|
  {
    assert b == a + (b - a);
    assert b - a != {};
  }

  predicate EndsIn(m: Slots, s: Slot, t: Slot) {
    t in Collapsed(m) && RunStart(m, Below(t)) == s
  }

  lemma {:induction false} SameRun(m: Slots, s: Slot, a: Slot, b: Slot)
    requires a in m && b in m && RunStart(m, a) == s && RunStart(m, b) == s && a.number < b.number
    ensures Up(a) in m
  {
    assert Up(a) == Slot(a.number + 1, b.gz);
  }

  // A file is found again, in exactly one place, if it was the lowest of its run; if not, it is lost.
  lemma SurvivesIff(m: Slots, s: Slot)
    requires s in m
    ensures (exists t :: EndsIn(m, s, t)) <==> !HasBelow(m, s)
    ensures forall t, u :: EndsIn(m, s, t) && EndsIn(m, s, u) ==> t == u
  {
    if !HasBelow(m, s) {
      var e := RunEnd(m, s);
      assert Below(Up(e)) == e;
      assert EndsIn(m, s, Up(e));
    }
    forall t, u | EndsIn(m, s, t) && EndsIn(m, s, u)
      ensures t == u
    {
      var a, b := Below(t), Below(u);
      assert a in m && b in m;
      if a.number < b.number {
        SameRun(m, s, a, b);
      } else if b.number < a.number {
        SameRun(m, s, b, a);
      }
    }
  }

  // The two orders agree, and nothing is lost, exactly when no two files in one form are neighbours.
  lemma OrdersAgreeIff(m: Slots)
    ensures Collapsed(m) == Shifted(m) <==> Overwritten(m) == {}
  {
    if Overwritten(m) == {} {
      forall t
        ensures t in Shifted(m) <==> t in Collapsed(m)
        ensures t in Collapsed(m) ==> Collapsed(m)[t] == Shifted(m)[t]
      {
        ShiftedBelow(m, t);
        if HasBelow(m, t) {
          assert t !in Overwritten(m) && Below(t) !in Overwritten(m);
        }
      }
    } else {
      var s :| s in Overwritten(m);
      ShiftedBelow(m, s);
    }
  }

  lemma SizeKeptIff(m: Slots)
    ensures |Shifted(m)| == |m|
    ensures |Collapsed(m)| == |m| <==> Overwritten(m) == {}
  {
    CollapsedSize(m);
    UpSize(m.Keys);
    assert Shifted(m).Keys == Ups(m.Keys);
  }
}
