/** Rotations in a row, from a directory without rotated files.

    The order of the renames makes every rotation overwrite neighbours that the rotation before it
    has produced, so about half of the logs are lost, whatever the limit is.
  */
module LogRuns {
  import opened Common
  import opened LogNames
  import opened LogShift
  import opened LogRotation

  // ---------------------------------------------------------------- one rotation after another

  function Written(c: Config, files: Files, log: Content): Files {
    files[Active(c) := log]
  }

  // A log is written and then rotated away.
  ghost predicate RotatesTo(c: Config, files: Files, log: Content, files': Files)
    requires c.maxFiles >= 1
  {
    exists l :: RotatesBy(c, files, log, l, files')
  }

  ghost predicate RotatesBy(c: Config, files: Files, log: Content, l: seq<Entry>, files': Files)
    requires c.maxFiles >= 1
  {
    IsListing(c, Written(c, files, log), l) && files' == DoAll(Written(c, files, log), Plan(c, l))
  }

  ghost predicate RotatesAt(c: Config, dirs: seq<Files>, logs: seq<Content>, i: nat)
    requires c.maxFiles >= 1 && i < |logs| && |dirs| == |logs| + 1
  {
    RotatesTo(c, dirs[i], logs[i], dirs[i + 1])
  }

  ghost predicate Rotates(c: Config, dirs: seq<Files>, logs: seq<Content>)
    requires c.maxFiles >= 1
  {
    && |dirs| == |logs| + 1
    && forall i :: 0 <= i < |logs| ==> RotatesAt(c, dirs, logs, i)
  }

  lemma CanonicalPut(c: Config, files: Files, s: Slot, content: Content)
    requires ValidConfig(c) && Canonical(c, files) && s.number >= 1
    ensures Canonical(c, files[NameIn(c, s) := content])
  {
    TargetIsRotated(c, s);
  }

  lemma {:induction false} RenamesKeepCanonical(c: Config, files: Files, l: seq<Entry>)
    requires ValidConfig(c) && Canonical(c, files)
    ensures Canonical(c, DoAll(files, Renames(c, l)))
    decreases |l|
  {
    if l != [] {
      var e, rest := l[|l| - 1], l[..|l| - 1];
      var step := Rename(e.name, NameIn(c, Up(e.slot)));
      if Possible(files, step) {
        CanonicalPut(c, files - {e.name}, Up(e.slot), files[e.name]);
      }
      assert Renames(c, l)[0] == step && Renames(c, l)[1..] == Renames(c, rest);
      RenamesKeepCanonical(c, Do(files, step), rest);
    }
  }

  // Rotation gives canonical names only.
  lemma RotationKeepsCanonical(c: Config, files: Files, l: seq<Entry>)
    requires ValidConfig(c) && IsListing(c, files, l) && Canonical(c, files) && Active(c) in files
    ensures Canonical(c, DoAll(files, Plan(c, l)))
  {
    var x := Excess(|l|, c.maxFiles);
    var removed := DoAll(files, Removals(l[..x]));
    forall n | n in removed
      ensures n in files
    {
      RemovalsAt(files, l[..x], n);
    }
    DoAllAppend(files, Removals(l[..x]), Renames(c, l[x..]));
    RenamesKeepCanonical(c, removed, l[x..]);
    RotationKeepsLimit(c, files, l);
    var room := Room(c, files, l);
    CanonicalPut(c, room - {Active(c)}, if c.compressOld then FIRST_GZ else FIRST,
      if c.compressOld then Gzip(room[Active(c)]) else room[Active(c)]);
  }

  // ---------------------------------------------------------------- every second slot

  // Slot 1, and the slots from 2 to `top` of the same parity as `top`.
  predicate IsRung(top: nat, number: nat) {
    number == 1 || (2 <= number <= top && (top - number) % 2 == 0)
  }

  function Rungs(top: nat, gz: bool): (rungs: set<Slot>)
    ensures forall s :: s in rungs <==> s.gz == gz && IsRung(top, s.number)
    ensures |rungs| == top / 2 + 1
  {
    if top <= 1 then {Slot(1, gz)} else Rungs(top - 2, gz) + {Slot(top, gz)}
  }

  // Which of `n` logs, the newest being number n - 1, is in a slot.
  function LogAt(n: nat, number: nat): int {
    if number <= 2 then n - number else n - number + 1
  }

  function Stored(c: Config, log: Content): Content {
    if c.compressOld then Gzip(log) else log
  }

  ghost predicate HasRungs(m: Slots, top: nat, gz: bool) {
    forall s :: s in m <==> s.gz == gz && IsRung(top, s.number)
  }

  // Exactly the slots of `top`, each with its log.
  ghost predicate Holds(c: Config, m: Slots, logs: seq<Content>, top: nat) {
    && HasRungs(m, top, c.compressOld)
    && (forall s :: s in m ==>
          && 0 <= LogAt(|logs|, s.number) < |logs|
          && m[s] == Stored(c, logs[LogAt(|logs|, s.number)]))
  }

  // The highest slot after `n` rotations: it climbs until the directory is full, and is then given
  // up in every second rotation.
  function Top(n: nat, maxFiles: nat): (top: nat)
    requires maxFiles >= 1
    ensures top <= n && (n >= 1 ==> top >= 1)
  {
    if maxFiles == 1 then Min(n, 1)
    else if maxFiles == 2 then Min(n, 2)
    else if n <= 2 * maxFiles - 2 then n
    else if n % 2 == 0 then 2 * maxFiles - 2
    else 2 * maxFiles - 3
  }

  lemma NextRung(top: nat, k: nat)
    requires top >= 1 && k >= 2
    ensures IsRung(top, k - 1) && !IsRung(top, k) <==> IsRung(top + 1, k)
  {
    assert top - (k - 1) == top + 1 - k;
    assert (top - k) % 2 != (top + 1 - k) % 2;
  }

  lemma AloneRung(top: nat, k: nat)
    requires k >= 3 && IsRung(top, k)
    ensures !IsRung(top, k - 1)
  {
    assert (top - k) % 2 != (top - (k - 1)) % 2;
  }

  lemma StartsHere(m: Slots, b: Slot)
    requires b in m && !HasBelow(m, b)
    ensures RunStart(m, b) == b
  {
  }

  lemma StartsBelow(m: Slots, b: Slot)
    requires b in m && HasBelow(m, b) && !HasBelow(m, Below(b))
    ensures RunStart(m, b) == Below(b)
  {
    StartsHere(m, Below(b));
  }

  // Only slot 2 can have a neighbour below it.
  lemma RungStart(m: Slots, top: nat, gz: bool, b: Slot)
    requires HasRungs(m, top, gz) && b in m
    ensures RunStart(m, b) == if b.number == 2 then Slot(1, gz) else b
  {
    if b.number == 2 {
      assert Below(b) == Slot(1, gz);
      StartsBelow(m, b);
    } else {
      if b.number >= 3 {
        AloneRung(top, b.number);
      }
      StartsHere(m, b);
    }
  }

  lemma RungsClimb(m: Slots, top: nat, gz: bool, t: Slot)
    requires HasRungs(m, top, gz) && top >= 1 && t.number >= 2
    ensures t in Collapsed(m) <==> t.gz == gz && IsRung(top + 1, t.number)
    ensures t in Collapsed(m) ==> Collapsed(m)[t] == m[if t.number == 3 && top >= 2 then Slot(1, gz) else Below(t)]
  {
    ShiftedBelow(m, t);
    NextRung(top, t.number);
    if t in Collapsed(m) {
      RungStart(m, top, gz, Below(t));
    }
  }

  lemma ClimbAt(c: Config, m: Slots, logs: seq<Content>, log: Content, top: nat, s: Slot)
    requires Holds(c, m, logs, top) && 1 <= top <= |logs| && s.number >= 2
    ensures s in Collapsed(m) <==> s.gz == c.compressOld && IsRung(top + 1, s.number)
    ensures s in Collapsed(m) ==>
      && 0 <= LogAt(|logs| + 1, s.number) < |logs|
      && Collapsed(m)[s] == Stored(c, logs[LogAt(|logs| + 1, s.number)])
  {
    RungsClimb(m, top, c.compressOld, s);
    if s in Collapsed(m) {
      var from := if s.number == 3 && top >= 2 then Slot(1, c.compressOld) else Below(s);
      ShiftedBelow(m, s);
      assert LogAt(|logs| + 1, s.number) == LogAt(|logs|, from.number);
      assert from in m;
    }
  }

  lemma FirstIsOpen(m: Slots, top: nat, gz: bool, s: Slot)
    requires HasRungs(m, top, gz) && s.number <= 1
    ensures s !in Collapsed(m)
  {
    ShiftedBelow(m, s);
    assert !IsRung(top, 0);
  }

  // What a shift leaves in one slot.
  predicate OpenAt(c: Config, m: Slots, logs: seq<Content>, top: nat, s: Slot) {
    && (s in m <==> s.gz == c.compressOld && s.number >= 2 && IsRung(top, s.number))
    && (s in m ==>
      && 0 <= LogAt(|logs| + 1, s.number) < |logs|
      && m[s] == Stored(c, logs[LogAt(|logs| + 1, s.number)]))
  }

  lemma FilledAt(c: Config, m: Slots, logs: seq<Content>, log: Content, top: nat)
    requires forall s :: OpenAt(c, m, logs, top, s)
    ensures Holds(c, m[Slot(1, c.compressOld) := Stored(c, log)], logs + [log], top)
  {
    var m' := m[Slot(1, c.compressOld) := Stored(c, log)];
    assert |logs + [log]| == |logs| + 1;
    forall s
      ensures s in m' <==> s.gz == c.compressOld && IsRung(top, s.number)
    {
      assert OpenAt(c, m, logs, top, s);
      assert s.number == 1 && s.gz == c.compressOld ==> s == Slot(1, c.compressOld);
    }
    forall s | s in m'
      ensures 0 <= LogAt(|logs| + 1, s.number) <= |logs|
      ensures m'[s] == Stored(c, (logs + [log])[LogAt(|logs| + 1, s.number)])
    {
      assert OpenAt(c, m, logs, top, s);
    }
  }

  lemma OpensAt(c: Config, m: Slots, logs: seq<Content>, log: Content, top: nat, s: Slot)
    requires Holds(c, m, logs, top) && 1 <= top <= |logs|
    ensures OpenAt(c, Collapsed(m), logs, top + 1, s)
  {
    if s.number >= 2 {
      ClimbAt(c, m, logs, log, top, s);
    } else {
      FirstIsOpen(m, top, c.compressOld, s);
    }
  }

  // The ladder climbs by one, and the pair in slots 1 and 2, if there is one, becomes one file.
  lemma Climb(c: Config, m: Slots, logs: seq<Content>, log: Content, top: nat)
    requires Holds(c, m, logs, top) && 1 <= top <= |logs|
    ensures Holds(c, Collapsed(m)[Slot(1, c.compressOld) := Stored(c, log)], logs + [log], top + 1)
  {
    var shifted, next := Collapsed(m), top + 1;
    forall s
      ensures OpenAt(c, shifted, logs, next, s)
    {
      OpensAt(c, m, logs, log, top, s);
    }
    FilledAt(c, shifted, logs, log, next);
  }

  // ---------------------------------------------------------------- the limit

  lemma RungsSize(m: Slots, top: nat, gz: bool)
    requires HasRungs(m, top, gz)
    ensures |m| == top / 2 + 1
  {
    assert m.Keys == Rungs(top, gz);
    KeySize(m);
  }

  // The list begins with the highest slot.
  lemma HighestFirst(l: seq<Entry>, top: nat, gz: bool)
    requires SortedEntries(l) && top >= 1
    requires forall s :: s in SlotsOf(l) <==> s.gz == gz && IsRung(top, s.number)
    ensures l != [] && l[0].slot == Slot(top, gz)
  {
    assert Slot(top, gz) in SlotsOf(l);
    var i :| 0 <= i < |l| && l[i].slot == Slot(top, gz);
    assert l[0].slot in SlotsOf(l);
    if i != 0 {
      assert Before(l[0].slot, l[i].slot);
    }
  }

  lemma ListSize(c: Config, files: Files, l: seq<Entry>, top: nat)
    requires ValidConfig(c) && IsListing(c, files, l) && Canonical(c, files)
    requires HasRungs(View(c, files), top, c.compressOld)
    ensures |l| == top / 2 + 1
  {
    CanonicalListing(c, files, l);
    DistinctSize(l);
    RungsSize(View(c, files), top, c.compressOld);
    KeySize(View(c, files));
  }

  // What the removals of the next rotation leave: everything, or everything but the highest slot.
  lemma KeptRungs(c: Config, files: Files, l: seq<Entry>, top: nat)
    requires ValidConfig(c) && IsListing(c, files, l) && Canonical(c, files)
    requires HasRungs(View(c, files), top, c.compressOld) && 1 <= top && top / 2 + 1 <= c.maxFiles
    ensures Kept(c, files, l) ==
      View(c, files) - if top / 2 + 1 < c.maxFiles then {} else {Slot(top, c.compressOld)}
  {
    ListSize(c, files, l, top);
    CanonicalListing(c, files, l);
    if top / 2 + 1 < c.maxFiles {
      assert l[..0] == [] && SlotsOf([]) == {};
    } else {
      HighestFirst(l, top, c.compressOld);
      OneSlot(l);
      assert Excess(|l|, c.maxFiles) == 1;
    }
  }

  lemma OneSlot(l: seq<Entry>)
    requires l != []
    ensures SlotsOf(l[..1]) == {l[0].slot}
  {
    assert l[..1] == [l[0]];
  }

  lemma Lowered(c: Config, m: Slots, logs: seq<Content>, top: nat)
    requires Holds(c, m, logs, top) && top >= 2
    ensures Holds(c, m - {Slot(top, c.compressOld)}, logs, if top == 2 then 1 else top - 2)
  {
    forall s
      ensures s in m - {Slot(top, c.compressOld)} <==>
        s.gz == c.compressOld && IsRung(if top == 2 then 1 else top - 2, s.number)
    {
      LowerRung(top, s.number);
      assert s.number == top && s.gz == c.compressOld ==> s == Slot(top, c.compressOld);
    }
  }

  lemma LowerRung(top: nat, k: nat)
    requires top >= 2
    ensures IsRung(top, k) && k != top <==> IsRung(if top == 2 then 1 else top - 2, k)
  {
    if top > 2 && k < top {
      assert (top - k) % 2 == (top - 2 - k) % 2;
    }
  }

  // What the highest slot becomes.
  function NextTop(top: nat, maxFiles: nat): nat {
    if top == 0 || top / 2 + 1 < maxFiles then top + 1
    else if top <= 2 then top
    else top - 1
  }

  lemma TopStep(n: nat, maxFiles: nat)
    requires maxFiles >= 1
    ensures Top(n, maxFiles) / 2 + 1 <= maxFiles
    ensures Top(n + 1, maxFiles) == NextTop(Top(n, maxFiles), maxFiles)
  {
  }

  lemma FirstRung(c: Config, log: Content)
    ensures Holds(c, map[Slot(1, c.compressOld) := Stored(c, log)], [log], 1)
  {
    assert forall s: Slot :: s.number == 1 && s.gz == c.compressOld ==> s == Slot(1, c.compressOld);
  }

  lemma NothingShifted(c: Config, m: Slots, log: Content)
    requires m == map[]
    ensures Collapsed(m)[Slot(1, c.compressOld) := Stored(c, log)] == map[Slot(1, c.compressOld) := Stored(c, log)]
  {
    assert Ups(m.Keys) == {};
  }

  // The slot taken by the new log, after the others have climbed.
  lemma KeptClimbs(c: Config, m: Slots, logs: seq<Content>, log: Content, top: nat)
    requires Holds(c, m, logs, top) && 1 <= top <= |logs| && top / 2 + 1 <= c.maxFiles
    ensures
      var kept := m - if top / 2 + 1 < c.maxFiles then {} else {Slot(top, c.compressOld)};
      Holds(c, Collapsed(kept)[Slot(1, c.compressOld) := Stored(c, log)], logs + [log], NextTop(top, c.maxFiles))
  {
    if top / 2 + 1 < c.maxFiles {
      assert m - {} == m;
      Climb(c, m, logs, log, top);
    } else if top >= 2 {
      Lowered(c, m, logs, top);
      Climb(c, m - {Slot(top, c.compressOld)}, logs, log, if top == 2 then 1 else top - 2);
    } else {
      LastLeaves(c, m, logs);
      NothingShifted(c, m - {Slot(top, c.compressOld)}, log);
      FirstRung(c, log);
      OnlyNewest(c, map[Slot(1, c.compressOld) := Stored(c, log)], logs, log);
    }
  }

  lemma LastLeaves(c: Config, m: Slots, logs: seq<Content>)
    requires Holds(c, m, logs, 1)
    ensures m - {Slot(1, c.compressOld)} == map[]
  {
    assert forall s :: s in m ==> s == Slot(1, c.compressOld);
  }

  lemma OnlyNewest(c: Config, m: Slots, logs: seq<Content>, log: Content)
    requires Holds(c, m, [log], 1)
    ensures Holds(c, m, logs + [log], 1)
  {
  }

  // ---------------------------------------------------------------- the result of a run

  lemma LadderStep(c: Config, m: Slots, kept: Slots, after: Slots, logs: seq<Content>, log: Content, top: nat)
    requires Holds(c, m, logs, top) && 1 <= top <= |logs| && top / 2 + 1 <= c.maxFiles
    requires kept == m - if top / 2 + 1 < c.maxFiles then {} else {Slot(top, c.compressOld)}
    requires after == Collapsed(kept)[Slot(1, c.compressOld) := Stored(c, log)]
    ensures Holds(c, after, logs + [log], NextTop(top, c.maxFiles))
  {
    KeptClimbs(c, m, logs, log, top);
  }

  lemma SlotsAfter(c: Config, files: Files, l: seq<Entry>) returns (kept: Slots, after: Slots)
    requires ValidConfig(c) && IsListing(c, files, l) && Canonical(c, files) && Active(c) in files
    ensures kept == Kept(c, files, l) && after == View(c, DoAll(files, Plan(c, l)))
    ensures after == Collapsed(kept)[Slot(1, c.compressOld) := Stored(c, files[Active(c)])]
  {
    RotationEffect(c, files, l);
    kept, after := Kept(c, files, l), View(c, DoAll(files, Plan(c, l)));
  }

  lemma RotationOnLadder(c: Config, files: Files, l: seq<Entry>, logs: seq<Content>, top: nat)
    requires ValidConfig(c) && IsListing(c, files, l) && Canonical(c, files) && Active(c) in files
    requires Holds(c, View(c, files), logs, top) && 1 <= top <= |logs| && top / 2 + 1 <= c.maxFiles
    ensures Holds(c, View(c, DoAll(files, Plan(c, l))), logs + [files[Active(c)]], NextTop(top, c.maxFiles))
  {
    KeptRungs(c, files, l, top);
    var kept, after := SlotsAfter(c, files, l);
    LadderStep(c, View(c, files), kept, after, logs, files[Active(c)], top);
  }

  lemma FirstRotation(c: Config, files: Files, l: seq<Entry>)
    requires ValidConfig(c) && IsListing(c, files, l) && Canonical(c, files) && Active(c) in files
    requires View(c, files) == map[]
    ensures Holds(c, View(c, DoAll(files, Plan(c, l))), [files[Active(c)]], 1)
  {
    var kept, _ := SlotsAfter(c, files, l);
    assert kept == map[];
    NothingShifted(c, kept, files[Active(c)]);
    FirstRung(c, files[Active(c)]);
  }

  // Writing the active log is no change among the rotated files.
  lemma WrittenView(c: Config, files: Files, log: Content)
    requires ValidConfig(c) && Canonical(c, files)
    ensures Canonical(c, Written(c, files, log)) && View(c, Written(c, files, log)) == View(c, files)
  {
    ViewWithout(c, files, Active(c));
    ViewWithout(c, Written(c, files, log), Active(c));
    assert Written(c, files, log) - {Active(c)} == files - {Active(c)};
  }

  // The state of a directory after the rotation of these logs.
  ghost predicate Reached(c: Config, files: Files, logs: seq<Content>, top: nat) {
    Canonical(c, files) && if logs == [] then View(c, files) == map[] else Holds(c, View(c, files), logs, top)
  }

  lemma NextReached(c: Config, files: Files, logs: seq<Content>, log: Content, files': Files, top: nat)
    requires ValidConfig(c) && Reached(c, files, logs, top) && RotatesTo(c, files, log, files')
    requires top <= |logs| && (logs != [] ==> top >= 1) && top / 2 + 1 <= c.maxFiles
    ensures Reached(c, files', logs + [log], NextTop(top, c.maxFiles))
  {
    var w := Written(c, files, log);
    var l :| RotatesBy(c, files, log, l, files');
    WrittenView(c, files, log);
    NextCanonical(c, w, l, files');
    NextHolds(c, w, l, logs, log, files', top);
    assert Holds(c, View(c, files'), logs + [log], NextTop(top, c.maxFiles));
  }

  lemma NextCanonical(c: Config, w: Files, l: seq<Entry>, files': Files)
    requires ValidConfig(c) && IsListing(c, w, l) && Canonical(c, w) && Active(c) in w && files' == DoAll(w, Plan(c, l))
    ensures Canonical(c, files')
  {
    RotationKeepsCanonical(c, w, l);
  }

  lemma NextHolds(
    c: Config, w: Files, l: seq<Entry>, logs: seq<Content>, log: Content, files': Files, top: nat)
    requires ValidConfig(c) && IsListing(c, w, l) && Reached(c, w, logs, top)
    requires Active(c) in w && w[Active(c)] == log && files' == DoAll(w, Plan(c, l))
    requires top <= |logs| && (logs != [] ==> top >= 1) && top / 2 + 1 <= c.maxFiles
    ensures Holds(c, View(c, files'), logs + [log], NextTop(top, c.maxFiles))
  {
    if logs == [] {
      FirstRotation(c, w, l);
      assert [] + [log] == [log];
    } else {
      RotationOnLadder(c, w, l, logs, top);
    }
  }

  lemma NothingReached(c: Config, files: Files)
    requires RotatedNames(c, files) == {}
    ensures Reached(c, files, [], 0)
  {
    forall n | n in files
      ensures ParseIn(c, n).None?
    {
      assert n !in RotatedNames(c, files);
    }
    assert Numbers(c, files) == {};
  }

  lemma RunPrefix(c: Config, dirs: seq<Files>, logs: seq<Content>, n: nat)
    requires c.maxFiles >= 1 && Rotates(c, dirs, logs) && |logs| == n + 1
    ensures Rotates(c, dirs[..|logs|], logs[..n])
  {
    var dirs', logs' := dirs[..|logs|], logs[..n];
    forall i: nat | i < |logs'|
      ensures RotatesAt(c, dirs', logs', i)
    {
      assert RotatesAt(c, dirs, logs, i);
    }
  }

  lemma StepReached(c: Config, files: Files, logs: seq<Content>, log: Content, files': Files, all: seq<Content>)
    requires ValidConfig(c) && Reached(c, files, logs, Top(|logs|, c.maxFiles)) && RotatesTo(c, files, log, files')
    requires all == logs + [log]
    ensures Reached(c, files', all, Top(|all|, c.maxFiles))
  {
    TopStep(|logs|, c.maxFiles);
    NextReached(c, files, logs, log, files', Top(|logs|, c.maxFiles));
  }

  lemma RunLast(c: Config, dirs: seq<Files>, logs: seq<Content>, before: seq<Content>)
    returns (files: Files, log: Content, files': Files)
    requires c.maxFiles >= 1 && Rotates(c, dirs, logs) && |logs| == |before| + 1 && before == logs[..|before|]
    ensures files == dirs[|before|] && files' == dirs[|logs|] && logs == before + [log]
    ensures RotatesTo(c, files, log, files')
  {
    assert RotatesAt(c, dirs, logs, |before|);
    files, log, files' := dirs[|before|], logs[|before|], dirs[|logs|];
  }

  lemma RunStep(c: Config, dirs: seq<Files>, logs: seq<Content>, before: seq<Content>)
    requires ValidConfig(c) && Rotates(c, dirs, logs) && |logs| == |before| + 1 && before == logs[..|before|]
    requires Reached(c, dirs[|before|], before, Top(|before|, c.maxFiles))
    ensures Reached(c, dirs[|logs|], logs, Top(|logs|, c.maxFiles))
  {
    var files, log, files' := RunLast(c, dirs, logs, before);
    StepReached(c, files, before, log, files', logs);
  }

  // From a directory without rotated files: after n rotations it holds slot 1 and every second slot
  // up to the top, with the logs that `LogAt` gives.
  lemma {:induction false} RunEffect(c: Config, dirs: seq<Files>, logs: seq<Content>)
    requires ValidConfig(c) && Rotates(c, dirs, logs) && RotatedNames(c, dirs[0]) == {}
    ensures Reached(c, dirs[|logs|], logs, Top(|logs|, c.maxFiles))
    decreases |logs|
  {
    if logs == [] {
      NothingReached(c, dirs[0]);
    } else {
      var n := |logs| - 1;
      RunPrefix(c, dirs, logs, n);
      RunEffect(c, dirs[..|logs|], logs[..n]);
      RunStep(c, dirs, logs, logs[..n]);
    }
  }

  // How many rotated files there are: about half of the logs, until the limit is reached.
  lemma RunSize(c: Config, dirs: seq<Files>, logs: seq<Content>)
    requires ValidConfig(c) && Rotates(c, dirs, logs) && RotatedNames(c, dirs[0]) == {} && logs != []
    ensures |View(c, dirs[|logs|])| == Top(|logs|, c.maxFiles) / 2 + 1
  {
    var m, top := View(c, dirs[|logs|]), Top(|logs|, c.maxFiles);
    RunEffect(c, dirs, logs);
    assert HasRungs(m, top, c.compressOld);
    RungsSize(m, top, c.compressOld);
  }

  // The highest slot before the limit is reached.
  lemma TopBelowLimit(n: nat, maxFiles: nat)
    requires maxFiles >= 1 && n <= 2 * maxFiles - 2
    ensures Top(n, maxFiles) == n
  {
  }

  // Some slot up to `top` holds log number `i` of `n`.
  ghost predicate Found(n: nat, top: nat, i: nat) {
    exists k :: IsRung(top, k) && LogAt(n, k) == i
  }

  lemma RungIff(n: nat, top: nat, i: nat)
    requires i < n && top <= n && (n - top) % 2 == 0 && n - i >= 2
    ensures IsRung(top, n - i + 1) <==> i % 2 == 1 && n - i < top
  {
    if n - i < top {
      assert (top - (n - i + 1)) + (n - top) == i - 1;
      assert (top - (n - i + 1)) % 2 == (i - 1) % 2;
    }
  }

  lemma FoundAt(n: nat, top: nat, i: nat)
    requires 1 <= top <= n && (n - top) % 2 == 0 && i < n
    ensures Found(n, top, i) <==>
      || i == n - 1
      || (i == n - 2 && n % 2 == 0)
      || (i % 2 == 1 && i < n - 1 && n - i < top)
  {
    if i == n - 1 {
      assert IsRung(top, 1) && LogAt(n, 1) == i;
    } else {
      assert LogAt(n, n - i + 1) == i;
      RungIff(n, top, i);
      if n % 2 == 0 {
        assert top % 2 == 0 && IsRung(top, 2) && LogAt(n, 2) == n - 2;
      }
      forall k | IsRung(top, k) && LogAt(n, k) == i
        ensures k == n - i + 1 || (k == 2 && n % 2 == 0)
      {
      }
    }
  }

  lemma TopParity(n: nat, maxFiles: nat)
    requires n >= 1 && maxFiles >= 3
    ensures (n - Top(n, maxFiles)) % 2 == 0
  {
  }

  predicate DistinctLogs(logs: seq<Content>) {
    forall i, j :: 0 <= i < j < |logs| ==> logs[i] != logs[j]
  }

  lemma FoundInSlots(c: Config, m: Slots, logs: seq<Content>, top: nat, i: nat)
    requires Holds(c, m, logs, top) && DistinctLogs(logs) && i < |logs|
    ensures Stored(c, logs[i]) in m.Values <==> Found(|logs|, top, i)
  {
    if Stored(c, logs[i]) in m.Values {
      var s :| s in m && m[s] == Stored(c, logs[i]);
      assert logs[LogAt(|logs|, s.number)] == logs[i];
      assert IsRung(top, s.number) && LogAt(|logs|, s.number) == i;
    }
    if Found(|logs|, top, i) {
      var k :| IsRung(top, k) && LogAt(|logs|, k) == i;
      var s := Slot(k, c.compressOld);
      assert s in m && m[s] == Stored(c, logs[i]);
    }
  }

  lemma FoundLow(n: nat, top: nat, i: nat)
    requires 1 <= top <= Min(n, 2) && i < n
    ensures Found(n, top, i) <==> n - i <= top
  {
    if n - i <= top {
      assert IsRung(top, n - i) && LogAt(n, n - i) == i;
    }
  }

  // With MaxFiles of 3 or more: the newest log, after an even number of rotations the one before it,
  // and of all others every second one, as far up as there is room.
  predicate Survives(n: nat, maxFiles: nat, i: nat)
    requires maxFiles >= 1
  {
    if maxFiles <= 2 then n - i <= maxFiles
    else
      || i == n - 1
      || (i == n - 2 && n % 2 == 0)
      || (i % 2 == 1 && i < n - 1 && n - i < Top(n, maxFiles))
  }

  lemma FoundAtTop(n: nat, maxFiles: nat, i: nat)
    requires maxFiles >= 1 && i < n
    ensures Found(n, Top(n, maxFiles), i) <==> Survives(n, maxFiles, i)
  {
    if maxFiles >= 3 {
      TopParity(n, maxFiles);
      FoundAt(n, Top(n, maxFiles), i);
    } else {
      FoundLow(n, Top(n, maxFiles), i);
    }
  }

  // Which logs are found after a run.
  lemma FoundIff(c: Config, dirs: seq<Files>, logs: seq<Content>, i: nat)
    requires ValidConfig(c) && Rotates(c, dirs, logs) && RotatedNames(c, dirs[0]) == {}
    requires DistinctLogs(logs) && i < |logs|
    ensures Stored(c, logs[i]) in View(c, dirs[|logs|]).Values <==> Survives(|logs|, c.maxFiles, i)
  {
    RunEffect(c, dirs, logs);
    FoundInSlots(c, View(c, dirs[|logs|]), logs, Top(|logs|, c.maxFiles), i);
    FoundAtTop(|logs|, c.maxFiles, i);
  }
}
