/** Rotation of one log file: which files a directory holds before and after.

    A rotation is a plan, a sequence of elementary steps, computed from the sorted list of rotated
    files. `LogDirectory.Directory` carries out the plan step by step; any step may fail.
  */
module LogRotation {
  import opened Common
  import opened LogNames
  import opened LogShift

  type Files = map<string, Content>

  datatype Entry = Entry(name: string, slot: Slot)

  // `maxFiles` is at least 1, as the validated configuration has it.
  datatype Config = Config(base: string, ext: string, maxFiles: nat, compressOld: bool)

  predicate ValidConfig(c: Config) {
    c.maxFiles >= 1 && !HasSuffix(c.ext, GZ) && ParseIn(c, Active(c)).None?
  }

  function Active(c: Config): string {
    c.base + c.ext
  }

  function NameIn(c: Config, s: Slot): string {
    Name(c.base, c.ext, s)
  }

  function ParseIn(c: Config, name: string): Option<Slot> {
    Parse(c.base, c.ext, name)
  }

  const FIRST := Slot(1, false)
  const FIRST_GZ := Slot(1, true)

  // ---------------------------------------------------------------- elementary steps

  datatype Step = Remove(name: string) | Rename(from: string, to: string) | Compress(name: string)

  predicate Possible(files: Files, step: Step) {
    match step
    case Remove(name) => name in files
    case Rename(from, to) => from in files
    case Compress(name) => name in files
  }

  function Do(files: Files, step: Step): Files {
    if !Possible(files, step) then files else
      match step
      case Remove(name) => files - {name}
      case Rename(from, to) => (files - {from})[to := files[from]]
      case Compress(name) => (files - {name})[name + GZ := Gzip(files[name])]
  }

  function DoAll(files: Files, steps: seq<Step>): Files
    decreases |steps|
  {
    if steps == [] then files else DoAll(Do(files, steps[0]), steps[1..])
  }

  lemma {:induction false} DoAllAppend(files: Files, a: seq<Step>, b: seq<Step>)
    ensures DoAll(files, a + b) == DoAll(DoAll(files, a), b)
    decreases |a|
  {
    if a == [] {
      assert a + b == b;
    } else {
      assert (a + b)[0] == a[0] && (a + b)[1..] == a[1..] + b;
      DoAllAppend(Do(files, a[0]), a[1..], b);
    }
  }

  // ---------------------------------------------------------------- the plan

  function Excess(n: nat, maxFiles: nat): nat {
    if n >= maxFiles then n - maxFiles + 1 else 0
  }

  function Removals(l: seq<Entry>): seq<Step> {
    seq(|l|, i requires 0 <= i < |l| => Remove(l[i].name))
  }

  // From the end of the list to its start.
  function Renames(c: Config, l: seq<Entry>): seq<Step>
    decreases |l|
  {
    if l == [] then [] else
      var e := l[|l| - 1];
      [Rename(e.name, NameIn(c, Up(e.slot)))] + Renames(c, l[..|l| - 1])
  }

  function MakeRoom(c: Config, l: seq<Entry>): seq<Step>
    requires c.maxFiles >= 1
  {
    var excess := Excess(|l|, c.maxFiles);
    Removals(l[..excess]) + Renames(c, l[excess..])
  }

  function MoveIn(c: Config): seq<Step> {
    [Rename(Active(c), NameIn(c, FIRST))] + if c.compressOld then [Compress(NameIn(c, FIRST))] else []
  }

  function Plan(c: Config, l: seq<Entry>): seq<Step>
    requires c.maxFiles >= 1
  {
    MakeRoom(c, l) + MoveIn(c)
  }

  // ---------------------------------------------------------------- listings

  // Highest number first; of two files with one number, the compressed one first.
  predicate Before(a: Slot, b: Slot) {
    a.number > b.number || (a.number == b.number && (a.gz || !b.gz))
  }

  predicate SortedEntries(l: seq<Entry>) {
    forall i, j :: 0 <= i < j < |l| ==> Before(l[i].slot, l[j].slot)
  }

  predicate DistinctNames(l: seq<Entry>) {
    forall i, j :: 0 <= i < j < |l| ==> l[i].name != l[j].name
  }

  predicate IsEntry(c: Config, e: Entry) {
    e.slot.number >= 1 && ParseIn(c, e.name) == Some(e.slot)
  }

  ghost predicate IsListing(c: Config, files: Files, l: seq<Entry>) {
    && SortedEntries(l)
    && DistinctNames(l)
    && (forall e :: e in l <==> e.name in files && IsEntry(c, e))
  }

  // Every rotated file carries the name that rotation itself gives.
  ghost predicate Canonical(c: Config, files: Files) {
    forall n :: n in files && ParseIn(c, n).Some? ==> n == NameIn(c, ParseIn(c, n).value)
  }

  // A condition on the names alone.
  lemma CanonicalIff(c: Config, files: Files)
    requires ValidConfig(c)
    ensures Canonical(c, files) <==>
      forall n :: n in files && ParseIn(c, n).Some? ==> Plain(c.base, c.ext, n)
  {
    forall n | n in files && ParseIn(c, n).Some?
      ensures n == NameIn(c, ParseIn(c, n).value) <==> Plain(c.base, c.ext, n)
    {
      ReadBackIff(c.base, c.ext, n);
    }
  }

  function RotatedNames(c: Config, files: Files): set<string> {
    set n | n in files && ParseIn(c, n).Some?
  }

  // ---------------------------------------------------------------- any directory: capacity and frame

  lemma TargetIsRotated(c: Config, s: Slot)
    requires ValidConfig(c) && s.number >= 1
    ensures ParseIn(c, NameIn(c, s)) == Some(s)
  {
    ParseName(c.base, c.ext, s);
  }

  // Where a step that makes room reads and writes: rotated files only.
  predicate RoomStep(c: Config, step: Step) {
    match step
    case Remove(name) => ParseIn(c, name).Some?
    case Rename(from, to) => ParseIn(c, from).Some? && ParseIn(c, to).Some? && ParseIn(c, to).value.number >= 2
    case Compress(_) => false
  }

  predicate RoomSteps(c: Config, steps: seq<Step>) {
    forall i :: 0 <= i < |steps| ==> RoomStep(c, steps[i])
  }

  lemma RenameMakesRoom(c: Config, e: Entry)
    requires ValidConfig(c) && IsEntry(c, e)
    ensures RoomStep(c, Rename(e.name, NameIn(c, Up(e.slot))))
  {
    TargetIsRotated(c, Up(e.slot));
  }

  lemma {:induction false} RenamesMakeRoom(c: Config, l: seq<Entry>)
    requires ValidConfig(c) && forall e :: e in l ==> IsEntry(c, e)
    ensures RoomSteps(c, Renames(c, l)) && |Renames(c, l)| == |l|
    decreases |l|
  {
    if l != [] {
      RenameMakesRoom(c, l[|l| - 1]);
      RenamesMakeRoom(c, l[..|l| - 1]);
    }
  }

  lemma MakeRoomSteps(c: Config, l: seq<Entry>)
    requires ValidConfig(c) && forall e :: e in l ==> IsEntry(c, e)
    ensures RoomSteps(c, MakeRoom(c, l)) && |MakeRoom(c, l)| == |l|
  {
    var excess := Excess(|l|, c.maxFiles);
    RenamesMakeRoom(c, l[excess..]);
    forall i | 0 <= i < excess
      ensures RoomStep(c, Removals(l[..excess])[i])
    {
      assert l[i] in l;
    }
  }

  // Making room, whether completed or cut short by an error, touches rotated files only.
  lemma {:induction false} RoomFrame(c: Config, files: Files, steps: seq<Step>, n: string)
    requires RoomSteps(c, steps) && ParseIn(c, n).None?
    ensures n in DoAll(files, steps) <==> n in files
    ensures n in files ==> DoAll(files, steps)[n] == files[n]
    decreases |steps|
  {
    if steps != [] {
      assert RoomStep(c, steps[0]);
      RoomFrame(c, Do(files, steps[0]), steps[1..], n);
    }
  }

  lemma SwapSize(a: set<string>, x: string, y: string)
    requires x in a
    ensures |a - {x} + {y}| <= |a|
  {
    assert |a - {x}| == |a| - 1;
    assert |a - {x} + {y}| <= |a - {x}| + |{y}|;
  }

  lemma RotatedWithout(c: Config, files: Files, n: string)
    ensures RotatedNames(c, files - {n}) == RotatedNames(c, files) - {n}
  {
  }

  lemma RotatedPut(c: Config, files: Files, n: string, content: Content)
    requires ParseIn(c, n).Some?
    ensures RotatedNames(c, files[n := content]) == RotatedNames(c, files) + {n}
  {
  }

  lemma RoomStepCount(c: Config, files: Files, step: Step)
    requires RoomStep(c, step)
    ensures |RotatedNames(c, Do(files, step))| <= |RotatedNames(c, files)|
  {
    if Possible(files, step) {
      match step
      case Remove(name) =>
        RotatedWithout(c, files, name);
      case Rename(from, to) =>
        RotatedWithout(c, files, from);
        RotatedPut(c, files - {from}, to, files[from]);
        SwapSize(RotatedNames(c, files), from, to);
    }
  }

  lemma {:induction false} RoomCount(c: Config, files: Files, steps: seq<Step>)
    requires RoomSteps(c, steps)
    ensures |RotatedNames(c, DoAll(files, steps))| <= |RotatedNames(c, files)|
    decreases |steps|
  {
    if steps != [] {
      assert RoomStep(c, steps[0]);
      RoomStepCount(c, files, steps[0]);
      RoomCount(c, Do(files, steps[0]), steps[1..]);
    }
  }

  function Names(l: seq<Entry>): set<string> {
    set e | e in l :: e.name
  }

  lemma {:induction false} NamesSize(l: seq<Entry>)
    ensures |Names(l)| <= |l|
    decreases |l|
  {
    if l == [] {
      assert Names(l) == {};
    } else {
      NamesSize(l[1..]);
      assert Names(l) == {l[0].name} + Names(l[1..]);
    }
  }

  lemma {:induction false} RemovalsAt(files: Files, l: seq<Entry>, n: string)
    ensures n in DoAll(files, Removals(l)) <==> n in files && n !in Names(l)
    ensures n in DoAll(files, Removals(l)) ==> DoAll(files, Removals(l))[n] == files[n]
    decreases |l|
  {
    if l == [] {
      assert Removals(l) == [];
    } else {
      assert Removals(l)[1..] == Removals(l[1..]);
      RemovalsAt(Do(files, Remove(l[0].name)), l[1..], n);
      assert l == [l[0]] + l[1..];
    }
  }

  lemma NamesSplit(l: seq<Entry>, x: nat, n: string)
    requires x <= |l| && n in Names(l) && n !in Names(l[..x])
    ensures n in Names(l[x..])
  {
    assert l == l[..x] + l[x..];
  }

  lemma ListedName(c: Config, files: Files, l: seq<Entry>, n: string)
    requires IsListing(c, files, l) && n in RotatedNames(c, files)
    ensures n in Names(l)
  {
    var e := Entry(n, ParseIn(c, n).value);
    assert e.name in files && IsEntry(c, e);
    assert e in l;
  }

  lemma KeptNames(c: Config, files: Files, l: seq<Entry>, x: nat)
    requires IsListing(c, files, l) && x <= |l|
    ensures RotatedNames(c, DoAll(files, Removals(l[..x]))) <= Names(l[x..])
  {
    forall n | n in RotatedNames(c, DoAll(files, Removals(l[..x])))
      ensures n in Names(l[x..])
    {
      RemovalsAt(files, l[..x], n);
      ListedName(c, files, l, n);
      NamesSplit(l, x, n);
    }
  }

  lemma {:induction false} RenamesLeave(c: Config, files: Files, l: seq<Entry>, n: string)
    requires forall e :: e in l ==> NameIn(c, Up(e.slot)) != n
    ensures n in DoAll(files, Renames(c, l)) ==> n in files && n !in Names(l)
    decreases |l|
  {
    if l != [] {
      var e, rest := l[|l| - 1], l[..|l| - 1];
      assert l == rest + [e];
      var step := Rename(e.name, NameIn(c, Up(e.slot)));
      assert e in l;
      assert Renames(c, l)[0] == step && Renames(c, l)[1..] == Renames(c, rest);
      RenamesLeave(c, Do(files, step), rest, n);
    }
  }

  function Room(c: Config, files: Files, l: seq<Entry>): Files
    requires c.maxFiles >= 1
  {
    DoAll(files, MakeRoom(c, l))
  }

  lemma FirstIsFree(c: Config, files: Files, l: seq<Entry>, gz: bool)
    requires ValidConfig(c) && IsListing(c, files, l)
    ensures NameIn(c, Slot(1, gz)) !in Room(c, files, l)
  {
    var n, x := NameIn(c, Slot(1, gz)), Excess(|l|, c.maxFiles);
    var removed := DoAll(files, Removals(l[..x]));
    TargetIsRotated(c, Slot(1, gz));
    DoAllAppend(files, Removals(l[..x]), Renames(c, l[x..]));
    forall e | e in l[x..]
      ensures NameIn(c, Up(e.slot)) != n
    {
      assert e in l && IsEntry(c, e);
      TargetIsRotated(c, Up(e.slot));
    }
    RenamesLeave(c, removed, l[x..], n);
    KeptNames(c, files, l, x);
    assert n in removed ==> n in RotatedNames(c, removed);
  }

  // Room is made for one more file, whatever names the directory holds.
  lemma RoomIsMade(c: Config, files: Files, l: seq<Entry>)
    requires ValidConfig(c) && IsListing(c, files, l)
    ensures |RotatedNames(c, Room(c, files, l))| <= c.maxFiles - 1
  {
    var x := Excess(|l|, c.maxFiles);
    var removed := DoAll(files, Removals(l[..x]));
    DoAllAppend(files, Removals(l[..x]), Renames(c, l[x..]));
    RenamesMakeRoom(c, l[x..]);
    RoomCount(c, removed, Renames(c, l[x..]));
    KeptNames(c, files, l, x);
    NamesSize(l[x..]);
    SubsetSize(RotatedNames(c, removed), Names(l[x..]));
  }

  lemma CompressedName(c: Config)
    ensures NameIn(c, FIRST) + GZ == NameIn(c, FIRST_GZ)
  {
    var stem := c.base + "." + Itoa(1) + c.ext;
    assert stem + "" == stem;
  }

  // ---------------------------------------------------------------- every step finds its file

  predicate AllPossible(files: Files, steps: seq<Step>)
    decreases |steps|
  {
    steps == [] || (Possible(files, steps[0]) && AllPossible(Do(files, steps[0]), steps[1..]))
  }

  lemma {:induction false} AllPossibleAppend(files: Files, a: seq<Step>, b: seq<Step>)
    ensures AllPossible(files, a + b) <==> AllPossible(files, a) && AllPossible(DoAll(files, a), b)
    decreases |a|
  {
    if a == [] {
      assert a + b == b;
    } else {
      assert (a + b)[0] == a[0] && (a + b)[1..] == a[1..] + b;
      AllPossibleAppend(Do(files, a[0]), a[1..], b);
    }
  }

  lemma {:induction false} PossibleAt(files: Files, steps: seq<Step>, k: nat)
    requires AllPossible(files, steps) && k < |steps|
    ensures Possible(DoAll(files, steps[..k]), steps[k])
    decreases |steps|
  {
    if k > 0 {
      assert steps[..k][0] == steps[0] && steps[..k][1..] == steps[1..][..k - 1];
      PossibleAt(Do(files, steps[0]), steps[1..], k - 1);
    }
  }

  ghost predicate AllThere(files: Files, l: seq<Entry>) {
    DistinctNames(l) && forall e :: e in l ==> e.name in files
  }

  lemma {:induction false} RemovalsPossible(files: Files, l: seq<Entry>)
    requires AllThere(files, l)
    ensures AllPossible(files, Removals(l))
    decreases |l|
  {
    if l == [] {
      assert Removals(l) == [];
    } else {
      assert l[0] in l;
      assert Removals(l)[0] == Remove(l[0].name) && Removals(l)[1..] == Removals(l[1..]);
      forall e | e in l[1..]
        ensures e.name in files - {l[0].name}
      {
        var i :| 1 <= i < |l| && l[i] == e;
        assert l[0].name != l[i].name && l[i] in l;
      }
      RemovalsPossible(Do(files, Remove(l[0].name)), l[1..]);
    }
  }

  // Every file is renamed once, and overwriting a file leaves one of that name.
  lemma {:induction false} RenamesPossible(c: Config, files: Files, l: seq<Entry>)
    requires AllThere(files, l)
    ensures AllPossible(files, Renames(c, l))
    decreases |l|
  {
    if l != [] {
      var n := |l| - 1;
      var e, rest := l[n], l[..n];
      var step := Rename(e.name, NameIn(c, Up(e.slot)));
      assert e in l;
      assert Renames(c, l)[0] == step && Renames(c, l)[1..] == Renames(c, rest);
      forall x | x in rest
        ensures x.name in Do(files, step)
      {
        var i :| 0 <= i < n && l[i] == x;
        assert l[i].name != l[n].name && l[i] in l;
      }
      RenamesPossible(c, Do(files, step), rest);
    }
  }

  lemma KeptThere(c: Config, files: Files, l: seq<Entry>, x: nat)
    requires IsListing(c, files, l) && x <= |l|
    ensures AllThere(files, l[..x]) && AllThere(DoAll(files, Removals(l[..x])), l[x..])
  {
    var first, rest := l[..x], l[x..];
    assert forall e :: e in first ==> e in l;
    forall e | e in rest
      ensures e.name in DoAll(files, Removals(first))
    {
      var i :| x <= i < |l| && l[i] == e;
      assert l[i] in l;
      assert forall j :: 0 <= j < x ==> l[j].name != l[i].name;
      RemovalsAt(files, first, e.name);
    }
  }

  lemma RoomPossible(c: Config, files: Files, l: seq<Entry>)
    requires ValidConfig(c) && IsListing(c, files, l)
    ensures AllPossible(files, MakeRoom(c, l))
  {
    var x := Excess(|l|, c.maxFiles);
    var first, rest := l[..x], l[x..];
    KeptThere(c, files, l, x);
    RemovalsPossible(files, first);
    RenamesPossible(c, DoAll(files, Removals(first)), rest);
    AllPossibleAppend(files, Removals(first), Renames(c, rest));
  }

  // Whatever the directory holds, no step of a plan fails because its file is not there, provided
  // that there is an active log.
  lemma PlanPossibleIff(c: Config, files: Files, l: seq<Entry>)
    requires ValidConfig(c) && IsListing(c, files, l)
    ensures AllPossible(files, Plan(c, l)) <==> Active(c) in files
  {
    RoomPossible(c, files, l);
    AllPossibleAppend(files, MakeRoom(c, l), MoveIn(c));
    MakeRoomSteps(c, l);
    RoomFrame(c, files, MakeRoom(c, l), Active(c));
    MoveInPossible(c, Room(c, files, l));
  }

  lemma MoveInPossible(c: Config, room: Files)
    ensures AllPossible(room, MoveIn(c)) <==> Active(c) in room
  {
    var moved := Do(room, Rename(Active(c), NameIn(c, FIRST)));
    var rest := MoveIn(c)[1..];
    assert Active(c) in room ==> NameIn(c, FIRST) in moved;
    assert AllPossible(room, MoveIn(c)) <==> Active(c) in room && AllPossible(moved, rest);
    if c.compressOld {
      assert rest == [Compress(NameIn(c, FIRST))] && rest[1..] == [];
      assert AllPossible(moved, rest) <==> NameIn(c, FIRST) in moved;
    } else {
      assert rest == [];
    }
  }

  // ---------------------------------------------------------------- the active log moves

  // The directory after the active log has taken slot 1.
  function MovedIn(c: Config, room: Files): Files
    requires Active(c) in room
  {
    (room - {Active(c)})[NameIn(c, if c.compressOld then FIRST_GZ else FIRST) :=
      if c.compressOld then Gzip(room[Active(c)]) else room[Active(c)]]
  }

  lemma MoveInEffect(c: Config, room: Files)
    requires ValidConfig(c) && Active(c) in room && NameIn(c, FIRST) !in room
    ensures DoAll(room, MoveIn(c)) == MovedIn(c, room)
  {
    var first := NameIn(c, FIRST);
    TargetIsRotated(c, FIRST);
    var moved := Do(room, Rename(Active(c), first));
    assert MoveIn(c)[0] == Rename(Active(c), first);
    if c.compressOld {
      assert MoveIn(c)[1..] == [Compress(first)] && MoveIn(c)[1..][1..] == [];
      CompressedName(c);
      assert DoAll(room, MoveIn(c)) == DoAll(moved, [Compress(first)]) == Do(moved, Compress(first));
      assert moved - {first} == room - {Active(c)};
    } else {
      assert MoveIn(c)[1..] == [];
    }
  }

  // After a complete rotation: the active log is in slot 1, at most `maxFiles` rotated files are
  // left, and no other file has been touched.
  lemma RotationKeepsLimit(c: Config, files: Files, l: seq<Entry>)
    requires ValidConfig(c) && IsListing(c, files, l) && Active(c) in files
    ensures Active(c) in Room(c, files, l)
    ensures DoAll(files, Plan(c, l)) == MovedIn(c, Room(c, files, l))
    ensures |RotatedNames(c, DoAll(files, Plan(c, l)))| <= c.maxFiles
  {
    var room := Room(c, files, l);
    MakeRoomSteps(c, l);
    RoomFrame(c, files, MakeRoom(c, l), Active(c));
    FirstIsFree(c, files, l, false);
    DoAllAppend(files, MakeRoom(c, l), MoveIn(c));
    MoveInEffect(c, room);
    RoomIsMade(c, files, l);
    MovedInCount(c, room);
  }

  lemma MovedInCount(c: Config, room: Files)
    requires ValidConfig(c) && Active(c) in room
    ensures |RotatedNames(c, MovedIn(c, room))| <= |RotatedNames(c, room)| + 1
  {
    var slot := if c.compressOld then FIRST_GZ else FIRST;
    TargetIsRotated(c, slot);
    RotatedWithout(c, room, Active(c));
    var content := if c.compressOld then Gzip(room[Active(c)]) else room[Active(c)];
    RotatedPut(c, room - {Active(c)}, NameIn(c, slot), content);
    SubsetSize(RotatedNames(c, room) - {Active(c)}, RotatedNames(c, room));
    var others := RotatedNames(c, room) - {Active(c)};
    assert |others + {NameIn(c, slot)}| <= |others| + |{NameIn(c, slot)}|;
  }

  lemma RotationFrame(c: Config, files: Files, l: seq<Entry>, n: string)
    requires ValidConfig(c) && IsListing(c, files, l) && Active(c) in files
    requires ParseIn(c, n).None? && n != Active(c)
    ensures n in DoAll(files, Plan(c, l)) <==> n in files
    ensures n in files ==> DoAll(files, Plan(c, l))[n] == files[n]
  {
    RotationKeepsLimit(c, files, l);
    MakeRoomSteps(c, l);
    RoomFrame(c, files, MakeRoom(c, l), n);
    TargetIsRotated(c, FIRST);
    TargetIsRotated(c, FIRST_GZ);
  }

  // ---------------------------------------------------------------- canonical directories: exact effect

  function Numbers(c: Config, files: Files): set<Slot> {
    set n | n in files && ParseIn(c, n).Some? && NameIn(c, ParseIn(c, n).value) == n :: ParseIn(c, n).value
  }

  // The numbered slots that a directory holds.
  function View(c: Config, files: Files): Slots {
    map s | s in Numbers(c, files) :: files[NameIn(c, s)]
  }

  lemma InView(c: Config, files: Files, s: Slot)
    requires ValidConfig(c)
    ensures s in View(c, files) <==> s.number >= 1 && NameIn(c, s) in files
    ensures s in View(c, files) ==> View(c, files)[s] == files[NameIn(c, s)]
  {
    if s.number >= 1 {
      TargetIsRotated(c, s);
    }
  }

  lemma SameName(c: Config, a: Slot, b: Slot)
    requires ValidConfig(c) && a.number >= 1 && b.number >= 1
    ensures NameIn(c, a) == NameIn(c, b) ==> a == b
  {
    TargetIsRotated(c, a);
    TargetIsRotated(c, b);
  }

  lemma RenamedAt(files: Files, from: string, to: string, n: string)
    requires from in files && from != to
    ensures n in Do(files, Rename(from, to)) <==> n == to || (n in files && n != from)
    ensures n in Do(files, Rename(from, to)) ==> Do(files, Rename(from, to))[n] == files[if n == to then from else n]
  {
  }

  lemma ViewAfterRename(c: Config, files: Files, s: Slot)
    requires ValidConfig(c) && s in View(c, files)
    ensures View(c, Do(files, Rename(NameIn(c, s), NameIn(c, Up(s))))) == MoveUp(View(c, files), s)
  {
    InView(c, files, s);
    SameName(c, s, Up(s));
    var files' := Do(files, Rename(NameIn(c, s), NameIn(c, Up(s))));
    forall t
      ensures t in View(c, files') <==> t in MoveUp(View(c, files), s)
      ensures t in View(c, files') ==> View(c, files')[t] == MoveUp(View(c, files), s)[t]
    {
      ViewAfterRenameAt(c, files, s, t, files');
    }
  }

  lemma ViewAfterRenameAt(c: Config, files: Files, s: Slot, t: Slot, files': Files)
    requires ValidConfig(c) && s in View(c, files) && files' == Do(files, Rename(NameIn(c, s), NameIn(c, Up(s))))
    ensures t in View(c, files') <==> t in MoveUp(View(c, files), s)
    ensures t in View(c, files') ==> View(c, files')[t] == MoveUp(View(c, files), s)[t]
  {
    InView(c, files, s);
    InView(c, files, t);
    InView(c, files', t);
    if t.number >= 1 {
      SameName(c, s, t);
      SameName(c, Up(s), t);
      SameName(c, s, Up(s));
      RenamedAt(files, NameIn(c, s), NameIn(c, Up(s)), NameIn(c, t));
    }
  }

  function Order(l: seq<Entry>): seq<Slot>
    decreases |l|
  {
    if l == [] then [] else [l[|l| - 1].slot] + Order(l[..|l| - 1])
  }

  lemma {:induction false} OrderAt(l: seq<Entry>)
    ensures |Order(l)| == |l| && forall i :: 0 <= i < |l| ==> Order(l)[i] == l[|l| - 1 - i].slot
    decreases |l|
  {
    if l != [] {
      OrderAt(l[..|l| - 1]);
    }
  }

  predicate CanonicalEntry(c: Config, e: Entry) {
    e.slot.number >= 1 && e.name == NameIn(c, e.slot)
  }

  lemma {:induction false} ViewAfterRenames(c: Config, files: Files, l: seq<Entry>)
    requires ValidConfig(c) && forall e :: e in l ==> CanonicalEntry(c, e)
    ensures View(c, DoAll(files, Renames(c, l))) == Shift(View(c, files), Order(l))
    decreases |l|
  {
    if l != [] {
      var e, rest := l[|l| - 1], l[..|l| - 1];
      assert e in l && CanonicalEntry(c, e);
      var step := Rename(e.name, NameIn(c, Up(e.slot)));
      InView(c, files, e.slot);
      if e.slot in View(c, files) {
        ViewAfterRename(c, files, e.slot);
      }
      assert Renames(c, l)[0] == step && Renames(c, l)[1..] == Renames(c, rest);
      assert Order(l)[0] == e.slot && Order(l)[1..] == Order(rest);
      ViewAfterRenames(c, Do(files, step), rest);
    }
  }

  function SlotsOf(l: seq<Entry>): set<Slot> {
    set e | e in l :: e.slot
  }

  // The slots that survive the removals: the lowest `maxFiles - 1`.
  function Kept(c: Config, files: Files, l: seq<Entry>): Slots
    requires c.maxFiles >= 1
  {
    View(c, files) - SlotsOf(l[..Excess(|l|, c.maxFiles)])
  }

  lemma ViewAfterRemovals(c: Config, files: Files, l: seq<Entry>)
    requires ValidConfig(c) && forall e :: e in l ==> CanonicalEntry(c, e)
    ensures View(c, DoAll(files, Removals(l))) == View(c, files) - SlotsOf(l)
  {
    var a, b := View(c, DoAll(files, Removals(l))), View(c, files) - SlotsOf(l);
    forall t
      ensures t in a <==> t in b
      ensures t in b ==> a[t] == b[t]
    {
      RemovalsAt(files, l, NameIn(c, t));
      InView(c, files, t);
      InView(c, DoAll(files, Removals(l)), t);
      forall e | e in l && e.name == NameIn(c, t) && t.number >= 1
        ensures e.slot == t
      {
        assert CanonicalEntry(c, e);
        SameName(c, e.slot, t);
      }
    }
  }

  lemma CanonicalListing(c: Config, files: Files, l: seq<Entry>)
    requires ValidConfig(c) && IsListing(c, files, l) && Canonical(c, files)
    ensures forall e :: e in l ==> CanonicalEntry(c, e)
    ensures DistinctSlots(l)
    ensures SlotsOf(l) == View(c, files).Keys
  {
    forall e | e in l
      ensures CanonicalEntry(c, e)
    {
      assert e.name in files && IsEntry(c, e);
    }
    forall i, j | 0 <= i < j < |l|
      ensures l[i].slot != l[j].slot
    {
      assert l[i] in l && l[j] in l && CanonicalEntry(c, l[i]) && CanonicalEntry(c, l[j]);
    }
    forall s
      ensures s in SlotsOf(l) <==> s in View(c, files)
    {
      InView(c, files, s);
      if s in View(c, files) {
        TargetIsRotated(c, s);
        assert IsEntry(c, Entry(NameIn(c, s), s)) && Entry(NameIn(c, s), s) in l;
      }
    }
  }

  predicate DistinctSlots(l: seq<Entry>) {
    forall i, j :: 0 <= i < j < |l| ==> l[i].slot != l[j].slot
  }

  lemma PartSlots(l: seq<Entry>, x: nat, s: Slot)
    requires DistinctSlots(l) && x <= |l|
    ensures s in SlotsOf(l[x..]) <==> s in SlotsOf(l) && s !in SlotsOf(l[..x])
  {
    assert l == l[..x] + l[x..];
  }

  lemma KeptSlots(c: Config, files: Files, l: seq<Entry>)
    requires ValidConfig(c) && IsListing(c, files, l) && Canonical(c, files)
    ensures Kept(c, files, l).Keys == SlotsOf(l[Excess(|l|, c.maxFiles)..])
    ensures DistinctSlots(l[Excess(|l|, c.maxFiles)..])
  {
    CanonicalListing(c, files, l);
    forall s
      ensures s in SlotsOf(l[Excess(|l|, c.maxFiles)..]) <==> s in Kept(c, files, l)
    {
      PartSlots(l, Excess(|l|, c.maxFiles), s);
    }
  }

  // The renames go through the list backwards: every slot once, lowest number first.
  lemma OrderAscends(l: seq<Entry>)
    requires SortedEntries(l) && DistinctSlots(l)
    ensures Ascending(Order(l)) && Distinct(Order(l))
    ensures forall s :: s in Order(l) <==> s in SlotsOf(l)
  {
    OrderAt(l);
    forall i, j | 0 <= i < j < |l|
      ensures Order(l)[i].number <= Order(l)[j].number && Order(l)[i] != Order(l)[j]
    {
      assert Before(l[|l| - 1 - j].slot, l[|l| - 1 - i].slot);
    }
    forall s
      ensures s in Order(l) <==> s in SlotsOf(l)
    {
      OrderMembers(l, s);
    }
  }

  lemma OrderMembers(l: seq<Entry>, s: Slot)
    ensures s in SlotsOf(l) <==> s in Order(l)
  {
    OrderAt(l);
    if s in SlotsOf(l) {
      var i :| 0 <= i < |l| && l[i].slot == s;
      assert Order(l)[|l| - 1 - i] == s;
    }
  }

  lemma RoomEffect(c: Config, files: Files, l: seq<Entry>)
    requires ValidConfig(c) && IsListing(c, files, l) && Canonical(c, files)
    ensures View(c, Room(c, files, l)) == Collapsed(Kept(c, files, l))
  {
    var x := Excess(|l|, c.maxFiles);
    CanonicalListing(c, files, l);
    DoAllAppend(files, Removals(l[..x]), Renames(c, l[x..]));
    ViewAfterRemovals(c, files, l[..x]);
    ViewAfterRenames(c, DoAll(files, Removals(l[..x])), l[x..]);
    KeptSlots(c, files, l);
    OrderAscends(l[x..]);
    ShiftLowestFirst(Kept(c, files, l), Order(l[x..]));
  }

  lemma ViewWithout(c: Config, files: Files, n: string)
    requires ValidConfig(c) && ParseIn(c, n).None?
    ensures View(c, files - {n}) == View(c, files)
  {
    forall t
      ensures t in View(c, files - {n}) <==> t in View(c, files)
      ensures t in View(c, files) ==> View(c, files - {n})[t] == View(c, files)[t]
    {
      InView(c, files, t);
      InView(c, files - {n}, t);
      if t.number >= 1 {
        TargetIsRotated(c, t);
      }
    }
  }

  lemma ViewPutAt(c: Config, files: Files, s: Slot, content: Content, t: Slot)
    requires ValidConfig(c) && s.number >= 1
    ensures var after := View(c, files[NameIn(c, s) := content]);
      && (t in after <==> t == s || t in View(c, files))
      && (t in after ==> after[t] == if t == s then content else View(c, files)[t])
  {
    InView(c, files, t);
    InView(c, files[NameIn(c, s) := content], t);
    if t.number >= 1 {
      SameName(c, s, t);
    }
  }

  lemma ViewPut(c: Config, files: Files, s: Slot, content: Content)
    requires ValidConfig(c) && s.number >= 1
    ensures View(c, files[NameIn(c, s) := content]) == View(c, files)[s := content]
  {
    var after, before := View(c, files[NameIn(c, s) := content]), View(c, files);
    forall t
      ensures t in after <==> t == s || t in before
      ensures t in after ==> after[t] == if t == s then content else before[t]
    {
      ViewPutAt(c, files, s, content, t);
    }
  }

  lemma ViewAfterMoveIn(c: Config, room: Files)
    requires ValidConfig(c) && Active(c) in room
    ensures View(c, MovedIn(c, room)) == View(c, room)[(if c.compressOld then FIRST_GZ else FIRST) :=
      if c.compressOld then Gzip(room[Active(c)]) else room[Active(c)]]
  {
    ViewWithout(c, room, Active(c));
    ViewPut(c, room - {Active(c)}, if c.compressOld then FIRST_GZ else FIRST,
      if c.compressOld then Gzip(room[Active(c)]) else room[Active(c)]);
  }

  // Exact effect of a complete rotation on the numbered slots.
  lemma RotationEffect(c: Config, files: Files, l: seq<Entry>)
    requires ValidConfig(c) && IsListing(c, files, l) && Canonical(c, files) && Active(c) in files
    ensures View(c, DoAll(files, Plan(c, l))) ==
      Collapsed(Kept(c, files, l))[(if c.compressOld then FIRST_GZ else FIRST) :=
        if c.compressOld then Gzip(files[Active(c)]) else files[Active(c)]]
  {
    RoomEffect(c, files, l);
    RotationKeepsLimit(c, files, l);
    MakeRoomSteps(c, l);
    RoomFrame(c, files, MakeRoom(c, l), Active(c));
    ViewAfterMoveIn(c, Room(c, files, l));
  }

  // The files given up for space are the oldest: every one of them ranks above every one kept.
  lemma KeptAreLowest(c: Config, files: Files, l: seq<Entry>, s: Slot, t: Slot)
    requires ValidConfig(c) && IsListing(c, files, l) && Canonical(c, files)
    requires s in Kept(c, files, l) && t in View(c, files) && t !in Kept(c, files, l)
    ensures Before(t, s)
  {
    var x := Excess(|l|, c.maxFiles);
    CanonicalListing(c, files, l);
    KeptSlots(c, files, l);
    assert t in SlotsOf(l[..x]) && s in SlotsOf(l[x..]);
    var i :| 0 <= i < x && l[i].slot == t;
    var j :| x <= j < |l| && l[j].slot == s;
    assert Before(l[i].slot, l[j].slot);
  }

  // Outright: the number decides, and of two files with one number the compressed one goes first.
  lemma GivenUpFirst(c: Config, files: Files, l: seq<Entry>, s: Slot, t: Slot)
    requires ValidConfig(c) && IsListing(c, files, l) && Canonical(c, files)
    requires s in Kept(c, files, l) && t in View(c, files) && t !in Kept(c, files, l)
    ensures t.number > s.number || (t.number == s.number && t.gz && !s.gz)
  {
    KeptAreLowest(c, files, l, s, t);
  }

  lemma {:induction false} DistinctSize(l: seq<Entry>)
    requires DistinctSlots(l)
    ensures |SlotsOf(l)| == |l|
    decreases |l|
  {
    if l == [] {
      assert SlotsOf(l) == {};
    } else {
      DistinctSize(l[1..]);
      assert SlotsOf(l) == {l[0].slot} + SlotsOf(l[1..]);
    }
  }

  lemma KeptSize(c: Config, files: Files, l: seq<Entry>)
    requires ValidConfig(c) && IsListing(c, files, l) && Canonical(c, files)
    ensures |Kept(c, files, l)| == if |View(c, files)| < c.maxFiles then |View(c, files)| else c.maxFiles - 1
  {
    CanonicalListing(c, files, l);
    KeptSlots(c, files, l);
    DistinctSize(l);
    DistinctSize(l[Excess(|l|, c.maxFiles)..]);
    assert |View(c, files)| == |View(c, files).Keys| && |Kept(c, files, l)| == |Kept(c, files, l).Keys|;
  }

  // How many rotated files a rotation leaves.
  lemma RotationSize(c: Config, files: Files, l: seq<Entry>)
    requires ValidConfig(c) && IsListing(c, files, l) && Canonical(c, files) && Active(c) in files
    ensures |View(c, DoAll(files, Plan(c, l)))| + |Overwritten(Kept(c, files, l))| == |Kept(c, files, l)| + 1
  {
    var kept, slot := Kept(c, files, l), if c.compressOld then FIRST_GZ else FIRST;
    RotationEffect(c, files, l);
    CollapsedSize(kept);
    RoomEffect(c, files, l);
    FirstIsFree(c, files, l, slot.gz);
    InView(c, Room(c, files, l), slot);
    AddedSize(Collapsed(kept), slot, if c.compressOld then Gzip(files[Active(c)]) else files[Active(c)]);
  }

  lemma AddedSize(m: Slots, s: Slot, content: Content)
    requires s !in m
    ensures |m[s := content]| == |m| + 1
  {
    assert m[s := content].Keys == m.Keys + {s};
  }
}
