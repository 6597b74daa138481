/** The rotation manager at work on a directory. Every file operation may fail. */
module LogDirectory {
  import opened LogNames
  import opened LogShift
  import opened LogRotation
  import opened Sorting

  const BY_SLOT := (a: Entry, b: Entry) => Before(a.slot, b.slot)
  const ENTRY_NAME := (e: Entry) => e.name

  lemma EntriesSorted(l: seq<Entry>)
    requires DistinctNames(l)
    ensures var s := Sort(BY_SLOT, l);
      SortedEntries(s) && DistinctNames(s) && forall e :: e in l <==> e in s
  {
    SortSorts(BY_SLOT, l);
    SameMembers(ENTRY_NAME, l, Sort(BY_SLOT, l));
    var s := Sort(BY_SLOT, l);
    forall i, j | 0 <= i < j < |s|
      ensures Before(s[i].slot, s[j].slot) && s[i].name != s[j].name
    {
      assert BY_SLOT(s[i], s[j]) && ENTRY_NAME(s[i]) != ENTRY_NAME(s[j]);
    }
  }

  // ---------------------------------------------------------------- the object

  class Directory {
    const c: Config
    // Whether the disk refuses no operation on files that are there.
    const reliable: bool
    var files: Files

    constructor (c: Config, files: Files, reliable: bool)
      ensures this.c == c && this.files == files && this.reliable == reliable
    {
      this.c, this.files, this.reliable := c, files, reliable;
    }

    method RemoveFile(name: string) returns (ok: bool)
      modifies this
      ensures ok ==> Possible(old(files), Remove(name))
      ensures reliable ==> (ok <==> Possible(old(files), Remove(name)))
      ensures files == if ok then Do(old(files), Remove(name)) else old(files)
    {
      var allowed: bool := *;
      ok := (reliable || allowed) && name in files;
      if ok {
        files := files - {name};
      }
    }

    method RenameFile(from: string, to: string) returns (ok: bool)
      modifies this
      ensures ok ==> Possible(old(files), Rename(from, to))
      ensures reliable ==> (ok <==> Possible(old(files), Rename(from, to)))
      ensures files == if ok then Do(old(files), Rename(from, to)) else old(files)
    {
      var allowed: bool := *;
      ok := (reliable || allowed) && from in files;
      if ok {
        files := (files - {from})[to := files[from]];
      }
    }

    // `Fill` is what both a copy and a compression do to their target: on any failure the source is
    // still there, and only the target may have changed.
    method Fill(src: string, dst: string, content: Content) returns (ok: bool)
      requires src in files && src != dst
      modifies this
      ensures ok ==> files == (old(files) - {src})[dst := content]
      ensures !ok ==> files - {dst} == old(files) - {dst}
      ensures reliable ==> ok
    {
      ok := false;
      var readable: bool, created: bool, written: bool := *, *, *;
      if reliable || (readable && created) {
        var partial: Content := *;
        var complete := reliable || written;
        files := files[dst := if complete then content else partial];
        if !complete {
          var cleaned := RemoveFile(dst);
        } else {
          var synced: bool := *;
          if reliable || synced {
            ok := RemoveFile(src);
          }
        }
      }
    }

    method MoveFile(src: string, dst: string) returns (ok: bool)
      requires src != dst
      modifies this
      ensures ok ==> Possible(old(files), Rename(src, dst)) && files == Do(old(files), Rename(src, dst))
      ensures reliable ==> (ok <==> Possible(old(files), Rename(src, dst)))
      ensures !ok ==> files - {dst} == old(files) - {dst}
    {
      ok := RenameFile(src, dst);
      if !ok && src in files {
        ok := Fill(src, dst, files[src]);
      }
    }

    method CompressFile(name: string) returns (ok: bool)
      modifies this
      ensures ok ==> Possible(old(files), Compress(name)) && files == Do(old(files), Compress(name))
      ensures reliable ==> (ok <==> Possible(old(files), Compress(name)))
      ensures !ok ==> files - {name + GZ} == old(files) - {name + GZ}
    {
      ok := false;
      if name in files {
        ok := Fill(name, name + GZ, Gzip(files[name]));
      }
    }

    method ReadDir() returns (ok: bool, names: seq<string>)
      ensures ok ==> (forall n :: n in names <==> n in files)
      ensures ok ==> forall i, j :: 0 <= i < j < |names| ==> names[i] != names[j]
      ensures reliable ==> ok
    {
      var readable: bool := *;
      ok, names := reliable || readable, [];
      var rest := files.Keys;
      while rest != {}
        invariant rest <= files.Keys
        invariant forall n :: n in names <==> n in files && n !in rest
        invariant forall i, j :: 0 <= i < j < |names| ==> names[i] != names[j]
      {
        var n :| n in rest;
        names, rest := names + [n], rest - {n};
      }
    }

    method GetRotatedFiles() returns (ok: bool, l: seq<Entry>)
      ensures ok ==> IsListing(c, files, l)
      ensures reliable ==> ok
    {
      var names;
      ok, names := ReadDir();
      l := [];
      if ok {
        l := Recognized(c, names);
        EntriesSorted(l);
        l := Sort(BY_SLOT, l);
      }
    }

    // The steps done are a prefix of those planned; all of them if there was no error.
    method RemoveExcess(l: seq<Entry>) returns (ok: bool, done: nat)
      modifies this
      ensures done <= |l| && (ok <==> done == |l|)
      ensures files == DoAll(old(files), Removals(l)[..done])
      ensures reliable && AllPossible(old(files), Removals(l)) ==> ok
    {
      done, ok := 0, true;
      while done < |l| && ok
        decreases |l| - done, ok
        invariant done <= |l| && (!ok ==> done < |l|) && files == DoAll(old(files), Removals(l)[..done])
        invariant reliable && AllPossible(old(files), Removals(l)) ==> ok
      {
        StepDone(old(files), Removals(l), done);
        StepPossible(old(files), Removals(l), done);
        ok := RemoveFile(l[done].name);
        if ok {
          done := done + 1;
        }
      }
    }

    method ShiftRotatedFiles(l: seq<Entry>) returns (ok: bool, done: nat)
      modifies this
      ensures |Renames(c, l)| == |l| && done <= |l| && (ok <==> done == |l|)
      ensures files == DoAll(old(files), Renames(c, l)[..done])
      ensures reliable && AllPossible(old(files), Renames(c, l)) ==> ok
    {
      done, ok := 0, true;
      RenamesAt(c, l);
      while done < |l| && ok
        decreases |l| - done, ok
        invariant done <= |l| && (!ok ==> done < |l|) && files == DoAll(old(files), Renames(c, l)[..done])
        invariant reliable && AllPossible(old(files), Renames(c, l)) ==> ok
      {
        var e := l[|l| - 1 - done];
        StepDone(old(files), Renames(c, l), done);
        StepPossible(old(files), Renames(c, l), done);
        ok := RenameFile(e.name, NameIn(c, Up(e.slot)));
        if ok {
          done := done + 1;
        }
      }
    }

    // Removing and shifting in turn: the room for the active log.
    method FreeSlots(l: seq<Entry>) returns (ok: bool, done: nat)
      requires c.maxFiles >= 1
      modifies this
      ensures |MakeRoom(c, l)| == |l| && done <= |l| && (ok <==> done == |l|)
      ensures files == DoAll(old(files), MakeRoom(c, l)[..done])
      ensures reliable && AllPossible(old(files), MakeRoom(c, l)) ==> ok
    {
      var excess := Excess(|l|, c.maxFiles);
      RoomParts(c, l);
      AllPossibleAppend(files, Removals(l[..excess]), Renames(c, l[excess..]));
      ok, done := RemoveExcess(l[..excess]);
      if ok {
        Begun(Removals(l[..excess]), [], excess);
        ok, done := ShiftRotatedFiles(l[excess..]);
        Continued(old(files), Removals(l[..excess]), Renames(c, l[excess..]), done);
        done := excess + done;
      } else {
        Begun(Removals(l[..excess]), Renames(c, l[excess..]), done);
      }
    }

    method MoveActive() returns (ok: bool, done: nat)
      requires ValidConfig(c)
      modifies this
      ensures done <= |MoveIn(c)| && (ok <==> done == |MoveIn(c)|)
      ensures ok ==> Active(c) in old(files) && files == DoAll(old(files), MoveIn(c))
      ensures reliable ==> (ok <==> Active(c) in old(files))
      ensures !ok ==> files - FirstFiles(c) == DoAll(old(files), MoveIn(c)[..done]) - FirstFiles(c)
      ensures !ok && Active(c) in old(files) ==> Survives(c, files, old(files)[Active(c)])
    {
      var active, first, gz := Active(c), NameIn(c, FIRST), NameIn(c, FIRST_GZ);
      MoveInSteps(c, files);
      ok := MoveFile(active, first);
      if !ok {
        done := 0;
        OnlyDiffers(files, old(files), first, gz);
      } else {
        done := 1;
        if c.compressOld {
          ok := CompressFile(first);
          done := if ok then 2 else 1;
          if !ok {
            OnlyDiffers(files, Do(old(files), Rename(active, first)), gz, first);
          }
        }
      }
    }

    method RotateListed(l: seq<Entry>) returns (ok: bool, done: nat)
      requires ValidConfig(c) && IsListing(c, files, l)
      modifies this
      ensures done <= |Plan(c, l)| && (ok <==> done == |Plan(c, l)|)
      ensures ok ==> Active(c) in old(files) && files == DoAll(old(files), Plan(c, l))
      ensures reliable ==> (ok <==> Active(c) in old(files))
      ensures done < |l| ==> files == DoAll(old(files), Plan(c, l)[..done])
      ensures !ok ==> files - FirstFiles(c) == DoAll(old(files), Plan(c, l)[..done]) - FirstFiles(c)
      ensures !ok && Active(c) in old(files) ==> Survives(c, files, old(files)[Active(c)])
    {
      RoomPossible(c, files, l);
      ok, done := FreeSlots(l);
      PartialRoom(c, old(files), l, done);
      if ok {
        assert files == Room(c, old(files), l);
        ok, done := MoveActive();
        PlanContinued(c, old(files), l, done);
        done := |l| + done;
      }
    }

    // A complete rotation carries out the whole plan. One that fails has carried out a prefix of
    // it, up to the files of slot 1. The active log is lost in no case. If the disk refuses nothing,
    // a rotation completes exactly if there is an active log.
    method PerformRotation() returns (ok: bool, listed: bool, l: seq<Entry>, done: nat)
      requires ValidConfig(c)
      modifies this
      ensures !listed ==> !ok && files == old(files)
      ensures listed ==> IsListing(c, old(files), l) && done <= |Plan(c, l)| && (ok <==> done == |Plan(c, l)|)
      ensures ok ==> Active(c) in old(files) && files == DoAll(old(files), Plan(c, l))
      ensures reliable ==> listed && (ok <==> Active(c) in old(files))
      ensures ok ==> |RotatedNames(c, files)| <= c.maxFiles
      ensures listed && done < |l| ==> files == DoAll(old(files), Plan(c, l)[..done])
      ensures listed && !ok ==> files - FirstFiles(c) == DoAll(old(files), Plan(c, l)[..done]) - FirstFiles(c)
      ensures !ok && Active(c) in old(files) ==> Survives(c, files, old(files)[Active(c)])
    {
      ok, done := false, 0;
      listed, l := GetRotatedFiles();
      if listed {
        ok, done := RotateListed(l);
        if ok {
          RotationKeepsLimit(c, old(files), l);
        }
      }
    }
  }

  // What a name is recognised as.
  function EntriesOf(c: Config, name: string): (l: seq<Entry>)
    ensures forall e :: e in l <==> e.name == name && IsEntry(c, e)
    ensures |l| <= 1
  {
    var parsed := ParseIn(c, name);
    if parsed.Some? then [Entry(name, parsed.value)] else []
  }

  lemma OneMoreName(names: seq<string>, i: nat)
    requires i < |names|
    ensures forall n :: n in names[..i + 1] <==> n in names[..i] || n == names[i]
  {
    assert names[..i + 1] == names[..i] + [names[i]];
  }

  method Recognized(c: Config, names: seq<string>) returns (l: seq<Entry>)
    requires forall i, j :: 0 <= i < j < |names| ==> names[i] != names[j]
    ensures DistinctNames(l)
    ensures forall e :: e in l <==> e.name in names && IsEntry(c, e)
  {
    l := [];
    for i := 0 to |names|
      invariant DistinctNames(l)
      invariant forall e :: e in l <==> e.name in names[..i] && IsEntry(c, e)
    {
      OneMoreName(names, i);
      assert forall e :: e in l ==> e.name != names[i];
      l := l + EntriesOf(c, names[i]);
    }
    assert names[..|names|] == names;
  }

  // Some file has this content: the active log, or its successor in slot 1.
  predicate Survives(c: Config, files: Files, content: Content) {
    || (Active(c) in files && files[Active(c)] == content)
    || (NameIn(c, FIRST) in files && files[NameIn(c, FIRST)] == content)
  }

  lemma MoveInSteps(c: Config, files: Files)
    requires ValidConfig(c)
    ensures var moved := Do(files, Rename(Active(c), NameIn(c, FIRST)));
      && |MoveIn(c)| == (if c.compressOld then 2 else 1)
      && DoAll(files, MoveIn(c)[..0]) == files
      && DoAll(files, MoveIn(c)[..1]) == moved
      && DoAll(files, MoveIn(c)) == if c.compressOld then Do(moved, Compress(NameIn(c, FIRST))) else moved
    ensures NameIn(c, FIRST) + GZ == NameIn(c, FIRST_GZ)
    ensures Active(c) != NameIn(c, FIRST) && NameIn(c, FIRST) != NameIn(c, FIRST_GZ) && Active(c) != NameIn(c, FIRST_GZ)
  {
    TargetIsRotated(c, FIRST);
    TargetIsRotated(c, FIRST_GZ);
    CompressedName(c);
    StepDone(files, MoveIn(c), 0);
    assert MoveIn(c)[..|MoveIn(c)|] == MoveIn(c);
    if c.compressOld {
      StepDone(files, MoveIn(c), 1);
    }
  }

  lemma RoomParts(c: Config, l: seq<Entry>)
    requires c.maxFiles >= 1
    ensures |MakeRoom(c, l)| == |l|
  {
    RenamesAt(c, l[Excess(|l|, c.maxFiles)..]);
  }

  lemma OnlyDiffers(a: Files, b: Files, x: string, y: string)
    requires a - {x} == b - {x}
    ensures a - {x, y} == b - {x, y} && a - {y, x} == b - {y, x}
    ensures forall n :: n != x ==> (n in a <==> n in b) && (n in b ==> a[n] == b[n])
  {
    forall n | n != x
      ensures (n in a <==> n in b) && (n in b ==> a[n] == b[n])
    {
      assert n in a - {x} <==> n in a;
      assert n in b - {x} <==> n in b;
    }
  }

  function FirstFiles(c: Config): set<string> {
    {NameIn(c, FIRST), NameIn(c, FIRST_GZ)}
  }

  lemma Begun(a: seq<Step>, b: seq<Step>, k: nat)
    requires k <= |a|
    ensures (a + b)[..k] == a[..k] && a[..|a|] == a
  {
  }

  lemma Continued(files: Files, a: seq<Step>, b: seq<Step>, k: nat)
    requires k <= |b|
    ensures DoAll(files, (a + b)[..|a| + k]) == DoAll(DoAll(files, a), b[..k])
  {
    assert (a + b)[..|a| + k] == a + b[..k];
    DoAllAppend(files, a, b[..k]);
  }

  lemma PlanContinued(c: Config, files: Files, l: seq<Entry>, k: nat)
    requires c.maxFiles >= 1 && k <= |MoveIn(c)|
    ensures |Plan(c, l)| == |l| + |MoveIn(c)|
    ensures DoAll(files, Plan(c, l)[..|l| + k]) == DoAll(Room(c, files, l), MoveIn(c)[..k])
    ensures DoAll(files, Plan(c, l)) == DoAll(Room(c, files, l), MoveIn(c))
  {
    RoomParts(c, l);
    Continued(files, MakeRoom(c, l), MoveIn(c), k);
    DoAllAppend(files, MakeRoom(c, l), MoveIn(c));
  }

  // However far making room has got, the active log is where it was.
  lemma PartialRoom(c: Config, files: Files, l: seq<Entry>, k: nat)
    requires ValidConfig(c) && IsListing(c, files, l) && k <= |l|
    ensures |MakeRoom(c, l)| == |l| && Plan(c, l)[..k] == MakeRoom(c, l)[..k]
    ensures k == |l| ==> MakeRoom(c, l)[..k] == MakeRoom(c, l)
    ensures var files' := DoAll(files, MakeRoom(c, l)[..k]);
      (Active(c) in files' <==> Active(c) in files) && (Active(c) in files ==> files'[Active(c)] == files[Active(c)])
  {
    MakeRoomSteps(c, l);
    RoomFrame(c, files, MakeRoom(c, l)[..k], Active(c));
  }

  lemma StepDone(files: Files, steps: seq<Step>, k: nat)
    requires k < |steps|
    ensures DoAll(files, steps[..k + 1]) == Do(DoAll(files, steps[..k]), steps[k])
  {
    assert steps[..k + 1] == steps[..k] + [steps[k]];
    DoAllAppend(files, steps[..k], [steps[k]]);
    assert [steps[k]][1..] == [];
  }

  lemma StepPossible(files: Files, steps: seq<Step>, k: nat)
    requires k < |steps|
    ensures AllPossible(files, steps) ==> Possible(DoAll(files, steps[..k]), steps[k])
  {
    if AllPossible(files, steps) {
      PossibleAt(files, steps, k);
    }
  }

  lemma {:induction false} RenamesAt(c: Config, l: seq<Entry>)
    ensures |Renames(c, l)| == |l|
    ensures forall k :: 0 <= k < |l| ==>
      Renames(c, l)[k] == Rename(l[|l| - 1 - k].name, NameIn(c, Up(l[|l| - 1 - k].slot)))
    decreases |l|
  {
    if l != [] {
      RenamesAt(c, l[..|l| - 1]);
    }
  }
}
