/** Log cleanup: oldest files first until there is enough free space, then every file past retention.

    Both passes work on one listing made at the start. Free space and the clock are inputs.
  */
module LogCleanup {
  import opened Common
  import opened Sorting
  import LogNames

  datatype File = File(name: string, size: nat, modTime: int)

  // What a directory knows about each file in it.
  datatype Info = Info(size: nat, modTime: int)

  type Disk = map<string, Info>

  const LOG := ".log"
  const MIDDLE := ".log."

  predicate IsLog(name: string) {
    HasSuffix(name, LOG) || Includes(name, MIDDLE)
  }

  // Files that the disk pass may remove; the others count as active logs.
  predicate Eligible(f: File) {
    Includes(f.name, MIDDLE) || HasSuffix(f.name, LogNames.GZ)
  }

  predicate Old(cutoff: int, f: File) {
    f.modTime < cutoff
  }

  // ---------------------------------------------------------------- listings

  const BY_AGE := (a: File, b: File) => a.modTime <= b.modTime
  const FILE_NAME := (f: File) => f.name

  predicate OldestFirst(l: seq<File>) {
    forall i, j :: 0 <= i < j < |l| ==> l[i].modTime <= l[j].modTime
  }

  predicate DistinctNames(l: seq<File>) {
    forall i, j :: 0 <= i < j < |l| ==> l[i].name != l[j].name
  }

  predicate InDisk(disk: Disk, f: File) {
    f.name in disk && disk[f.name] == Info(f.size, f.modTime)
  }

  ghost predicate IsListing(disk: Disk, l: seq<File>) {
    OldestFirst(l) && DistinctNames(l) && forall f :: f in l <==> InDisk(disk, f) && IsLog(f.name)
  }

  lemma FilesSorted(l: seq<File>)
    requires DistinctNames(l)
    ensures var s := Sort(BY_AGE, l);
      OldestFirst(s) && DistinctNames(s) && forall f :: f in l <==> f in s
  {
    SortSorts(BY_AGE, l);
    SameMembers(FILE_NAME, l, Sort(BY_AGE, l));
    var s := Sort(BY_AGE, l);
    forall i, j | 0 <= i < j < |s|
      ensures s[i].modTime <= s[j].modTime && s[i].name != s[j].name
    {
      assert BY_AGE(s[i], s[j]) && FILE_NAME(s[i]) != FILE_NAME(s[j]);
    }
  }

  // ---------------------------------------------------------------- what each pass removes

  function Total(l: seq<File>): nat {
    if l == [] then 0 else Total(l[..|l| - 1]) + l[|l| - 1].size
  }

  function Filter(keep: File -> bool, l: seq<File>): seq<File> {
    if l == [] then [] else (if keep(l[0]) then [l[0]] else []) + Filter(keep, l[1..])
  }

  function Candidates(l: seq<File>): seq<File> {
    Filter(f => Eligible(f), l)
  }

  function Expired(cutoff: int, l: seq<File>): seq<File> {
    Filter(f => Old(cutoff, f), l)
  }

  // The loop of the disk pass: what it removes when `freed` bytes have been counted already.
  function Reclaimed(l: seq<File>, needed: int, freed: nat): seq<File>
    decreases |l|
  {
    if l == [] || freed >= needed then []
    else if !Eligible(l[0]) then Reclaimed(l[1..], needed, freed)
    else [l[0]] + Reclaimed(l[1..], needed, freed + l[0].size)
  }

  lemma {:induction false} TotalCons(x: File, l: seq<File>)
    ensures Total([x] + l) == x.size + Total(l)
    decreases |l|
  {
    if l == [] {
      assert [x] + l == [x] && [x][..0] == [];
    } else {
      assert ([x] + l)[..|l|] == [x] + l[..|l| - 1];
      TotalCons(x, l[..|l| - 1]);
    }
  }

  // The disk pass removes a prefix of the candidates, oldest first, that is just long enough: all
  // of them if even that is not enough, and never one that was not needed.
  lemma {:induction false} ReclaimedIsLeast(l: seq<File>, needed: int, freed: nat)
    ensures Reclaimed(l, needed, freed) <= Candidates(l)
    ensures freed + Total(Reclaimed(l, needed, freed)) >= needed || Reclaimed(l, needed, freed) == Candidates(l)
    ensures forall k :: 0 <= k < |Reclaimed(l, needed, freed)| ==>
      freed + Total(Reclaimed(l, needed, freed)[..k]) < needed
    decreases |l|
  {
    if l != [] && freed < needed {
      if !Eligible(l[0]) {
        ReclaimedIsLeast(l[1..], needed, freed);
      } else {
        var rest := Reclaimed(l[1..], needed, freed + l[0].size);
        ReclaimedIsLeast(l[1..], needed, freed + l[0].size);
        TotalCons(l[0], rest);
        forall k | 0 <= k < |[l[0]] + rest|
          ensures freed + Total(([l[0]] + rest)[..k]) < needed
        {
          if k > 0 {
            assert ([l[0]] + rest)[..k] == [l[0]] + rest[..k - 1];
            TotalCons(l[0], rest[..k - 1]);
          }
        }
      }
    }
  }

  // ---------------------------------------------------------------- removing files

  // With archiving, a file is compressed to its own name plus ".gz", which is then removed too.
  function Touched(archive: bool, name: string): set<string> {
    if archive && !HasSuffix(name, LogNames.GZ) then {name, name + LogNames.GZ} else {name}
  }

  // Removing the files of a list in turn, stopping at the first that is not there.
  function RemoveAll(archive: bool, disk: Disk, l: seq<File>): (Disk, bool)
    decreases |l|
  {
    if l == [] then (disk, true)
    else if l[0].name !in disk then (disk, false)
    else RemoveAll(archive, disk - Touched(archive, l[0].name), l[1..])
  }

  predicate Spared(archive: bool, l: seq<File>, k: nat)
    requires k < |l|
  {
    forall j :: 0 <= j < k ==> l[k].name !in Touched(archive, l[j].name)
  }

  // Removal succeeds exactly if every file is there and none falls to the removal of an earlier one.
  lemma {:induction false} RemoveAllSucceedsIff(archive: bool, disk: Disk, l: seq<File>)
    ensures RemoveAll(archive, disk, l).1 <==> forall k :: 0 <= k < |l| ==> l[k].name in disk && Spared(archive, l, k)
    decreases |l|
  {
    if l != [] && l[0].name in disk {
      var disk' := disk - Touched(archive, l[0].name);
      RemoveAllSucceedsIff(archive, disk', l[1..]);
      forall k | 0 <= k < |l| - 1
        ensures l[k + 1].name in disk && Spared(archive, l, k + 1) <==>
          l[1..][k].name in disk' && Spared(archive, l[1..], k)
      {
        SparedTail(archive, l, k);
      }
      assert Spared(archive, l, 0);
      assert forall k :: 1 <= k < |l| ==> l[k] == l[1..][k - 1];
      assert forall k :: 1 <= k < |l| ==> (l[k].name in disk && Spared(archive, l, k) <==>
        l[1..][k - 1].name in disk' && Spared(archive, l[1..], k - 1));
    }
  }

  lemma SparedTail(archive: bool, l: seq<File>, k: nat)
    requires k + 1 < |l|
    ensures Spared(archive, l, k + 1) <==> Spared(archive, l[1..], k) && l[k + 1].name !in Touched(archive, l[0].name)
  {
    if Spared(archive, l[1..], k) && l[k + 1].name !in Touched(archive, l[0].name) {
      forall j | 0 <= j < k + 1
        ensures l[k + 1].name !in Touched(archive, l[j].name)
      {
        assert j > 0 ==> l[j] == l[1..][j - 1];
      }
    }
  }

  function Names(l: seq<File>): set<string> {
    set f | f in l :: f.name
  }

  lemma {:induction false} RemovedExactly(disk: Disk, l: seq<File>)
    requires RemoveAll(false, disk, l).1
    ensures RemoveAll(false, disk, l).0 == disk - Names(l)
    decreases |l|
  {
    if l == [] {
      assert Names(l) == {};
    } else {
      RemovedExactly(disk - {l[0].name}, l[1..]);
      assert l == [l[0]] + l[1..];
      assert Names(l) == {l[0].name} + Names(l[1..]);
    }
  }

  // Everything that falls to the removal of the files of a list.
  function AllTouched(archive: bool, l: seq<File>): set<string> {
    if l == [] then {} else Touched(archive, l[0].name) + AllTouched(archive, l[1..])
  }

  // What a removal that succeeds leaves, with or without archiving: a file goes if it is in the list,
  // or if it has the name of the archive of one that is.
  lemma {:induction false} RemovedIff(archive: bool, disk: Disk, l: seq<File>, name: string)
    requires RemoveAll(archive, disk, l).1
    ensures var after := RemoveAll(archive, disk, l).0;
      && (name in after <==>
           name in disk && forall f :: f in l ==>
             name != f.name && !(archive && !HasSuffix(f.name, LogNames.GZ) && name == f.name + LogNames.GZ))
      && (name in after ==> after[name] == disk[name])
    decreases |l|
  {
    if l != [] {
      RemovedIff(archive, disk - Touched(archive, l[0].name), l[1..], name);
      assert l == [l[0]] + l[1..];
    }
  }

  // ---------------------------------------------------------------- two passes over one listing

  lemma {:induction false} FilterMembers(keep: File -> bool, l: seq<File>)
    ensures forall f :: f in Filter(keep, l) <==> f in l && keep(f)
    decreases |l|
  {
    if l != [] {
      FilterMembers(keep, l[1..]);
      assert l == [l[0]] + l[1..];
    }
  }

  lemma {:induction false} FilterOrder(keep: File -> bool, l: seq<File>)
    requires OldestFirst(l) && DistinctNames(l)
    ensures OldestFirst(Filter(keep, l)) && DistinctNames(Filter(keep, l))
    decreases |l|
  {
    if l != [] {
      var rest := Filter(keep, l[1..]);
      FilterOrder(keep, l[1..]);
      FilterMembers(keep, l[1..]);
      forall k | 0 <= k < |rest|
        ensures l[0].modTime <= rest[k].modTime && l[0].name != rest[k].name
      {
        assert rest[k] in l[1..];
      }
      assert Filter(keep, l) == if keep(l[0]) then [l[0]] + rest else rest;
    }
  }

  lemma UniqueByName(l: seq<File>, a: File, b: File)
    requires DistinctNames(l) && a in l && b in l && a.name == b.name
    ensures a == b
  {
  }

  lemma DiskPassSucceeds(disk: Disk, l: seq<File>, d: seq<File>)
    requires IsListing(disk, l) && d <= Candidates(l)
    ensures RemoveAll(false, disk, d) == (disk - Names(d), true)
    ensures forall f :: f in d ==> f in l
  {
    FilterMembers(f => Eligible(f), l);
    FilterOrder(f => Eligible(f), l);
    forall k | 0 <= k < |d|
      ensures d[k].name in disk && Spared(false, d, k) && d[k] in l
    {
      assert d[k] == Candidates(l)[k] && d[k] in Candidates(l);
      assert InDisk(disk, d[k]);
    }
    RemoveAllSucceedsIff(false, disk, d);
    RemovedExactly(disk, d);
  }

  lemma StillThereIff(disk: Disk, l: seq<File>, d: seq<File>, f: File)
    requires IsListing(disk, l) && (forall g :: g in d ==> g in l) && f in l
    ensures f.name in disk - Names(d) <==> f !in d
  {
    assert InDisk(disk, f);
    forall g | g in d && g.name == f.name
      ensures g == f
    {
      UniqueByName(l, f, g);
    }
  }

  // The files of the disk pass can all be removed, and the age pass then succeeds exactly if it
  // comes across none of them.
  lemma TwoPassesSucceedIff(disk: Disk, l: seq<File>, d: seq<File>, cutoff: int)
    requires IsListing(disk, l) && d <= Candidates(l)
    ensures RemoveAll(false, disk, d) == (disk - Names(d), true)
    ensures RemoveAll(false, disk - Names(d), Expired(cutoff, l)).1 <==> forall f :: f in d ==> !Old(cutoff, f)
  {
    var a := Expired(cutoff, l);
    DiskPassSucceeds(disk, l, d);
    FilterMembers(f => Old(cutoff, f), l);
    FilterOrder(f => Old(cutoff, f), l);
    RemoveAllSucceedsIff(false, disk - Names(d), a);
    forall k | 0 <= k < |a|
      ensures Spared(false, a, k) && (a[k].name in disk - Names(d) <==> a[k] !in d)
    {
      assert a[k] in a;
      StillThereIff(disk, l, d, a[k]);
    }
    assert forall f :: f in d && Old(cutoff, f) ==> f in a;
  }

  // In other words: the two passes fail exactly if the oldest file that the disk pass removed was
  // past retention.
  lemma TwoPassesFailIff(disk: Disk, l: seq<File>, d: seq<File>, cutoff: int)
    requires IsListing(disk, l) && d <= Candidates(l)
    ensures !RemoveAll(false, disk - Names(d), Expired(cutoff, l)).1 <==> d != [] && Old(cutoff, d[0])
  {
    TwoPassesSucceedIff(disk, l, d, cutoff);
    FilterOrder(f => Eligible(f), l);
    forall f | f in d
      ensures d[0].modTime <= f.modTime
    {
      var k :| 0 <= k < |d| && d[k] == f;
      assert Candidates(l)[0].modTime <= Candidates(l)[k].modTime;
    }
  }

  // When it fails, the age pass has got no further than active logs: among the other files it
  // removes none.
  lemma {:induction false} FailureStopsAtOnce(disk: Disk, l: seq<File>, cutoff: int)
    requires Candidates(l) != [] && Candidates(l)[0].name !in disk && Old(cutoff, Candidates(l)[0])
    requires DistinctNames(l)
    ensures !RemoveAll(false, disk, Expired(cutoff, l)).1
    ensures RemoveAll(false, disk, Expired(cutoff, l)).0.Keys <= disk.Keys
    ensures forall f :: f in l && Eligible(f) && f.name in disk ==>
      f.name in RemoveAll(false, disk, Expired(cutoff, l)).0
    decreases |l|
  {
    var x, rest := l[0], l[1..];
    assert l == [x] + rest;
    if !Eligible(x) {
      assert Candidates(l) == Candidates(rest);
      if !Old(cutoff, x) {
        assert Expired(cutoff, l) == Expired(cutoff, rest);
        FailureStopsAtOnce(disk, rest, cutoff);
      } else if x.name in disk {
        assert Expired(cutoff, l)[0] == x && Expired(cutoff, l)[1..] == Expired(cutoff, rest);
        FailureStopsAtOnce(disk - {x.name}, rest, cutoff);
        forall f | f in l && Eligible(f) && f.name in disk
          ensures f.name != x.name
        {
          assert f in rest;
        }
      }
    } else {
      assert Candidates(l)[0] == x && Expired(cutoff, l)[0] == x;
    }
  }

  // ---------------------------------------------------------------- which rotated files the disk pass can remove

  lemma OccursAfter(s: string, t: string, sub: string, i: nat)
    requires OccursAt(s, sub, i)
    ensures OccursAt(s + t, sub, i)
  {
    assert (s + t)[i..i + |sub|] == s[i..i + |sub|];
  }

  lemma StemIncluded(stem: string, rest: string)
    requires Includes(stem, MIDDLE)
    ensures Includes(stem + rest, MIDDLE)
  {
    var i :| 0 <= i <= |stem| && OccursAt(stem, MIDDLE, i);
    OccursAfter(stem, rest, MIDDLE, i);
  }

  lemma RotatedIncludes(stem: string, digits: string, gz: bool)
    requires LogNames.IsNumeral(digits)
    ensures Includes(stem, MIDDLE) ==> Includes(stem + digits + LOG + LogNames.Tail(gz), MIDDLE)
    ensures !gz && Includes(stem + digits + LOG + LogNames.Tail(gz), MIDDLE) ==> Includes(stem, MIDDLE)
  {
    var name := stem + digits + LOG + LogNames.Tail(gz);
    Regroup(stem, digits, LOG, LogNames.Tail(gz));
    if Includes(stem, MIDDLE) {
      StemIncluded(stem, digits + LOG + LogNames.Tail(gz));
    } else if !gz && Includes(name, MIDDLE) {
      var i :| 0 <= i <= |name| && OccursAt(name, MIDDLE, i);
      NoOtherOccurrence(stem, digits, i);
    }
  }

  // Uncompressed rotated files of a ".log" log are out of reach of the disk pass, unless the name of
  // the log itself contains ".log.".
  lemma RotatedEligibleIff(base: string, slot: LogNames.Slot, size: nat, modTime: int)
    ensures Eligible(File(LogNames.Name(base, LOG, slot), size, modTime)) <==> slot.gz || Includes(base + ".", MIDDLE)
  {
    var digits := LogNames.Itoa(slot.number);
    LogNames.ItoaValue(slot.number);
    LogNames.NumeralCompression(base + ".", LOG, digits, slot.gz);
    RotatedIncludes(base + ".", digits, slot.gz);
  }

  // The second dot of an occurrence is either inside the stem, or the dot of the extension; before
  // the latter stands a digit.
  lemma NoOtherOccurrence(stem: string, digits: string, i: nat)
    requires LogNames.IsNumeral(digits) && OccursAt(stem + digits + LOG + LogNames.Tail(false), MIDDLE, i)
    ensures Includes(stem, MIDDLE)
  {
    var name := stem + digits + LOG + LogNames.Tail(false);
    assert name == stem + digits + LOG;
    var last := i + 4;
    assert name[last] == name[i..i + 5][4] == '.';
    assert name[last - 1] == name[i..i + 5][3] == 'g';
    assert last < |stem|;
    assert stem[i..i + 5] == name[i..i + 5];
    assert OccursAt(stem, MIDDLE, i);
  }

  // ---------------------------------------------------------------- the object

  datatype Config = Config(enabled: bool, retentionDays: int, minFreeMB: int, archive: bool)

  function BothPasses(config: Config, disk: Disk, l: seq<File>, removed: seq<File>, now: int): (Disk, bool) {
    var (disk', ok) := RemoveAll(config.archive, disk, removed);
    if ok && config.retentionDays > 0
    then RemoveAll(config.archive, disk', Expired(now - config.retentionDays * DAY, l)) else (disk', ok)
  }

  // What is gone after a cleanup that succeeds: with archiving, besides the files that were removed or
  // had expired, every file with the name of the archive of one of them.
  lemma GoneIff(config: Config, disk: Disk, l: seq<File>, removed: seq<File>, now: int, name: string)
    requires BothPasses(config, disk, l, removed, now).1
    ensures name in BothPasses(config, disk, l, removed, now).0 <==>
      name in disk && forall f :: GoesIn(config, l, removed, now, f) ==>
        name != f.name && !(config.archive && !HasSuffix(f.name, LogNames.GZ) && name == f.name + LogNames.GZ)
  {
    RemovedIff(config.archive, disk, removed, name);
    if config.retentionDays > 0 {
      var cutoff := now - config.retentionDays * DAY;
      FilterMembers(f => Old(cutoff, f), l);
      RemovedIff(config.archive, RemoveAll(config.archive, disk, removed).0, Expired(cutoff, l), name);
    }
  }

  predicate GoesIn(config: Config, l: seq<File>, removed: seq<File>, now: int, f: File) {
    f in removed || (config.retentionDays > 0 && f in l && f.modTime < now - config.retentionDays * DAY)
  }

  const MB := 1024 * 1024
  const DAY := 24 * 3600 * 1_000_000_000

  class Cleaner {
    const config: Config
    // On a reliable disk an operation on a file fails only if the file is not there.
    const reliable: bool
    var disk: Disk

    constructor (config: Config, reliable: bool, disk: Disk)
      ensures this.config == config && this.reliable == reliable && this.disk == disk
    {
      this.config, this.reliable, this.disk := config, reliable, disk;
    }

    method GetLogFiles(readable: bool) returns (ok: bool, l: seq<File>)
      ensures ok == readable
      ensures ok ==> IsListing(disk, l)
      ensures ok ==> forall f :: f in l <==>
        f.name in disk && disk[f.name] == Info(f.size, f.modTime)
        && (HasSuffix(f.name, ".log") || Includes(f.name, ".log."))
    {
      ok, l := readable, [];
      var rest := disk.Keys;
      while rest != {}
        invariant rest <= disk.Keys && DistinctNames(l)
        invariant forall f :: f in l <==> InDisk(disk, f) && IsLog(f.name) && f.name !in rest
      {
        var n :| n in rest;
        rest := rest - {n};
        if IsLog(n) {
          l := l + [File(n, disk[n].size, disk[n].modTime)];
        }
      }
      FilesSorted(l);
      l := Sort(BY_AGE, l);
    }

    method RemoveLogFile(name: string) returns (ok: bool)
      modifies this
      ensures ok ==> name in old(disk) && disk == old(disk) - Touched(config.archive, name)
      ensures ok ==>
        disk == old(disk) - {name} - if config.archive && !HasSuffix(name, ".gz") then {name + ".gz"} else {}
      ensures !ok ==> disk - Touched(config.archive, name) == old(disk) - Touched(config.archive, name)
      ensures reliable ==> (ok <==> name in old(disk)) && (!ok ==> disk == old(disk))
    {
      if config.archive && !HasSuffix(name, LogNames.GZ) {
        ok := ArchiveFile(name);
        if ok {
          ok := RemoveFile(name + LogNames.GZ);
        }
      } else {
        ok := RemoveFile(name);
      }
    }

    method RemoveFile(name: string) returns (ok: bool)
      modifies this
      ensures ok ==> name in old(disk)
      ensures disk == if ok then old(disk) - {name} else old(disk)
      ensures reliable ==> (ok <==> name in old(disk))
    {
      var refused: bool := *;
      ok := name in disk && (reliable || !refused);
      if ok {
        disk := disk - {name};
      }
    }

    // Writes the archive over whatever has its name, then removes the original.
    method ArchiveFile(name: string) returns (ok: bool)
      modifies this
      ensures ok ==> name in old(disk) && name + LogNames.GZ in disk
      ensures ok ==> disk - {name + LogNames.GZ} == old(disk) - {name, name + LogNames.GZ}
      ensures !ok ==> disk - {name, name + LogNames.GZ} == old(disk) - {name, name + LogNames.GZ}
      ensures reliable ==> (ok <==> name in old(disk)) && (!ok ==> disk == old(disk))
    {
      ok := false;
      var opens: bool, written: bool, removable: bool, info: Info := *, *, *, *;
      if name in disk && (reliable || opens) {
        disk := disk[name + LogNames.GZ := info];
        if reliable || written {
          if reliable || removable {
            disk := disk - {name};
            ok := true;
          }
        } else if removable {
          disk := disk - {name + LogNames.GZ};
        }
      }
    }

    // On an error the pass stops; with a reliable disk its effect is known in that case too.
    method CleanupByAge(l: seq<File>, now: int) returns (ok: bool)
      modifies this
      ensures ok || reliable ==>
        (disk, ok) == RemoveAll(config.archive, old(disk), Expired(now - config.retentionDays * DAY, l))
    {
      var cutoff := now - config.retentionDays * DAY;
      ok := true;
      var i := 0;
      ghost var left := Expired(cutoff, l);
      while i < |l| && ok
        invariant i <= |l|
        invariant ok ==> left == Expired(cutoff, l[i..])
        invariant ok ==>
          RemoveAll(config.archive, old(disk), Expired(cutoff, l)) == RemoveAll(config.archive, disk, left)
        invariant !ok && reliable ==> (disk, false) == RemoveAll(config.archive, old(disk), Expired(cutoff, l))
        decreases |l| - i
      {
        assert l[i..][0] == l[i] && l[i..][1..] == l[i + 1..];
        if l[i].modTime < cutoff {
          ok := RemoveLogFile(l[i].name);
          left := left[1..];
        }
        i := i + 1;
      }
    }

    // `available` is the free space in bytes, if it can be read at all.
    method CleanupByDiskSpace(l: seq<File>, available: Option<int>) returns (ok: bool, removed: seq<File>)
      modifies this
      ensures available.None? ==> !ok && removed == [] && disk == old(disk)
      ensures available.Some? && (ok || reliable) ==>
        && removed == Reclaimed(l, config.minFreeMB * MB - available.value, 0)
        && (disk, ok) == RemoveAll(config.archive, old(disk), removed)
    {
      ok, removed := available.Some?, [];
      if available.Some? && available.value < config.minFreeMB * MB {
        var needed := config.minFreeMB * MB - available.value;
        removed := Reclaimed(l, needed, 0);
        ghost var left := removed;
        var i, freed := 0, 0;
        while i < |l| && freed < needed && ok
          invariant i <= |l| && freed >= 0
          invariant ok ==> left == Reclaimed(l[i..], needed, freed)
          invariant ok ==> RemoveAll(config.archive, old(disk), removed) == RemoveAll(config.archive, disk, left)
          invariant !ok && reliable ==> (disk, false) == RemoveAll(config.archive, old(disk), removed)
          decreases |l| - i
        {
          assert l[i..][0] == l[i] && l[i..][1..] == l[i + 1..];
          if Eligible(l[i]) {
            freed := freed + l[i].size;
            ok := RemoveLogFile(l[i].name);
            left := left[1..];
          }
          i := i + 1;
        }
      }
    }

    // Both passes. `l` is the listing that they share and `removed` what the disk pass removed.
    method CleanupOldLogs(present: bool, readable: bool, available: Option<int>, now: int)
      returns (ok: bool, l: seq<File>, removed: seq<File>)
      modifies this
      ensures !config.enabled || !present ==> ok && disk == old(disk)
      ensures config.enabled && present && !readable ==> !ok && disk == old(disk)
      ensures config.enabled && present && config.minFreeMB > 0 && available.None? ==> !ok && disk == old(disk)
      // With or without archiving: both passes over one listing, the second only after the first.
      ensures config.enabled && present && readable && reliable && available.Some? ==>
        && IsListing(old(disk), l)
        && removed == (if config.minFreeMB > 0 then Reclaimed(l, config.minFreeMB * MB - available.value, 0) else [])
        && (disk, ok) == BothPasses(config, old(disk), l, removed, now)
      ensures config.enabled && present && readable && reliable && !config.archive && available.Some? ==>
        var cutoff := now - config.retentionDays * DAY;
        && IsListing(old(disk), l)
        && removed == (if config.minFreeMB > 0 then Reclaimed(l, config.minFreeMB * MB - available.value, 0) else [])
        && (ok <==> config.retentionDays <= 0 || removed == [] || !Old(cutoff, removed[0]))
        && (ok ==>
          disk == old(disk) - Names(removed) - if config.retentionDays > 0 then Names(Expired(cutoff, l)) else {})
        && (!ok ==> forall f :: f in l && Eligible(f) && f !in removed ==> f.name in disk)
    {
      ok, l, removed := true, [], [];
      if config.enabled && present {
        ok, l := GetLogFiles(readable);
        if ok && config.minFreeMB > 0 {
          ok, removed := CleanupByDiskSpace(l, available);
        }
        if ok && config.retentionDays > 0 {
          ok := CleanupByAge(l, now);
        }
        if readable && available.Some? && reliable && !config.archive {
          ReclaimedIsLeast(l, config.minFreeMB * MB - available.value, 0);
          PassesMean(config, old(disk), l, removed, now);
        }
      }
    }
  }

  // With archiving off.
  lemma PassesMean(config: Config, disk: Disk, l: seq<File>, removed: seq<File>, now: int)
    requires IsListing(disk, l) && removed <= Candidates(l) && !config.archive
    ensures
      var (disk', ok) := BothPasses(config, disk, l, removed, now);
      var cutoff := now - config.retentionDays * DAY;
      && (ok <==> config.retentionDays <= 0 || removed == [] || !Old(cutoff, removed[0]))
      && (ok ==>
        disk' == disk - Names(removed) - if config.retentionDays > 0 then Names(Expired(cutoff, l)) else {})
      && (!ok ==> forall f :: f in l && Eligible(f) && f !in removed ==> f.name in disk')
  {
    PassesOf(disk, l, removed, now - config.retentionDays * DAY);
    assert disk - Names(removed) - {} == disk - Names(removed);
  }

  lemma PassesOf(disk: Disk, l: seq<File>, d: seq<File>, cutoff: int)
    requires IsListing(disk, l) && d <= Candidates(l)
    ensures RemoveAll(false, disk, d) == (disk - Names(d), true)
    ensures RemoveAll(false, disk - Names(d), Expired(cutoff, l)).1 <==> d == [] || !Old(cutoff, d[0])
    ensures RemoveAll(false, disk - Names(d), Expired(cutoff, l)).1 ==>
      RemoveAll(false, disk - Names(d), Expired(cutoff, l)).0 == disk - Names(d) - Names(Expired(cutoff, l))
    ensures d != [] && Old(cutoff, d[0]) ==>
      forall f :: f in l && Eligible(f) && f !in d ==> f.name in RemoveAll(false, disk - Names(d), Expired(cutoff, l)).0
  {
    DiskPassSucceeds(disk, l, d);
    TwoPassesFailIff(disk, l, d, cutoff);
    if d != [] && Old(cutoff, d[0]) {
      assert Candidates(l)[0] == d[0] && d[0] in d && d[0].name in Names(d);
      FailureStopsAtOnce(disk - Names(d), l, cutoff);
      forall f | f in l && Eligible(f) && f !in d
        ensures f.name in disk - Names(d)
      {
        StillThereIff(disk, l, d, f);
      }
    } else {
      RemovedExactly(disk - Names(d), Expired(cutoff, l));
    }
  }
}
