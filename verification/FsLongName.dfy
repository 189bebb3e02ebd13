/** A run from mkfs after which a name of full length destroys the entry behind it. */
module FsLongName {
  import opened ProcTable
  import opened Records
  import opened Directory
  import opened FsModel
  import opened FsInvariant
  import opened FsRefs
  import opened FsRun
  import opened FsNames

  const A: seq<bv8> := [0x61]
  const B: seq<bv8> := [0x62]
  const LONG: seq<bv8> := [0x78, 0x78, 0x78, 0x78, 0x78, 0x78, 0x78, 0x78, 0x78, 0x78, 0x78, 0x78]

  /** A file name that is not one of mkfs's. */
  ghost predicate NewName(path: seq<bv8>) {
    EntryPath(path) && |path| < MAX_PATH_LEN && NamePart(path)[0] !in {0x2e, 0x63, 0x64}
  }

  lemma OurNames()
    ensures NewName(A) && NewName(B) && NewName(LONG)
    ensures NamePart(A) == A && NamePart(B) == B && NamePart(LONG) == LONG
  {
  }

  lemma InitialInv(s: State)
    requires Initial(s)
    ensures Inv(s)
  {
    hide DiskOk, RefsOk;
    InitialDisk(s);
    InitialRefs(s);
    InitialShaped(s);
  }

  lemma NotThereYet(s: State, path: seq<bv8>)
    requires Initial(s) && NewName(path)
    ensures Shaped(s.fs) && Search(s.fs, path) == 0
  {
    hide DiskOk, RefsOk, Search;
    InitialInv(s);
    if Search(s.fs, path) != 0 {
      var e := SearchByEntry(s.fs, s.owner, path);
      FiveEntries(s);
      assert FixedName(e)[0] == Padded(NamePart(path))[0];
      FixedNameBegins(e);
    }
  }

  lemma FiveEntries(s: State)
    requires Initial(s)
    ensures Shaped(s.fs) && Entries(s.fs) == FIXED_ENTRIES && Least(s.fs.view.inodeMap) == FIRST_FILE_INODE
    ensures forall e :: 0 <= e < FIXED_ENTRIES ==> s.fs.view.slots[e] == Dirent(e + 1, FixedName(e))
  {
    hide FixedName;
    assert s.fs.view.inodeMap[FIRST_FILE_INODE] == false;
  }

  lemma FixedNameBegins(e: nat)
    requires e < FIXED_ENTRIES
    ensures FixedName(e)[0] in {0x2e, 0x63, 0x64}
  {
  }

  // ---- one created file ----------------------------------------------------

  /** What a create leaves in the tables. */
  ghost predicate Opened(s: State, s': State, p: Pid, slot: nat, nr: nat)
    requires Shaped(s.fs) && Shaped(s'.fs)
  {
    var fd, d := FirstNull(s.fs.filp[p]), FreeDesc(s.fs.desc);
    && fd < NR_FILES && d < NR_FILE_DESC && slot < NR_INODE
    && s'.fs.filp == s.fs.filp[p := s.fs.filp[p][fd := d]]
    && s'.fs.desc == s.fs.desc[d := FileDesc(true, 0, 1, slot)]
    && s.fs.cache[slot].cnt == 0 && s'.fs.cache[slot].num == nr && s'.fs.cache[slot].cnt == 1
    && forall i :: 0 <= i < NR_INODE && i != slot ==>
         s'.fs.cache[i].num == s.fs.cache[i].num && s'.fs.cache[i].cnt == s.fs.cache[i].cnt
  }

  lemma CreateOpens(s: State, p: Pid, path: seq<bv8>) returns (slot: nat)
    requires var r := DoOpen(p, path, true, true);
             Inv(s) && Allowed(s, r) && Creates(s, r) && !HaltsWhen(s, r)
    ensures var r := DoOpen(p, path, true, true);
            && Serve(s.fs, r).Reply?
            && var s' := Advance(s, r);
               && Inv(s') && s'.pend == s.pend && FreeRun(s.owner) < GRID == |s.owner|
               && s'.owner == Occupy(s.owner, Least(s.fs.view.inodeMap))
               && AddsEntry(s.fs, s'.fs, FirstWith(Prefix(s.fs.view.slots, Entries(s.fs)), 0),
                            Least(s.fs.view.inodeMap), path)
               && Opened(s, s', p, slot, Least(s.fs.view.inodeMap))
  {
    hide DiskOk, RefsOk, Search, CreateFile, FirstWith, NameFits, Connect, Least, FreeRun;
    var r := DoOpen(p, path, true, true);
    StepKeepsInv(s, r);
    OwnerSize(s);
    NonRootPath(s.fs, path);
    CreateAddsEntry(s.fs, s.owner, path);
    ConnectKeepsView(s, r);
    CreateKeepsDisk(s.fs, s.owner, path);
    slot := CreateFile(s.fs, path).slot;
    CreatedTables(s, p, path);
  }

  lemma CreatedTables(s: State, p: Pid, path: seq<bv8>)
    requires Inv(s) && Creates(s, DoOpen(p, path, true, true)) && Serve(s.fs, DoOpen(p, path, true, true)).Reply?
    requires CreateFile(s.fs, path).Created? && FreeRun(s.owner) < GRID
    requires var c := CreateFile(s.fs, path);
             && c.fs.cache[c.slot] ==
                CachedInode(NewInode(s.fs.n1, RunStart(FreeRun(s.owner))), Least(s.fs.view.inodeMap), 1)
             && s.fs.cache[c.slot].cnt == 0
    ensures Opened(s, State(Serve(s.fs, DoOpen(p, path, true, true)).fs, s.owner, s.leaks, s.pend), p,
                   CreateFile(s.fs, path).slot, Least(s.fs.view.inodeMap))
  {
    hide DiskOk, RefsOk, Search, CreateFile, FirstWith, Least, FreeRun, RunStart, NewInode, AddEntry, Fill, Uniform;
    hide Openable;
    var slot := CreateFile(s.fs, path).slot;
    FreeInodeFacts(s.fs, s.owner);
    FreeRunFacts(s.fs, s.owner);
    var t, root := CreateShape(s.fs, s.owner, path);
  }

  // ---- the run -------------------------------------------------------------

  ghost predicate CanServe(s: State, r: Request) {
    Shaped(s.fs) && Allowed(s, r) && Serve(s.fs, r).Reply?
  }

  const FD_A := 0

  /** A exists and is open as p's first file, and nothing else is open. */
  ghost predicate AfterA(s: State, p: Pid, a: nat, slot: nat)
    requires Shaped(s.fs)
  {
    && s.pend == Nobody && |s.owner| == GRID && s.owner[0] == a && (forall t :: 1 <= t < GRID ==> s.owner[t] == 0)
    && Entries(s.fs) == FIXED_ENTRIES + 1 && FIRST_FILE_INODE <= a && slot < NR_INODE
    && (forall e :: 0 <= e <= FIXED_ENTRIES ==> s.fs.view.slots[e].inodeNr != 0)
    && s.fs.view.slots[FIXED_ENTRIES].inodeNr == a
    && Search(s.fs, A) == a && Search(s.fs, B) == 0 && Search(s.fs, LONG) == 0
    && s.fs.filp[p][FD_A] == 0 && (forall fd :: 1 <= fd < NR_FILES ==> s.fs.filp[p][fd] == NULL)
    && s.fs.desc[0].inode == slot && s.fs.desc[1].inode == NULL
    && s.fs.cache[slot].num == a && s.fs.cache[slot].cnt == 1
  }

  lemma StepA(s: State, p: Pid) returns (a: nat, slot: nat)
    requires Initial(s)
    ensures var r := DoOpen(p, A, true, true);
            && Inv(s) && CanServe(s, r) && Shaped(Advance(s, r).fs) && Inv(Advance(s, r))
            && AfterA(Advance(s, r), p, a, slot)
  {
    hide DiskOk, RefsOk, Search, CreateFile, Connect, FirstWith, Least, FixedName, Advance, Open;
    var r := DoOpen(p, A, true, true);
    InitialInv(s);
    OurNames();
    FiveEntries(s);
    NotThereYet(s, A);
    NotThereYet(s, B);
    NotThereYet(s, LONG);
    InitialTables(s, p);
    slot := CreateOpens(s, p, A);
    a := Least(s.fs.view.inodeMap);
    CreatingBindsOneName(s, r, A);
    CreatingBindsOneName(s, r, B);
    CreatingBindsOneName(s, r, LONG);
    assert Advance(s, r).fs == Serve(s.fs, r).fs by { SameModel(s, r); }
    NextHole(s.fs, FIXED_ENTRIES);
  }

  lemma SameModel(s: State, r: Request)
    requires Shaped(s.fs) && Allowed(s, r) && Serve(s.fs, r).Reply?
    ensures Advance(s, r).fs == Serve(s.fs, r).fs
  {
    hide Serve, Allowed, Creates, Fetches, Refused;
  }

  lemma InitialTables(s: State, p: Pid)
    requires Initial(s)
    ensures Shaped(s.fs) && FirstNull(s.fs.filp[p]) == 0 && FreeDesc(s.fs.desc) == 0 && FreeRun(s.owner) == 0
  {
    InitialShaped(s);
    assert s.fs.filp[p][0] == NULL && s.fs.desc[0].inode == NULL && s.owner[0] == 0;
  }

  /** Behind n live entries the new one goes to the end. */
  lemma NextHole(fs: Fs, n: nat)
    requires Shaped(fs) && Entries(fs) == n < ENTRIES_PER_SECT
    requires forall e :: 0 <= e < n ==> fs.view.slots[e].inodeNr != 0
    ensures FirstWith(Prefix(fs.view.slots, n), 0) == n
  {
    var q := Prefix(fs.view.slots, n);
    assert forall i :: 0 <= i < n ==> q[i] == fs.view.slots[i];
  }

  /** B exists behind A. */
  ghost predicate AfterB(s: State, p: Pid, a: nat, slot: nat)
    requires Shaped(s.fs)
  {
    && s.pend == Nobody && |s.owner| == GRID && s.owner[0] == a && FIRST_FILE_INODE <= a && slot < NR_INODE
    && Entries(s.fs) == FIXED_ENTRIES + 2
    && (forall e :: 0 <= e <= FIXED_ENTRIES + 1 ==> s.fs.view.slots[e].inodeNr != 0)
    && s.fs.view.slots[FIXED_ENTRIES].inodeNr == a
    && Search(s.fs, A) == a && Search(s.fs, LONG) == 0
    && s.fs.filp[p][FD_A] == 0 && s.fs.desc[0].inode == slot
    && s.fs.cache[slot].num == a && s.fs.cache[slot].cnt == 1
  }

  lemma StepB(s: State, p: Pid, a: nat, slot: nat)
    requires Shaped(s.fs) && Inv(s) && AfterA(s, p, a, slot)
    ensures var r := DoOpen(p, B, true, true);
            && CanServe(s, r) && Shaped(Advance(s, r).fs) && Inv(Advance(s, r))
            && AfterB(Advance(s, r), p, a, slot)
  {
    hide DiskOk, RefsOk, Search, CreateFile, Connect, FirstWith, Least, Advance, Open;
    var r := DoOpen(p, B, true, true);
    OurNames();
    SecondTables(s, p, a, slot);
    var slotB := CreateOpens(s, p, B);
    CreatingBindsOneName(s, r, A);
    CreatingBindsOneName(s, r, LONG);
    assert Advance(s, r).fs == Serve(s.fs, r).fs by { SameModel(s, r); }
    NextHole(s.fs, FIXED_ENTRIES + 1);
  }

  lemma SecondTables(s: State, p: Pid, a: nat, slot: nat)
    requires Shaped(s.fs) && AfterA(s, p, a, slot)
    ensures FirstNull(s.fs.filp[p]) == 1 && FreeDesc(s.fs.desc) == 1 && FreeRun(s.owner) == 1
  {
    hide Search;
    assert s.fs.filp[p][1] == NULL && s.owner[1] == 0;
  }

  /** A is closed: nothing refers to its inode. */
  ghost predicate AfterClose(s: State, p: Pid, a: nat)
    requires Shaped(s.fs)
  {
    && s.pend == Nobody && |s.owner| == GRID && s.owner[0] == a && FIRST_FILE_INODE <= a
    && Entries(s.fs) == FIXED_ENTRIES + 2
    && (forall e :: 0 <= e <= FIXED_ENTRIES + 1 ==> s.fs.view.slots[e].inodeNr != 0)
    && s.fs.view.slots[FIXED_ENTRIES].inodeNr == a
    && Search(s.fs, A) == a && Search(s.fs, LONG) == 0
    && forall i :: 0 <= i < NR_INODE && s.fs.cache[i].cnt != 0 ==> s.fs.cache[i].num != a
  }

  lemma StepClose(s: State, p: Pid, a: nat, slot: nat)
    requires Shaped(s.fs) && Inv(s) && AfterB(s, p, a, slot)
    ensures var r := DoClose(p, FD_A);
            && CanServe(s, r) && Shaped(Advance(s, r).fs) && Inv(Advance(s, r))
            && AfterClose(Advance(s, r), p, a)
  {
    hide DiskOk, RefsOk, Search, Advance;
    var r := DoClose(p, FD_A);
    StepKeepsInv(s, r);
    assert Advance(s, r).fs == Serve(s.fs, r).fs by { SameModel(s, r); }
    assert Advance(s, r).owner == s.owner && Advance(s, r).pend == s.pend by { OwnerStays(s, r); }
    OtherRequestsKeepNames(s, r, A);
    OtherRequestsKeepNames(s, r, LONG);
    OthersKeepDirectory(s, r);
    OnlyAtSlot(s, slot, a);
  }

  lemma OwnerStays(s: State, r: Request)
    requires Shaped(s.fs) && r.DoClose? && Allowed(s, r) && Serve(s.fs, r).Reply?
    ensures Advance(s, r).owner == s.owner && Advance(s, r).pend == s.pend
  {
    hide Serve;
  }

  lemma OnlyAtSlot(s: State, slot: nat, a: nat)
    requires Inv(s) && slot < NR_INODE && s.fs.cache[slot].num == a && s.fs.cache[slot].cnt != 0
    ensures forall i :: 0 <= i < NR_INODE && i != slot && s.fs.cache[i].cnt != 0 ==> s.fs.cache[i].num != a
  {
  }

  lemma StepUnlink(s: State, p: Pid, a: nat)
    requires Shaped(s.fs) && Inv(s) && AfterClose(s, p, a)
    ensures var r := DoUnlink(p, A);
            && CanServe(s, r) && Shaped(Advance(s, r).fs) && Inv(Advance(s, r))
            && var s' := Advance(s, r);
               && FreeRun(s'.owner) == 0 && |s'.owner| == GRID
               && Search(s'.fs, LONG) == 0 && !NameFits(s'.fs, LONG)
  {
    hide DiskOk, RefsOk, Search, Advance, GetInode, Remove, FirstWith, NameFits;
    var r := DoUnlink(p, A);
    OurNames();
    StepKeepsInv(s, r);
    assert Advance(s, r).fs == Serve(s.fs, r).fs by { SameModel(s, r); }
    SearchFinds(s.fs, s.owner, A);
    FetchOk(s.fs, s.owner, a);
    var f := GetInode(s.fs.cache, s.fs.view.recs, a);
    FreshRegular(s, a, f);
    assert Fetches(s, r) && !Refused(s, r);
    UnlinkingDropsOneName(s, r, LONG);
    Vacated(s, r, a);
    UnlinkedDirectory(s, p, a, f);
  }

  /** The inode of a closed file comes from its record: regular, with one reference. */
  lemma FreshRegular(s: State, a: nat, f: Fetched)
    requires Inv(s) && a in s.owner && FIRST_FILE_INODE <= a
    requires f == GetInode(s.fs.cache, s.fs.view.recs, a) && f.Fetched?
    requires forall i :: 0 <= i < NR_INODE && s.fs.cache[i].cnt != 0 ==> s.fs.cache[i].num != a
    ensures f.cache[f.slot].cnt == 1 && f.cache[f.slot].disk.mode == I_REGULAR && f.cache[f.slot].num == a
  {
    hide RefsOk, MapsOk, DirOk;
    assert CachedAt(s.fs.cache, a) == NR_INODE;
    var t :| 0 <= t < GRID && s.owner[t] == a;
  }

  lemma Vacated(s: State, r: Request, a: nat)
    requires Shaped(s.fs) && r.DoUnlink? && Allowed(s, r) && Serve(s.fs, r).Reply? && Fetches(s, r) && !Refused(s, r)
    requires Search(s.fs, r.path) == a && |s.owner| == GRID && s.owner[0] == a && a != 0
    ensures FreeRun(Advance(s, r).owner) == 0 && |Advance(s, r).owner| == GRID
  {
    hide Serve, Search, GetInode, Refused;
    assert RunOf(s.owner, a) == 0;
    assert Vacate(s.owner, a)[0] == 0;
  }

  /** The hole that A leaves has B's entry behind it. */
  lemma UnlinkedDirectory(s: State, p: Pid, a: nat, f: Fetched)
    requires Shaped(s.fs) && Inv(s) && AfterClose(s, p, a) && f == GetInode(s.fs.cache, s.fs.view.recs, a) && f.Fetched?
    requires f.cache[f.slot].cnt == 1 && f.cache[f.slot].disk.mode == I_REGULAR && f.cache[f.slot].num == a
    requires Unlink(s.fs, A).Reply? && DiskOk(s.fs.(cache := f.cache), s.owner)
    requires f.cache[ROOT_SLOT].disk == s.fs.cache[ROOT_SLOT].disk
    ensures !NameFits(Unlink(s.fs, A).fs, LONG)
  {
    hide DiskOk, RefsOk, Search, GetInode, Remove;
    var fs1 := s.fs.(cache := f.cache);
    RemoveDropsEntry(fs1, s.owner, a, f.slot);
    OnlyEntryOf(fs1, s.owner, a, FIXED_ENTRIES);
    var fs' := Remove(fs1, a, f.slot).fs;
    assert Unlink(s.fs, A).fs == fs';
    assert fs1.view.slots[FIXED_ENTRIES + 1].inodeNr != 0;
    assert Entries(fs') > FIXED_ENTRIES + 1;
    HoleBefore(fs', FIXED_ENTRIES);
  }

  lemma HoleBefore(fs: Fs, e: nat)
    requires Shaped(fs) && e + 1 < Entries(fs) < MAX_ENTRIES && fs.view.slots[e].inodeNr == 0
    requires fs.view.slots[e + 1].inodeNr != 0 && forall i :: 0 <= i < e ==> fs.view.slots[i].inodeNr != 0
    ensures !NameFits(fs, LONG)
  {
    var q := Prefix(fs.view.slots, Entries(fs));
    assert q[e] == fs.view.slots[e] && forall i :: 0 <= i < e ==> q[i] == fs.view.slots[i];
    assert FirstWith(q, 0) == e;
  }

  /** From mkfs: create A, create B, close A, unlink A.  Creating a file with a name of 12 bytes then
      takes A's slot and leaves a disk that is not consistent. */
  lemma LongNameAfterUnlink(s: State, p: Pid) returns (requests: seq<Request>, s': State)
    requires Initial(s)
    ensures Run(s, requests, s') && Shaped(s'.fs) && CreateFile(s'.fs, LONG).Created?
    ensures !exists owner :: DiskOk(CreateFile(s'.fs, LONG).fs, owner)
  {
    hide Initial, Inv, Allowed, Serve, Advance, AfterA, AfterB, AfterClose, NameFits, DiskOk, CreateFile, Search, Run;
    var r1, r2 := DoOpen(p, A, true, true), DoOpen(p, B, true, true);
    var r3, r4 := DoClose(p, FD_A), DoUnlink(p, A);
    var a, slot := StepA(s, p);
    var s1 := Advance(s, r1);
    StepB(s1, p, a, slot);
    var s2 := Advance(s1, r2);
    StepClose(s2, p, a, slot);
    var s3 := Advance(s2, r3);
    StepUnlink(s3, p, a);
    s' := Advance(s3, r4);
    requests := [r1, r2, r3, r4];
    FourRequests(s, requests);
    OurNames();
    InvMeansDisk(s');
    CreateConsistentExactly(s'.fs, s'.owner, LONG);
  }

  lemma InvMeansDisk(s: State)
    requires Inv(s)
    ensures Shaped(s.fs) && DiskOk(s.fs, s.owner)
  {
  }

  lemma FourRequests(s: State, rs: seq<Request>)
    requires |rs| == 4 && CanServe(s, rs[0]) && CanServe(Advance(s, rs[0]), rs[1])
    requires CanServe(Advance(Advance(s, rs[0]), rs[1]), rs[2])
    requires CanServe(Advance(Advance(Advance(s, rs[0]), rs[1]), rs[2]), rs[3])
    ensures Run(s, rs, Advance(Advance(Advance(Advance(s, rs[0]), rs[1]), rs[2]), rs[3]))
  {
    hide Allowed, Serve, Advance;
    var s1 := Advance(s, rs[0]);
    var s2 := Advance(s1, rs[1]);
    var s3 := Advance(s2, rs[2]);
    var s4 := Advance(s3, rs[3]);
    assert rs[3..][1..] == [] && rs[2..][1..] == rs[3..] && rs[1..][1..] == rs[2..];
    assert Run(s4, [], s4);
    assert Run(s3, rs[3..], s4);
    assert Run(s2, rs[2..], s4);
    assert Run(s1, rs[1..], s4);
  }
}
