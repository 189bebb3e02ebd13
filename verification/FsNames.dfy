/** The directory as a map from names to inodes: creating a file adds one binding, unlinking
    removes one, and every other lookup stays as it was. */
module FsNames {
  import opened ProcTable
  import opened Records
  import opened Directory
  import opened FsModel
  import opened FsInvariant
  import opened FsRefs
  import opened FsRun

  lemma PaddedIsInjective(a: seq<bv8>, b: seq<bv8>)
    requires CString(a) && CString(b) && |a| <= MAX_FILENAME_LEN && |b| <= MAX_FILENAME_LEN
    requires Padded(a) == Padded(b)
    ensures a == b
  {
    var pa, pb := Padded(a), Padded(b);
    assert forall i :: 0 <= i < |a| ==> pa[i] == a[i];
    assert forall i :: 0 <= i < |b| ==> pb[i] == b[i];
    if |a| < MAX_FILENAME_LEN {
      assert pa[|a|] == 0;
    }
    if |b| < MAX_FILENAME_LEN {
      assert pb[|b|] == 0;
    }
    forall i | 0 <= i < |a|
      ensures a[i] == b[i]
    {
      assert pa[i] == a[i] && pb[i] == b[i];
    }
  }

  /** The path names an entry of the root directory, not the root itself. */
  ghost predicate EntryPath(path: seq<bv8>) {
    CString(path) && SLASH !in NamePart(path) && NamePart(path) != []
  }

  ghost predicate Names(fs: Fs, e: nat, path: seq<bv8>)
    requires Shaped(fs)
  {
    && e < Entries(fs) && e < MAX_ENTRIES
    && fs.view.slots[e].inodeNr != 0 && fs.view.slots[e].name == Padded(NamePart(path))
  }

  /** A path is found through exactly the live entry that has its name. */
  lemma SearchByEntry(fs: Fs, owner: Owner, path: seq<bv8>) returns (e: nat)
    requires DiskOk(fs, owner) && EntryPath(path) && Search(fs, path) != 0
    ensures Names(fs, e, path) && fs.view.slots[e].inodeNr == Search(fs, path)
  {
    SearchFinds(fs, owner, path);
    e :| 0 <= e < Entries(fs) && fs.view.slots[e].inodeNr == Search(fs, path) &&
         fs.view.slots[e].name == Padded(NamePart(path));
  }

  lemma EntryIsFound(fs: Fs, owner: Owner, path: seq<bv8>, e: nat)
    requires DiskOk(fs, owner) && EntryPath(path) && Names(fs, e, path)
    ensures Search(fs, path) == fs.view.slots[e].inodeNr
  {
    SearchMisses(fs, owner, path, e);
  }

  /** Paths that name no entry are answered without looking at the directory. */
  lemma OtherPaths(fs: Fs, fs': Fs, path: seq<bv8>)
    requires Shaped(fs) && Shaped(fs') && CString(path) && !EntryPath(path)
    ensures Search(fs', path) == Search(fs, path)
  {
  }

  /** One entry was added to the directory. */
  ghost predicate AddsEntry(fs: Fs, fs': Fs, e: nat, nr: U32, path: seq<bv8>)
    requires Shaped(fs) && Shaped(fs')
  {
    && e < Entries(fs') && e < MAX_ENTRIES && Entries(fs) <= Entries(fs') <= Entries(fs) + 1
    && (Entries(fs') == Entries(fs) + 1 ==> e == Entries(fs))
    && fs.view.slots[e].inodeNr == 0 && nr != 0
    && fs'.view.slots == fs.view.slots[e := Dirent(nr, Padded(NamePart(path)))]
  }

  lemma AddedBinding(fs: Fs, owner: Owner, fs': Fs, owner': Owner, e: nat, nr: U32, path: seq<bv8>, q: seq<bv8>)
    requires DiskOk(fs, owner) && DiskOk(fs', owner') && AddsEntry(fs, fs', e, nr, path)
    requires EntryPath(path) && EntryPath(q)
    ensures Search(fs', q) == if NamePart(q) == NamePart(path) then nr else Search(fs, q)
  {
    hide DiskOk, Search;
    DiskShape(fs, owner);
    DiskShape(fs', owner');
    if NamePart(q) == NamePart(path) {
      EntryIsFound(fs', owner', q, e);
    } else if Search(fs, q) != 0 {
      var f := SearchByEntry(fs, owner, q);
      EntryIsFound(fs', owner', q, f);
    } else if Search(fs', q) != 0 {
      var f := SearchByEntry(fs', owner', q);
      if f == e {
        PaddedIsInjective(NamePart(q), NamePart(path));
      } else {
        EntryIsFound(fs, owner, q, f);
      }
    }
  }

  lemma DiskShape(fs: Fs, owner: Owner)
    requires DiskOk(fs, owner)
    ensures Shaped(fs) && Entries(fs) < ENTRIES_PER_SECT
  {
  }

  /** One entry was taken out, and perhaps the end of the directory trimmed. */
  ghost predicate DropsEntry(fs: Fs, fs': Fs, e: nat)
    requires Shaped(fs) && Shaped(fs')
  {
    && e < Entries(fs) && e < MAX_ENTRIES && Entries(fs') <= Entries(fs) && fs.view.slots[e].inodeNr != 0
    && fs'.view.slots == fs.view.slots[e := EMPTY_SLOT]
    && forall i :: Entries(fs') <= i < Entries(fs) && i < MAX_ENTRIES && i != e ==> fs.view.slots[i].inodeNr == 0
  }

  lemma DroppedBinding(fs: Fs, owner: Owner, fs': Fs, owner': Owner, e: nat, path: seq<bv8>, q: seq<bv8>)
    requires DiskOk(fs, owner) && DiskOk(fs', owner') && DropsEntry(fs, fs', e)
    requires EntryPath(path) && EntryPath(q) && Names(fs, e, path)
    ensures Search(fs', q) == if NamePart(q) == NamePart(path) then 0 else Search(fs, q)
  {
    hide DiskOk, Search;
    DiskShape(fs, owner);
    DiskShape(fs', owner');
    if Search(fs', q) != 0 {
      var f := SearchByEntry(fs', owner', q);
      EntryIsFound(fs, owner, q, f);
      if NamePart(q) == NamePart(path) {
        SameNameSameEntry(fs, owner, e, f);
        assert false;
      }
    } else if Search(fs, q) != 0 {
      var f := SearchByEntry(fs, owner, q);
      if f == e {
        PaddedIsInjective(NamePart(q), NamePart(path));
      } else {
        EntryIsFound(fs', owner', q, f);
      }
    }
  }

  lemma SameNameSameEntry(fs: Fs, owner: Owner, e: nat, f: nat)
    requires DiskOk(fs, owner) && e < Entries(fs) && f < Entries(fs)
    requires fs.view.slots[e].inodeNr != 0 && fs.view.slots[f].inodeNr != 0
    requires fs.view.slots[e].name == fs.view.slots[f].name
    ensures e == f
  {
  }

  // ---- the requests --------------------------------------------------------

  lemma CreateAddsEntry(fs: Fs, owner: Owner, path: seq<bv8>)
    requires DiskOk(fs, owner) && EntryPath(path) && Search(fs, path) == 0 && NameFits(fs, NamePart(path))
    requires FreeRun(owner) < GRID
    ensures CreateFile(fs, path).Created?
    ensures AddsEntry(fs, CreateFile(fs, path).fs, FirstWith(Prefix(fs.view.slots, Entries(fs)), 0),
                      Least(fs.view.inodeMap), path)
  {
    hide NewInode, RunStart, AddEntry, Fill, CreateFile, FirstWith, MapsOk, RecordsOk, CacheOk, NameFits, Search;
    SomeInodeFree(fs, owner);
    LeastIsFreeRun(fs, owner);
    var slot, root := CreateShape(fs, owner, path);
    CreateNamed(fs, owner, path);
    NewSlot(fs.view.slots, Entries(fs), owner);
  }

  /** Creating a file binds its name to the least free inode number and changes no other lookup. */
  lemma CreatingBindsOneName(s: State, r: Request, q: seq<bv8>)
    requires Inv(s) && Allowed(s, r) && Creates(s, r) && !HaltsWhen(s, r) && CString(q)
    ensures Serve(s.fs, r).Reply?
    ensures Search(Serve(s.fs, r).fs, q) ==
            if EntryPath(q) && NamePart(q) == NamePart(r.path) then Least(s.fs.view.inodeMap) else Search(s.fs, q)
  {
    hide DiskOk, RefsOk, Search, CreateFile, FirstWith, NameFits, Connect;
    StepKeepsInv(s, r);
    var fs' := Serve(s.fs, r).fs;
    NonRootPath(s.fs, r.path);
    OwnerSize(s);
    CreateAddsEntry(s.fs, s.owner, r.path);
    ConnectKeepsView(s, r);
    if EntryPath(q) {
      AddedBinding(s.fs, s.owner, fs', Advance(s, r).owner, FirstWith(Prefix(s.fs.view.slots, Entries(s.fs)), 0),
                   Least(s.fs.view.inodeMap), r.path, q);
    } else {
      OtherPaths(s.fs, fs', q);
    }
  }

  lemma NonRootPath(fs: Fs, path: seq<bv8>)
    requires Shaped(fs) && CString(path) && Search(fs, path) == 0 && SLASH !in NamePart(path)
    ensures EntryPath(path)
  {
  }

  lemma ConnectKeepsView(s: State, r: Request)
    requires Shaped(s.fs) && Creates(s, r) && Serve(s.fs, r).Reply?
    ensures CreateFile(s.fs, r.path).Created?
    ensures Serve(s.fs, r).fs.view == CreateFile(s.fs, r.path).fs.view
    ensures Serve(s.fs, r).fs.cache == CreateFile(s.fs, r.path).fs.cache
  {
    hide CreateFile, Openable, Search;
  }

  lemma RemoveDropsEntry(fs: Fs, owner: Owner, nr: U32, slot: nat)
    requires DiskOk(fs, owner) && slot < NR_INODE
    requires fs.cache[slot].num == nr && fs.cache[slot].cnt == 1 && fs.cache[slot].disk.mode == I_REGULAR
    requires nr != CMD_TAR_INODE
    ensures nr >= 1 && Remove(fs, nr, slot).Reply?
    ensures var e := FirstWith(Prefix(fs.view.slots, Entries(fs)), nr);
            DropsEntry(fs, Remove(fs, nr, slot).fs, e) && fs.view.slots[e].inodeNr == nr
  {
    hide FirstWith, LiveEnd, Fill, DirOk, RecordsOk, MapsOk, CacheOk, Uniform, Prefix;
    RemoveKeepsDisk(fs, owner, nr, slot);
    var slots, n := fs.view.slots, Entries(fs);
    InodeOnGrid(fs, owner, nr, slot);
    EntryOf(slots, n, owner, nr);
    TrimmedEnd(slots, n, owner, FirstWith(Prefix(slots, n), nr));
  }

  lemma InodeOnGrid(fs: Fs, owner: Owner, nr: nat, slot: nat)
    requires DiskOk(fs, owner) && slot < NR_INODE
    requires fs.cache[slot].num == nr && fs.cache[slot].cnt == 1 && fs.cache[slot].disk.mode == I_REGULAR
    requires nr != CMD_TAR_INODE
    ensures nr in owner && FIRST_FILE_INODE <= nr <= LAST_FILE_INODE
  {
    RegularIsOnGrid(fs, owner, fs.cache[slot]);
  }

  /** Lookups depend on the directory's entries and its size only. */
  lemma SameDirectory(fs: Fs, fs': Fs, q: seq<bv8>)
    requires Shaped(fs) && Shaped(fs') && fs'.view.slots == fs.view.slots
    requires fs'.cache[ROOT_SLOT].disk == fs.cache[ROOT_SLOT].disk
    ensures Search(fs', q) == Search(fs, q)
  {
  }

  /** Unlinking a file takes its name away and changes no other lookup. */
  lemma UnlinkingDropsOneName(s: State, r: Request, q: seq<bv8>)
    requires Inv(s) && Allowed(s, r) && Fetches(s, r) && !Refused(s, r) && CString(q)
    ensures Serve(s.fs, r).Reply?
    ensures Search(Serve(s.fs, r).fs, q) ==
            if EntryPath(q) && NamePart(q) == NamePart(r.path) then 0 else Search(s.fs, q)
  {
    hide DiskOk, RefsOk, Search, FirstWith, Remove, GetInode;
    StepKeepsInv(s, r);
    var nr := Search(s.fs, r.path);
    var fs' := Serve(s.fs, r).fs;
    SearchFinds(s.fs, s.owner, r.path);
    FetchOk(s.fs, s.owner, nr);
    var f := GetInode(s.fs.cache, s.fs.view.recs, nr);
    var fs1 := s.fs.(cache := f.cache);
    RemoveDropsEntry(fs1, s.owner, nr, f.slot);
    SameDirectory(s.fs, fs1, q);
    SameDirectory(s.fs, fs1, r.path);
    if EntryPath(q) {
      FoundPath(fs1, s.owner, r.path, f.slot, nr);
      var e := SearchByEntry(fs1, s.owner, r.path);
      OnlyEntryOf(fs1, s.owner, nr, e);
      DroppedBinding(fs1, s.owner, fs', Advance(s, r).owner, e, r.path, q);
    } else {
      OtherPaths(fs1, fs', q);
    }
  }

  lemma FoundPath(fs: Fs, owner: Owner, path: seq<bv8>, slot: nat, nr: U32)
    requires DiskOk(fs, owner) && CString(path) && Search(fs, path) == nr != 0
    requires slot < NR_INODE && fs.cache[slot].num == nr && fs.cache[slot].cnt != 0
    requires fs.cache[slot].disk.mode == I_REGULAR
    ensures EntryPath(path)
  {
    assert nr == ROOT_INODE ==> AgreesWith(fs.cache[slot], fs.view.recs[0]);
  }

  lemma OnlyEntryOf(fs: Fs, owner: Owner, nr: U32, e: nat)
    requires DiskOk(fs, owner) && e < Entries(fs) && nr != 0 && fs.view.slots[e].inodeNr == nr
    ensures FirstWith(Prefix(fs.view.slots, Entries(fs)), nr) == e
  {
    var p := Prefix(fs.view.slots, Entries(fs));
    forall i | 0 <= i < e
      ensures p[i].inodeNr != nr
    {
      assert p[i] == fs.view.slots[i];
    }
    assert p[e].inodeNr == nr;
  }

  /** Every other request leaves all lookups as they were. */
  lemma OtherRequestsKeepNames(s: State, r: Request, q: seq<bv8>)
    requires Inv(s) && Allowed(s, r) && !HaltsWhen(s, r)
    requires !Creates(s, r) && (Fetches(s, r) ==> Refused(s, r))
    ensures Serve(s.fs, r).Reply?
    ensures Search(Serve(s.fs, r).fs, q) == Search(s.fs, q)
  {
    hide DiskOk, RefsOk, Search, HaltsWhen, Exit, ForkCount, Transferred, Remove, CreateFile, GetInode;
    StepKeepsInv(s, r);
    OthersKeepDirectory(s, r);
    SameDirectory(s.fs, Serve(s.fs, r).fs, q);
  }

  lemma OthersKeepDirectory(s: State, r: Request)
    requires Inv(s) && Allowed(s, r) && Serve(s.fs, r).Reply?
    requires !Creates(s, r) && (Fetches(s, r) ==> Refused(s, r))
    ensures Serve(s.fs, r).fs.view.slots == s.fs.view.slots
    ensures Serve(s.fs, r).fs.view.recs[0] == s.fs.view.recs[0]
    ensures Serve(s.fs, r).fs.cache[ROOT_SLOT].disk == s.fs.cache[ROOT_SLOT].disk
  {
    hide DiskOk, RefsOk, Search, Exit, ForkCount, Transferred, Remove, CreateFile, GetInode, Openable;
    match r
    case DoOpen(p, path, creat, rdwr) =>
      if !creat && Search(s.fs, path) != 0 { FetchKeepsRoot(s, path); }
    case DoUnlink(p, path) => if Search(s.fs, path) != 0 { FetchKeepsRoot(s, path); }
    case DoStat(p, path) => if Search(s.fs, path) != 0 { FetchKeepsRoot(s, path); }
    case DoTransfer(p, fd, bytes) => TransferKeepsRoot(s, p, fd, bytes);
    case DoExit(p) => ExitKeepsView(s.fs, p, 0);
    case DoForkCount(child) => ForkCountKeepsView(s.fs, child, 0);
    case _ =>
  }

  lemma FetchKeepsRoot(s: State, path: seq<bv8>)
    requires Inv(s) && CString(path) && Search(s.fs, path) != 0
    ensures var f := GetInode(s.fs.cache, s.fs.view.recs, Search(s.fs, path));
            f.Fetched? && f.cache[ROOT_SLOT].disk == s.fs.cache[ROOT_SLOT].disk
  {
    SearchFinds(s.fs, s.owner, path);
    FetchOk(s.fs, s.owner, Search(s.fs, path));
  }

  lemma TransferKeepsRoot(s: State, p: Pid, fd: nat, bytes: nat)
    requires Inv(s) && Allowed(s, DoTransfer(p, fd, bytes))
    ensures var fs' := Transferred(s.fs, s.fs.filp[p][fd], bytes);
            && fs'.view.slots == s.fs.view.slots && fs'.view.recs[0] == s.fs.view.recs[0]
            && fs'.cache[ROOT_SLOT].disk == s.fs.cache[ROOT_SLOT].disk
  {
    EntryIsLive(s.fs, s.leaks, s.pend, p, fd);
    RegularNumber(s.fs, s.owner, s.fs.desc[s.fs.filp[p][fd]].inode);
  }

  lemma {:induction false} ExitKeepsView(fs: Fs, p: Pid, fd: nat)
    requires Shaped(fs) && fd <= NR_FILES && Exit(fs, p, fd).Reply?
    ensures Exit(fs, p, fd).fs.view == fs.view
    ensures Exit(fs, p, fd).fs.cache[ROOT_SLOT].disk == fs.cache[ROOT_SLOT].disk
    decreases NR_FILES - fd
  {
    if fd == NR_FILES {
    } else {
      if fs.filp[p][fd] == NULL {
        ExitKeepsView(fs, p, fd + 1);
      } else {
        ExitKeepsView(Closed(fs, p, fd), p, fd + 1);
      }
    }
  }

  lemma {:induction false} ForkCountKeepsView(fs: Fs, child: Pid, fd: nat)
    requires Shaped(fs) && fd <= NR_FILES && ForkCount(fs, child, fd).Reply?
    ensures ForkCount(fs, child, fd).fs.view == fs.view
    ensures ForkCount(fs, child, fd).fs.cache[ROOT_SLOT].disk == fs.cache[ROOT_SLOT].disk
    decreases NR_FILES - fd
  {
    if fd == NR_FILES {
    } else {
      var d := fs.filp[child][fd];
      ForkCountKeepsView(if d == NULL then fs else Share(fs, d), child, fd + 1);
    }
  }

  // ---- mkfs ----------------------------------------------------------------

  ghost predicate Spells(bytes: seq<bv8>, text: string) {
    |bytes| == |text| && forall i :: 0 <= i < |text| ==> bytes[i] as int == text[i] as int
  }

  lemma FixedStringsSpell()
    ensures Spells(FixedString(0), ".") && Spells(FixedString(4), "cmd.tar")
    ensures Spells(FixedString(1), "dev_tty0") && Spells(FixedString(2), "dev_tty1")
    ensures Spells(FixedString(3), "dev_tty2")
  {
  }

  /** After mkfs the five names lead to inodes 1 to 5, with or without a slash in front: the root, the
      three terminals, and cmd.tar. */
  lemma MkfsNames(s: State, e: nat)
    requires Initial(s) && e < FIXED_ENTRIES
    ensures Search(s.fs, FixedString(e)) == e + 1 && Search(s.fs, [SLASH] + FixedString(e)) == e + 1
    ensures var r := s.fs.view.recs[e];
            && r.mode == (if e == 0 then I_DIRECTORY else if e == 4 then I_REGULAR else I_CHAR_SPECIAL)
            && (1 <= e <= 3 ==> r.start == DEV_CHAR_TTY * 0x100 + (e - 1))
  {
    hide FixedString, Search, DiskOk, Padded;
    var name := FixedString(e);
    PlainName(e);
    InitialDisk(s);
    InitialEntries(s);
    NameOfString(name);
    EntryIsFound(s.fs, s.owner, name, e);
    EntryIsFound(s.fs, s.owner, [SLASH] + name, e);
  }

  lemma PlainName(e: nat)
    requires e < FIXED_ENTRIES
    ensures SLASH !in FixedString(e) && CString(FixedString(e)) && FixedString(e) != []
  {
  }

  lemma NameOfString(name: seq<bv8>)
    requires SLASH !in name && |name| < MAX_FILENAME_LEN
    ensures NamePart(name) == name && NamePart([SLASH] + name) == name
  {
  }

  lemma InitialEntries(s: State)
    requires Initial(s)
    ensures Shaped(s.fs) && Entries(s.fs) == FIXED_ENTRIES
  {
  }
}
