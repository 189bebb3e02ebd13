/** The files as byte strings: what a write stores is what the file holds from then on, whoever else
    opens, writes, creates or unlinks other files in the meantime. */
module FsFiles {
  import opened ProcTable
  import opened Bits
  import opened BlockDevice
  import opened Records
  import opened Directory
  import opened SectorMap
  import opened FsModel
  import opened FsInvariant
  import opened FsRefs
  import opened FsRun
  import opened FsLayout
  import opened FileIO
  import opened FsEffects
  import opened FileSystem

  /** The file system and the sectors of its disk. */
  datatype World = World(s: State, sectors: seq<Sector>)

  type Files = map<nat, seq<bv8>>

  ghost predicate FileHolds(fs: Fs, sectors: seq<Sector>, nr: nat, bytes: seq<bv8>)
    requires Shaped(fs)
  {
    && 1 < nr <= NR_INODES
    && var inode := InodeNow(fs, nr);
       && inode.mode == I_REGULAR && |bytes| == inode.size <= inode.nrSects * SECTOR_SIZE
       && Holds(sectors, inode.start * SECTOR_SIZE, bytes)
  }

  /** The number of a regular file: cmd.tar, or one that was created. */
  ghost predicate IsFile(s: State, nr: nat) {
    nr == CMD_TAR_INODE || (nr >= FIRST_FILE_INODE && nr in s.owner)
  }

  /** The files hold those bytes, and nobody is behind the end of a file. */
  ghost predicate Represents(w: World, files: Files) {
    && Inv(w.s) && |w.sectors| > INSTALL_START_SECT + INSTALL_NR_SECTS
    && (forall nr :: nr in files <==> IsFile(w.s, nr))
    && (forall nr :: nr in files ==> FileHolds(w.s.fs, w.sectors, nr, files[nr]))
    && forall q: Pid, g: nat ::
         var h := HandleOf(w.s.fs, q, g); h.Handle? && h.file in files ==> h.pos <= |files[h.file]|
  }

  /** Reads and writes through an entry; every other request. */
  datatype Step =
    | Read(p: Pid, fd: nat, len: nat, out: seq<bv8>)
    | Write(p: Pid, fd: nat, data: seq<bv8>, moved: nat)
    | Other(r: Request)

  ghost predicate Moves(w: World, p: Pid, fd: nat, read: bool, len: nat, data: seq<bv8>, out: seq<bv8>, moved: nat,
                        w': World)
  {
    && Accepts(w.s, DoTransfer(p, fd, moved))
    && RwMoves(w.s.fs, w.sectors, p, fd, read, len, data, Done(moved, out), w'.s.fs, w'.sectors)
    && w'.s == Advance(w.s, DoTransfer(p, fd, moved))
  }

  ghost predicate Takes(w: World, x: Step, w': World) {
    match x
    case Read(p, fd, len, out) => Moves(w, p, fd, true, len, [], out, |out|, w')
    case Write(p, fd, data, moved) => Moves(w, p, fd, false, |data|, data, [], moved, w')
    case Other(r) =>
      && Accepts(w.s, r) && !r.DoTransfer? && Serve(w.s.fs, r).Reply? && w'.s == Advance(w.s, r)
      && SameOutside(w.sectors, w'.sectors, 0, w.s.fs.n1 + 2048)
  }

  function Overwritten(bytes: seq<bv8>, pos: nat, part: seq<bv8>): (r: seq<bv8>)
    requires pos <= |bytes|
    ensures |r| == Max(|bytes|, pos + |part|)
  {
    bytes[..pos] + part + if pos + |part| < |bytes| then bytes[pos + |part|..] else []
  }

  /** A file is empty when it is created, is gone when it is unlinked, and holds what is written. */
  ghost function After(files: Files, s: State, x: Step): Files
    requires Shaped(s.fs)
  {
    match x
    case Read(p, fd, len, out) => WithPart(files, HandleOf(s.fs, p, fd), out)
    case Write(p, fd, data, moved) =>
      WithPart(files, HandleOf(s.fs, p, fd), if moved <= |data| then data[..moved] else data)
    case Other(r) =>
      if Creates(s, r) then files[Least(s.fs.view.inodeMap) := []]
      else if Removes(s, r) then files - {Search(s.fs, r.path) as nat}
      else files
  }

  ghost function WithPart(files: Files, h: Handle, part: seq<bv8>): Files {
    if h.Handle? && h.file in files && h.pos <= |files[h.file]|
    then files[h.file := Overwritten(files[h.file], h.pos, part)] else files
  }

  /** The unlink finds a regular file that is not in use. */
  ghost predicate Removes(s: State, r: Request)
    requires Shaped(s.fs)
  {
    && r.DoUnlink? && r.path != [SLASH]
    && var nr := Search(s.fs, r.path); 1 <= nr < NR_INODES && InodeNow(s.fs, nr).mode == I_REGULAR && !InUse(s.fs, nr)
  }

  // ---- where the files are -------------------------------------------------

  lemma FilePlace(s: State, nr: nat)
    requires Inv(s) && IsFile(s, nr)
    ensures Shaped(s.fs) && 1 < nr < NR_INODES
    ensures var inode := InodeNow(s.fs, nr);
            && inode.mode == I_REGULAR && inode.nrSects == 2048
            && s.fs.n1 + 2048 <= inode.start && inode.start + 2048 <= INSTALL_START_SECT + INSTALL_NR_SECTS
  {
    hide RefsOk, DirOk, CacheOk;
    if nr != CMD_TAR_INODE {
      var t :| 0 <= t < GRID && s.owner[t] == nr;
    }
  }

  lemma FilesApart(s: State, a: nat, b: nat)
    requires Inv(s) && IsFile(s, a) && IsFile(s, b) && a != b
    ensures Shaped(s.fs) && 1 < a < NR_INODES && 1 < b < NR_INODES
    ensures var x, y := InodeNow(s.fs, a), InodeNow(s.fs, b);
            x.start + 2048 <= y.start || y.start + 2048 <= x.start
  {
    hide RefsOk, DirOk, CacheOk;
    FilePlace(s, a);
    FilePlace(s, b);
    if a != CMD_TAR_INODE {
      var t :| 0 <= t < GRID && s.owner[t] == a;
    }
    if b != CMD_TAR_INODE {
      var t :| 0 <= t < GRID && s.owner[t] == b;
    }
  }

  // ---- one step ------------------------------------------------------------

  /** A file that keeps its inode and its sectors keeps its bytes. */
  lemma BytesStay(fs: Fs, fs': Fs, sectors: seq<Sector>, sectors': seq<Sector>, nr: nat, bytes: seq<bv8>)
    requires Shaped(fs) && Shaped(fs') && FileHolds(fs, sectors, nr, bytes) && InodeNow(fs', nr) == InodeNow(fs, nr)
    requires SameOutside(sectors, sectors', 0, InodeNow(fs, nr).start)
    ensures FileHolds(fs', sectors', nr, bytes)
  {
    var base := InodeNow(fs, nr).start * SECTOR_SIZE;
    forall y | 0 <= y < |bytes|
      ensures ByteIs(sectors', base + y, bytes[y])
    {
      assert ByteIs(sectors, base + y, bytes[y]);
      assert sectors'[(base + y) / SECTOR_SIZE] == sectors[(base + y) / SECTOR_SIZE];
    }
  }

  /** Entries after a request are those of before, perhaps of another process, or at the start. */
  ghost predicate OldOrAtStart(fs: Fs, fs': Fs) {
    && Shaped(fs) && Shaped(fs')
    && forall q: Pid, g: nat ::
         var h := HandleOf(fs', q, g);
         h.Handle? ==> h.pos == 0 || exists q': Pid :: HandleOf(fs, q', g) == h
  }

  lemma KeptIsOld(fs: Fs, fs': Fs)
    requires KeepsHandles(fs, fs')
    ensures OldOrAtStart(fs, fs')
  {
    hide HandleOf;
    forall q: Pid, g: nat
      ensures HandleOf(fs, q, g) == HandleOf(fs', q, g)
    {
    }
  }

  lemma SetIsOld(fs: Fs, fs': Fs, p: Pid, fd: nat, h: Handle)
    requires SetsHandle(fs, fs', p, fd, h) && (h.Handle? ==> h.pos == 0)
    ensures OldOrAtStart(fs, fs')
  {
    hide HandleOf;
    forall q: Pid, g: nat
      ensures (q != p || g != fd) ==> HandleOf(fs, q, g) == HandleOf(fs', q, g)
    {
    }
  }

  lemma OtherHandles(s: State, r: Request)
    requires Inv(s) && Allowed(s, r) && !r.DoTransfer? && Serve(s.fs, r).Reply?
    ensures OldOrAtStart(s.fs, Serve(s.fs, r).fs)
  {
    hide DiskOk, RefsOk, Serve, OldOrAtStart, HandleOf, KeepsHandles, KeepsInodes, SetsInode, SetsHandle, InodeNow;
    hide HaltsWhen, Search;
    StepKeepsInv(s, r);
    var fs' := Serve(s.fs, r).fs;
    match r
    case DoOpen(p, path, creat, rdwr) => OpenHandles(s, r);
    case DoClose(p, fd) =>
      CloseEffect(s, r);
      SetIsOld(s.fs, fs', p, fd, NoFile);
    case DoUnlink(p, path) =>
      UnlinkEffect(s, r);
      KeptIsOld(s.fs, fs');
    case DoStat(p, path) =>
      StatEffect(s, r);
      KeptIsOld(s.fs, fs');
    case DoForkCopy(parent, child) => CopyIsOld(s, r);
    case DoForkCount(child) =>
      ForkCountEffect(s, r);
      KeptIsOld(s.fs, fs');
    case DoExit(p) => ExitIsOld(s, r);
  }

  lemma OpenHandles(s: State, r: Request)
    requires Inv(s) && r.DoOpen? && Allowed(s, r) && !HaltsWhen(s, r)
    ensures Serve(s.fs, r).Reply? && OldOrAtStart(s.fs, Serve(s.fs, r).fs)
  {
    hide DiskOk, RefsOk, Serve, OldOrAtStart, HandleOf, KeepsHandles, KeepsInodes, SetsInode, SetsHandle;
    hide HaltsWhen, Search;
    if r.creat { CreateEffect(s, r); } else { OpenEffect(s, r); }
    var fs', ret := Serve(s.fs, r).fs, Serve(s.fs, r).ret;
    if ret == -1 {
      KeptIsOld(s.fs, fs');
    } else {
      SetIsOld(s.fs, fs', r.p, ret, HandleOf(fs', r.p, ret));
    }
  }

  lemma CopyIsOld(s: State, r: Request)
    requires Inv(s) && Allowed(s, r) && r.DoForkCopy?
    ensures Serve(s.fs, r).Reply? && OldOrAtStart(s.fs, Serve(s.fs, r).fs)
  {
    hide DiskOk, RefsOk, HandleOf, Serve, InodeNow;
    ForkCopyEffect(s, r);
    var fs' := Serve(s.fs, r).fs;
    forall q: Pid, g: nat
      ensures exists q': Pid :: HandleOf(s.fs, q', g) == HandleOf(fs', q, g)
    {
      assert HandleOf(s.fs, if q == r.child then r.parent else q, g) == HandleOf(fs', q, g);
    }
  }

  lemma ExitIsOld(s: State, r: Request)
    requires Inv(s) && Allowed(s, r) && r.DoExit?
    ensures Serve(s.fs, r).Reply? && OldOrAtStart(s.fs, Serve(s.fs, r).fs)
  {
    hide DiskOk, RefsOk, HandleOf, Serve, KeepsInodes;
    ExitEffect(s, r);
    var fs' := Serve(s.fs, r).fs;
    forall q: Pid, g: nat
      ensures q != r.p ==> HandleOf(s.fs, q, g) == HandleOf(fs', q, g)
    {
    }
  }

  // ---- which files there are -----------------------------------------------

  lemma RemovesExactly(s: State, r: Request)
    requires Inv(s) && Allowed(s, r) && !HaltsWhen(s, r)
    ensures Shaped(s.fs) && (Removes(s, r) <==> Fetches(s, r) && !Refused(s, r))
  {
    hide DiskOk, RefsOk, Search, GetInode, InUse, InodeNow;
    if r.DoUnlink? && r.path != [SLASH] {
      SearchFinds(s.fs, s.owner, r.path);
      FetchOk(s.fs, s.owner, Search(s.fs, r.path));
      FetchCounts(s.fs, s.owner, Search(s.fs, r.path));
    }
  }

  /** The inodes and the grid after a request that moves no bytes. */
  ghost predicate InodesAfter(s: State, r: Request, s': State)
    requires Shaped(s.fs)
  {
    if Creates(s, r) then
      && |s.owner| == GRID && FreeRun(s.owner) < GRID && s.fs.n1 < 2048
      && s'.owner == Occupy(s.owner, Least(s.fs.view.inodeMap))
      && FIRST_FILE_INODE <= Least(s.fs.view.inodeMap) <= LAST_FILE_INODE
      && SetsInode(s.fs, s'.fs, Least(s.fs.view.inodeMap),
                   DiskInode(I_REGULAR, 0, s.fs.n1 - 1 + RunStart(FreeRun(s.owner)), NR_DEFAULT_FILE_SECTS))
    else if Removes(s, r) then
      s'.owner == Vacate(s.owner, Search(s.fs, r.path)) && SetsInode(s.fs, s'.fs, Search(s.fs, r.path), NO_RECORD)
    else s'.owner == s.owner && KeepsInodes(s.fs, s'.fs)
  }

  lemma OwnerAdvances(s: State, r: Request)
    requires Shaped(s.fs) && Allowed(s, r) && Serve(s.fs, r).Reply?
    ensures Advance(s, r).owner ==
            if Creates(s, r) && FreeRun(s.owner) < |s.owner| then Occupy(s.owner, Least(s.fs.view.inodeMap))
            else if Fetches(s, r) && !Refused(s, r) then Vacate(s.owner, Search(s.fs, r.path))
            else s.owner
  {
    hide Serve, Allowed, Refused, Occupy, Vacate, Least, FreeRun;
    OnlyUnlinks(s, r);
  }

  lemma OnlyUnlinks(s: State, r: Request)
    requires Shaped(s.fs)
    ensures (Creates(s, r) ==> r.DoOpen?) && (Fetches(s, r) ==> r.DoUnlink?)
  {
  }

  lemma OtherInodes(s: State, r: Request)
    requires Inv(s) && Allowed(s, r) && !r.DoTransfer? && Serve(s.fs, r).Reply?
    ensures Shaped(s.fs) && InodesAfter(s, r, Advance(s, r))
  {
    hide DiskOk, RefsOk, Serve, Allowed, KeepsHandles, KeepsInodes, SetsInode, SetsHandle, NewHandle, Advance;
    hide ClosesAll;
    hide HaltsWhen, Search, Fetches, Refused, FreeRun, Least, Occupy, Vacate;
    StepKeepsInv(s, r);
    RemovesExactly(s, r);
    OnlyUnlinks(s, r);
    OwnerAdvances(s, r);
    AdvanceModel(s, r);
    RootPlace(s.fs, s.owner);
    match r
    case DoOpen(p, path, creat, rdwr) => if creat { CreateEffect(s, r); } else { OpenEffect(s, r); }
    case DoClose(p, fd) => CloseEffect(s, r);
    case DoUnlink(p, path) => UnlinkEffect(s, r);
    case DoStat(p, path) => StatEffect(s, r);
    case DoForkCopy(parent, child) => ForkCopyEffect(s, r);
    case DoForkCount(child) => ForkCountEffect(s, r);
    case DoExit(p) => ExitEffect(s, r);
  }

  lemma FilesAfter(s: State, r: Request, s': State, nr: nat)
    requires Inv(s) && Shaped(s.fs) && InodesAfter(s, r, s') && Inv(s')
    requires Creates(s, r) ==> !Live(s.owner, Least(s.fs.view.inodeMap))
    requires Removes(s, r) ==> Search(s.fs, r.path) >= FIRST_FILE_INODE && Search(s.fs, r.path) in s.owner
    ensures IsFile(s', nr) <==>
            if Creates(s, r) then IsFile(s, nr) || nr == Least(s.fs.view.inodeMap)
            else if Removes(s, r) then IsFile(s, nr) && nr != Search(s.fs, r.path)
            else IsFile(s, nr)
  {
    hide RefsOk, Search, MapsOk, RecordsOk, DirOk, CacheOk, SetsInode, KeepsInodes, Least, FreeRun, Vacate, Occupy;
    hide Creates, InUse, InodeNow;
    if Creates(s, r) {
      OccupyMembers(s.owner, Least(s.fs.view.inodeMap), nr);
    } else if Removes(s, r) {
      VacateMembers(s.owner, Search(s.fs, r.path), nr);
    }
  }

  lemma RemovedIsFile(s: State, r: Request)
    requires Inv(s) && Allowed(s, r) && Shaped(s.fs) && Removes(s, r)
    ensures Search(s.fs, r.path) >= FIRST_FILE_INODE && Search(s.fs, r.path) in s.owner
  {
    hide RefsOk, Search, MapsOk, DirOk, InUse;
    var nr := Search(s.fs, r.path);
    SearchFinds(s.fs, s.owner, r.path);
  }

  lemma HandleIsLive(s: State, q: Pid, g: nat)
    requires Inv(s)
    ensures Shaped(s.fs) && (HandleOf(s.fs, q, g).Handle? ==> Live(s.owner, HandleOf(s.fs, q, g).file))
  {
    hide RefsOk, MapsOk, DirOk, RecordsOk, OwnerOk;
    if HandleOf(s.fs, q, g).Handle? {
      LeadsToInode(s.fs, s.leaks, s.pend, q, g);
    }
  }

  lemma MembersAfter(s: State, r: Request, nr: nat)
    requires Inv(s) && Allowed(s, r) && !r.DoTransfer? && Serve(s.fs, r).Reply?
    ensures Shaped(s.fs)
    ensures IsFile(Advance(s, r), nr) <==>
            if Creates(s, r) then IsFile(s, nr) || nr == Least(s.fs.view.inodeMap)
            else if Removes(s, r) then IsFile(s, nr) && nr != Search(s.fs, r.path)
            else IsFile(s, nr)
  {
    hide DiskOk, RefsOk, Serve, Allowed, Advance, Creates, Removes, InodesAfter, Least, Search, IsFile;
    StepKeepsInv(s, r);
    OtherInodes(s, r);
    FreeInodeFacts(s.fs, s.owner);
    if Removes(s, r) {
      RemovedIsFile(s, r);
    }
    FilesAfter(s, r, Advance(s, r), nr);
  }

  lemma OtherKeepsBytes(w: World, r: Request, w': World, files: Files, nr: nat)
    requires Represents(w, files) && Takes(w, Other(r), w') && nr in After(files, w.s, Other(r))
    ensures Shaped(w'.s.fs) && FileHolds(w'.s.fs, w'.sectors, nr, After(files, w.s, Other(r))[nr])
  {
    hide DiskOk, RefsOk, Serve, Allowed, Advance, Creates, Removes, Search, HandleOf, Least, FreeRun, Holds;
    StepKeepsInv(w.s, r);
    OtherInodes(w.s, r);
    if !Creates(w.s, r) || nr != Least(w.s.fs.view.inodeMap) {
      FilePlace(w.s, nr);
      BytesStay(w.s.fs, w'.s.fs, w.sectors, w'.sectors, nr, files[nr]);
    } else {
      NoBytes(w'.sectors, InodeNow(w'.s.fs, nr).start * SECTOR_SIZE);
    }
  }

  lemma NoBytes(sectors: seq<Sector>, base: nat)
    ensures Holds(sectors, base, [])
  {
  }

  lemma OtherKeepsPosition(w: World, r: Request, w': World, files: Files, q: Pid, g: nat)
    requires Represents(w, files) && Takes(w, Other(r), w')
    ensures Shaped(w'.s.fs)
    ensures var h := HandleOf(w'.s.fs, q, g);
            h.Handle? && h.file in After(files, w.s, Other(r)) ==> h.pos <= |After(files, w.s, Other(r))[h.file]|
  {
    hide DiskOk, RefsOk, Serve, Allowed, Advance, Creates, Removes, Search, HandleOf, Least, FileHolds, InodesAfter;
    StepKeepsInv(w.s, r);
    AdvanceModel(w.s, r);
    OtherHandles(w.s, r);
    FreeInodeFacts(w.s.fs, w.s.owner);
    var h := HandleOf(w'.s.fs, q, g);
    if h.Handle? && h.pos != 0 {
      var q': Pid :| HandleOf(w.s.fs, q', g) == h;
      HandleIsLive(w.s, q', g);
    }
  }

  lemma OtherKeepsFiles(w: World, r: Request, w': World, files: Files)
    requires Represents(w, files) && Takes(w, Other(r), w')
    ensures Represents(w', After(files, w.s, Other(r)))
  {
    hide DiskOk, RefsOk, Serve, Allowed, Creates, Removes, HandleOf, Search, Advance, FileHolds, InodesAfter;
    hide FsRun.Inv, HaltsWhen;
    StepKeepsInv(w.s, r);
    InvGivesDisk(w.s);
    InvGivesDisk(w'.s);
    forall nr
      ensures nr in After(files, w.s, Other(r)) <==> IsFile(w'.s, nr)
    {
      MembersAfter(w.s, r, nr);
    }
    forall nr | nr in After(files, w.s, Other(r))
      ensures FileHolds(w'.s.fs, w'.sectors, nr, After(files, w.s, Other(r))[nr])
    {
      OtherKeepsBytes(w, r, w', files, nr);
    }
    forall q: Pid, g: nat
      ensures var h := HandleOf(w'.s.fs, q, g);
              h.Handle? && h.file in After(files, w.s, Other(r)) ==> h.pos <= |After(files, w.s, Other(r))[h.file]|
    {
      OtherKeepsPosition(w, r, w', files, q, g);
    }
  }

  // ---- reading and writing -------------------------------------------------

  /** What a transfer did, in terms of the file: its number, the position, and the bytes that are there
      now. */
  ghost predicate Transfers(w: World, p: Pid, fd: nat, part: seq<bv8>, w': World)
    requires Shaped(w.s.fs) && Shaped(w'.s.fs)
  {
    var h := HandleOf(w.s.fs, p, fd);
    && h.Handle? && IsFile(w.s, h.file) && 1 < h.file < NR_INODES
    && MovesHandles(w.s.fs, w'.s.fs, h.desc, |part|) && w'.s.owner == w.s.owner
    && var inode := InodeNow(w.s.fs, h.file);
       && h.pos + |part| <= inode.nrSects * SECTOR_SIZE <= 0xffff_ffff
       && SetsInode(w.s.fs, w'.s.fs, h.file, inode.(size := Max(inode.size, h.pos + |part|)))
       && Wrote(w.sectors, w'.sectors, w.s.fs.n1 + 2048, inode.start * SECTOR_SIZE + h.pos, part)
  }

  /** Behind sector lo the bytes are at base now, and everything else is as it was. */
  ghost predicate Wrote(before: seq<Sector>, after: seq<Sector>, lo: nat, base: nat, part: seq<bv8>) {
    && |after| == |before| && Holds(after, base, part)
    && exists stored :: StoredAbove(before, after, lo, base, stored) && |stored| <= |part|
  }

  lemma RegularIsFile(s: State, p: Pid, fd: nat)
    requires Inv(s) && OpenFile(s.fs, p, fd) && s.fs.filp[p][fd] != NULL
    requires s.fs.cache[s.fs.desc[s.fs.filp[p][fd]].inode].disk.mode == I_REGULAR
    ensures var c := s.fs.cache[s.fs.desc[s.fs.filp[p][fd]].inode];
            1 < c.num < NR_INODES && c.disk == InodeNow(s.fs, c.num) && IsFile(s, c.num)
  {
    hide RefsOk, DirOk, MapsOk;
    LeadsToInode(s.fs, s.leaks, s.pend, p, fd);
    var slot := s.fs.desc[s.fs.filp[p][fd]].inode;
    RegularInode(s.fs, s.owner, slot);
    if s.fs.cache[slot].num != CMD_TAR_INODE {
      FetchedRecord(s.fs, s.owner, slot);
      RegularIsOnGrid(s.fs, s.owner, s.fs.cache[slot]);
    }
  }

  lemma SomeStored(before: seq<Sector>, after: seq<Sector>, lo: nat, n1: nat, base: nat, stored: seq<bv8>,
                   part: seq<bv8>)
    requires n1 <= lo && lo * SECTOR_SIZE <= base && StoredAbove(before, after, n1, base, stored)
    requires stored == part || (stored == [] && Holds(before, base, part))
    requires base + |part| <= |before| * SECTOR_SIZE
    ensures Wrote(before, after, lo, base, part)
  {
    hide DiskByte;
    assert StoredAbove(before, after, lo, base, stored);
    forall y | 0 <= y < |part|
      ensures ByteIs(after, base + y, part[y])
    {
      assert stored == [] ==> ByteIs(before, base + y, part[y]);
    }
  }

  lemma TransferredFile(w: World, p: Pid, fd: nat, read: bool, len: nat, data: seq<bv8>, out: seq<bv8>, moved: nat,
                        w': World)
    requires Inv(w.s) && |w.sectors| > INSTALL_START_SECT + INSTALL_NR_SECTS
    requires Moves(w, p, fd, read, len, data, out, moved, w')
    ensures Shaped(w.s.fs) && Shaped(w'.s.fs) && Inv(w'.s) && |w'.sectors| == |w.sectors|
    ensures !read ==> moved <= |data|
    ensures read ==> |out| == moved
    ensures Transfers(w, p, fd, if read then out else data[..moved], w')
  {
    hide DiskOk, RefsOk, Moved, StoredAbove, Holds, Transferred, SetsInode, MovesHandles, HaltsWhen;
    var r := DoTransfer(p, fd, moved);
    StepKeepsInv(w.s, r);
    TransferEffect(w.s, r);
    RegularIsFile(w.s, p, fd);
    var h := HandleOf(w.s.fs, p, fd);
    FilePlace(w.s, h.file);
    var inode := InodeNow(w.s.fs, h.file);
    SomeStored(w.sectors, w'.sectors, w.s.fs.n1 + 2048, w.s.fs.n1, inode.start * SECTOR_SIZE + h.pos,
               if read then [] else data[..moved], if read then out else data[..moved]);
  }

  /** Bytes of a file before and behind a part that was written. */
  lemma BytesWritten(before: seq<Sector>, after: seq<Sector>, lo: nat, start: nat, bytes: seq<bv8>, pos: nat,
                     part: seq<bv8>)
    requires lo <= start && Holds(before, start * SECTOR_SIZE, bytes) && pos <= |bytes|
    requires Wrote(before, after, lo, start * SECTOR_SIZE + pos, part)
    ensures Holds(after, start * SECTOR_SIZE, Overwritten(bytes, pos, part))
  {
    hide DiskByte;
    var base, all := start * SECTOR_SIZE, Overwritten(bytes, pos, part);
    forall y | 0 <= y < |all|
      ensures ByteIs(after, base + y, all[y])
    {
      if pos <= y < pos + |part| {
        assert ByteIs(after, base + pos + (y - pos), part[y - pos]);
        assert all[y] == part[y - pos];
      } else {
        assert all[y] == bytes[y];
        assert ByteIs(before, base + y, bytes[y]);
      }
    }
  }

  lemma BytesElsewhere(before: seq<Sector>, after: seq<Sector>, lo: nat, base: nat, part: seq<bv8>, other: nat,
                       bytes: seq<bv8>)
    requires lo <= other && Holds(before, other * SECTOR_SIZE, bytes) && Wrote(before, after, lo, base, part)
    requires other * SECTOR_SIZE + |bytes| <= base || base + |part| <= other * SECTOR_SIZE
    ensures Holds(after, other * SECTOR_SIZE, bytes)
  {
    hide StoredAbove, Holds;
    var stored :| StoredAbove(before, after, lo, base, stored) && |stored| <= |part|;
    OtherBytesStay(before, after, lo, base, stored, other * SECTOR_SIZE, bytes);
  }

  lemma TransferKeepsFiles(w: World, p: Pid, fd: nat, part: seq<bv8>, w': World, files: Files)
    requires Represents(w, files) && Shaped(w.s.fs) && Inv(w'.s) && Shaped(w'.s.fs) && Transfers(w, p, fd, part, w')
    ensures HandleOf(w.s.fs, p, fd).file in files
    ensures Represents(w', WithPart(files, HandleOf(w.s.fs, p, fd), part))
  {
    hide FsRun.Inv, FileHolds, HandleOf, InodeNow, Transfers;
    var h := HandleOf(w.s.fs, p, fd);
    var files' := WithPart(files, h, part);
    TransferMembers(w, p, fd, part, w', files);
    forall nr | nr in files'
      ensures FileHolds(w'.s.fs, w'.sectors, nr, files'[nr])
    {
      TransferKeepsBytes(w, p, fd, part, w', files, nr);
    }
    forall q: Pid, g: nat
      ensures var h := HandleOf(w'.s.fs, q, g); h.Handle? && h.file in files' ==> h.pos <= |files'[h.file]|
    {
      TransferKeepsPosition(w, p, fd, part, w', files, q, g);
    }
  }

  lemma TransferMembers(w: World, p: Pid, fd: nat, part: seq<bv8>, w': World, files: Files)
    requires Represents(w, files) && Shaped(w.s.fs) && Shaped(w'.s.fs) && Transfers(w, p, fd, part, w')
    ensures HandleOf(w.s.fs, p, fd).file in files && |w'.sectors| == |w.sectors| && w'.s.owner == w.s.owner
    ensures forall nr :: nr in WithPart(files, HandleOf(w.s.fs, p, fd), part) <==> IsFile(w'.s, nr)
  {
    hide FsRun.Inv, FileHolds, HandleOf, InodeNow, Holds;
  }

  lemma TransferKeepsBytes(w: World, p: Pid, fd: nat, part: seq<bv8>, w': World, files: Files, nr: nat)
    requires Represents(w, files) && Shaped(w.s.fs) && Shaped(w'.s.fs) && Transfers(w, p, fd, part, w') && nr in files
    ensures FileHolds(w'.s.fs, w'.sectors, nr, WithPart(files, HandleOf(w.s.fs, p, fd), part)[nr])
  {
    hide FsRun.Inv, Holds, Wrote, HandleOf, InodeNow;
    var h := HandleOf(w.s.fs, p, fd);
    FilePlace(w.s, h.file);
    FilePlace(w.s, nr);
    if nr == h.file {
      BytesWritten(w.sectors, w'.sectors, w.s.fs.n1 + 2048, InodeNow(w.s.fs, nr).start, files[nr], h.pos, part);
    } else {
      FilesApart(w.s, nr, h.file);
      BytesElsewhere(w.sectors, w'.sectors, w.s.fs.n1 + 2048, InodeNow(w.s.fs, h.file).start * SECTOR_SIZE + h.pos,
                     part, InodeNow(w.s.fs, nr).start, files[nr]);
    }
  }

  lemma TransferKeepsPosition(w: World, p: Pid, fd: nat, part: seq<bv8>, w': World, files: Files, q: Pid, g: nat)
    requires Represents(w, files) && Shaped(w.s.fs) && Shaped(w'.s.fs) && Transfers(w, p, fd, part, w')
    ensures var h := HandleOf(w'.s.fs, q, g);
            var files' := WithPart(files, HandleOf(w.s.fs, p, fd), part);
            h.Handle? && h.file in files' ==> h.pos <= |files'[h.file]|
  {
    hide FsRun.Inv, FileHolds, HandleOf, InodeNow, SetsInode, Wrote;
    var a, b := HandleOf(w.s.fs, p, fd), HandleOf(w.s.fs, q, g);
    if b.Handle? && b.desc == a.desc {
      SameDescriptor(w.s.fs, p, fd, q, g);
    }
  }

  lemma SameDescriptor(fs: Fs, p: Pid, fd: nat, q: Pid, g: nat)
    requires Shaped(fs) && HandleOf(fs, p, fd).Handle? && HandleOf(fs, q, g).Handle?
    requires HandleOf(fs, p, fd).desc == HandleOf(fs, q, g).desc
    ensures HandleOf(fs, p, fd) == HandleOf(fs, q, g)
  {
  }

  /** Every step does to the files on the disk just what After says. */
  lemma StepKeepsFiles(w: World, x: Step, w': World, files: Files)
    requires Represents(w, files) && Takes(w, x, w')
    ensures Shaped(w.s.fs) && Represents(w', After(files, w.s, x))
  {
    hide FsRun.Inv, Represents, Moves, After, Transfers, HandleOf;
    InvOf(w, files);
    match x
    case Read(p, fd, len, out) =>
      TransferredFile(w, p, fd, true, len, [], out, |out|, w');
      TransferKeepsFiles(w, p, fd, out, w', files);
      assert After(files, w.s, x) == WithPart(files, HandleOf(w.s.fs, p, fd), out) by { ReadAfter(files, w.s, x); }
    case Write(p, fd, data, moved) =>
      TransferredFile(w, p, fd, false, |data|, data, [], moved, w');
      TransferKeepsFiles(w, p, fd, data[..moved], w', files);
      WriteAfter(files, w.s, x);
    case Other(r) => OtherKeepsFiles(w, r, w', files);
  }

  lemma InvOf(w: World, files: Files)
    requires Represents(w, files)
    ensures Inv(w.s) && Shaped(w.s.fs) && |w.sectors| > INSTALL_START_SECT + INSTALL_NR_SECTS
  {
  }

  lemma ReadAfter(files: Files, s: State, x: Step)
    requires Shaped(s.fs) && x.Read?
    ensures After(files, s, x) == WithPart(files, HandleOf(s.fs, x.p, x.fd), x.out)
  {
  }

  lemma WriteAfter(files: Files, s: State, x: Step)
    requires Shaped(s.fs) && x.Write? && x.moved <= |x.data|
    ensures After(files, s, x) == WithPart(files, HandleOf(s.fs, x.p, x.fd), x.data[..x.moved])
  {
  }

  /** A read within the file returns the file's bytes at the position, as many as were asked for. */
  lemma ReadGivesBytes(w: World, x: Step, w': World, files: Files)
    requires Represents(w, files) && x.Read? && Takes(w, x, w')
    ensures Shaped(w.s.fs)
    ensures var h := HandleOf(w.s.fs, x.p, x.fd);
            && h.Handle? && h.file in files && h.pos <= |files[h.file]|
            && (h.pos + x.len <= |files[h.file]| ==> x.out == files[h.file][h.pos..h.pos + x.len])
  {
    hide DiskOk, RefsOk, HaltsWhen, Transferred, StoredAbove, DiskByte, Moved;
    RegularIsFile(w.s, x.p, x.fd);
    var h := HandleOf(w.s.fs, x.p, x.fd);
    var bytes, base := files[h.file], InodeNow(w.s.fs, h.file).start * SECTOR_SIZE;
    if h.pos + x.len <= |bytes| {
      MovesAll(h.pos, x.len, |bytes|);
      forall i | 0 <= i < x.len
        ensures x.out[i] == bytes[h.pos + i]
      {
        assert ByteIs(w.sectors, base + h.pos + i, x.out[i]);
        assert ByteIs(w.sectors, base + (h.pos + i), bytes[h.pos + i]);
      }
    }
  }

  /** A write within the capacity of the file stores everything. */
  lemma WriteTakesAll(w: World, x: Step, w': World, files: Files)
    requires Represents(w, files) && x.Write? && Takes(w, x, w')
    ensures Shaped(w.s.fs)
    ensures var h := HandleOf(w.s.fs, x.p, x.fd);
            && h.Handle? && h.file in files && h.pos <= |files[h.file]| && x.moved <= |x.data|
            && (h.pos + |x.data| <= NR_DEFAULT_FILE_SECTS * SECTOR_SIZE ==> x.moved == |x.data|)
  {
    hide DiskOk, RefsOk, HaltsWhen, Transferred, StoredAbove, DiskByte, Moved, Holds;
    RegularIsFile(w.s, x.p, x.fd);
    var h := HandleOf(w.s.fs, x.p, x.fd);
    FilePlace(w.s, h.file);
    if h.pos + |x.data| <= NR_DEFAULT_FILE_SECTS * SECTOR_SIZE {
      MovesAll(h.pos, |x.data|, NR_DEFAULT_FILE_SECTS * SECTOR_SIZE);
    }
  }

  // ---- runs ----------------------------------------------------------------

  ghost predicate Run(worlds: seq<World>, steps: seq<Step>) {
    && |worlds| == |steps| + 1
    && forall i :: 0 <= i < |steps| ==> Shaped(worlds[i].s.fs) && Takes(worlds[i], steps[i], worlds[i + 1])
  }

  /** The files after the first i steps. */
  ghost function FilesAt(files: Files, worlds: seq<World>, steps: seq<Step>, i: nat): Files
    requires Run(worlds, steps) && i <= |steps|
  {
    if i == 0 then files else After(FilesAt(files, worlds, steps, i - 1), worlds[i - 1].s, steps[i - 1])
  }

  /** Over any run the disk holds the files. */
  lemma {:induction false} RunKeepsFiles(files: Files, worlds: seq<World>, steps: seq<Step>, i: nat)
    requires Run(worlds, steps) && Represents(worlds[0], files) && i <= |steps|
    ensures Represents(worlds[i], FilesAt(files, worlds, steps, i))
  {
    hide Represents, Takes, After;
    if i == 0 {
    } else {
      RunKeepsFiles(files, worlds, steps, i - 1);
      assert Takes(worlds[i - 1], steps[i - 1], worlds[i - 1 + 1]);
      StepKeepsFiles(worlds[i - 1], steps[i - 1], worlds[i], FilesAt(files, worlds, steps, i - 1));
    }
  }

  /** After mkfs there is one file, cmd.tar, with the bytes that are in its sectors. */
  lemma FilesOfMkfs(w: World) returns (files: Files)
    requires Initial(w.s) && |w.sectors| > INSTALL_START_SECT + INSTALL_NR_SECTS
    ensures Represents(w, files) && files.Keys == {CMD_TAR_INODE}
    ensures |files[CMD_TAR_INODE]| == INSTALL_NR_SECTS * SECTOR_SIZE
  {
    hide DiskOk, RefsOk, DiskByte;
    InitialShaped(w.s);
    InitialDisk(w.s);
    InitialRefs(w.s);
    var bytes := seq(INSTALL_NR_SECTS * SECTOR_SIZE, i requires 0 <= i < INSTALL_NR_SECTS * SECTOR_SIZE =>
      DiskByte(w.sectors, INSTALL_START_SECT * SECTOR_SIZE + i));
    files := map[CMD_TAR_INODE := bytes];
  }

  // ---- one transfer after the other ----------------------------------------

  /** The step neither closes the entry fd of p, nor moves its position, nor stores into its file. */
  ghost predicate Untouched(s: State, x: Step, p: Pid, fd: nat)
    requires Shaped(s.fs)
  {
    var h := HandleOf(s.fs, p, fd);
    match x
    case Read(q, g, len, out) =>
      var o := HandleOf(s.fs, q, g);
      o.Handle? && h.Handle? ==>
        o.file != h.file ||
        (o.desc != h.desc && 1 < o.file <= NR_INODES && o.pos + |out| <= InodeNow(s.fs, o.file).size)
    case Write(q, g, data, moved) =>
      var o := HandleOf(s.fs, q, g);
      o.Handle? && h.Handle? ==> o.file != h.file
    case Other(r) => !(r.DoClose? && r.p == p && r.fd == fd) && !(r.DoExit? && r.p == p)
  }

  lemma OtherLeavesHandle(s: State, r: Request, p: Pid, fd: nat)
    requires Inv(s) && Allowed(s, r) && !r.DoTransfer? && Serve(s.fs, r).Reply?
    requires Shaped(s.fs) && HandleOf(s.fs, p, fd).Handle? && Untouched(s, Other(r), p, fd)
    ensures Shaped(Serve(s.fs, r).fs) && HandleOf(Serve(s.fs, r).fs, p, fd) == HandleOf(s.fs, p, fd)
  {
    hide DiskOk, RefsOk, Serve, HandleOf, KeepsInodes, SetsInode, HaltsWhen, Search;
    StepKeepsInv(s, r);
    match r
    case DoOpen(q, path, creat, rdwr) => if creat { CreateEffect(s, r); } else { OpenEffect(s, r); }
    case DoClose(q, g) => CloseEffect(s, r);
    case DoUnlink(q, path) => UnlinkEffect(s, r);
    case DoStat(q, path) => StatEffect(s, r);
    case DoForkCopy(parent, child) =>
      ForkCopyEffect(s, r);
      ChildHasNone(s, r, fd);
    case DoForkCount(child) => ForkCountEffect(s, r);
    case DoExit(q) => ExitEffect(s, r);
  }

  lemma ChildHasNone(s: State, r: Request, fd: nat)
    requires Shaped(s.fs) && r.DoForkCopy? && Allowed(s, r)
    ensures HandleOf(s.fs, r.child, fd) == NoFile
  {
  }

  lemma OtherLeavesFile(s: State, r: Request, files: Files, p: Pid, fd: nat)
    requires Inv(s) && Shaped(s.fs) && HandleOf(s.fs, p, fd).Handle? && HandleOf(s.fs, p, fd).file in files
    ensures HandleOf(s.fs, p, fd).file in After(files, s, Other(r))
    ensures After(files, s, Other(r))[HandleOf(s.fs, p, fd).file] == files[HandleOf(s.fs, p, fd).file]
  {
    hide DiskOk, RefsOk, HandleOf, Creates, Least, Search, InUse, InodeNow;
    var h := HandleOf(s.fs, p, fd);
    HandleIsLive(s, p, fd);
    FreeInodeFacts(s.fs, s.owner);
    UsedInode(s, h.file);
  }

  lemma StepLeavesFile(w: World, x: Step, w': World, files: Files, p: Pid, fd: nat)
    requires Represents(w, files) && Takes(w, x, w') && Shaped(w.s.fs) && Untouched(w.s, x, p, fd)
    requires HandleOf(w.s.fs, p, fd).Handle? && HandleOf(w.s.fs, p, fd).file in files
    ensures var h := HandleOf(w.s.fs, p, fd);
            && Shaped(w'.s.fs) && HandleOf(w'.s.fs, p, fd) == h
            && h.file in After(files, w.s, x) && After(files, w.s, x)[h.file] == files[h.file]
  {
    hide FsRun.Inv, Represents, Moves, HandleOf;
    InvOf(w, files);
    match x
    case Read(q, g, len, out) =>
      TransferredFile(w, q, g, true, len, [], out, |out|, w');
      ReadLeavesFile(w, x, w', files, p, fd);
    case Write(q, g, data, moved) =>
      TransferredFile(w, q, g, false, |data|, data, [], moved, w');
      TransferLeaves(w, q, g, data[..moved], w', files, p, fd);
    case Other(r) =>
      AdvanceModel(w.s, r);
      OtherLeavesHandle(w.s, r, p, fd);
      OtherLeavesFile(w.s, r, files, p, fd);
  }

  /** A transfer through another descriptor does not move the position. */
  lemma TransferLeaves(w: World, q: Pid, g: nat, part: seq<bv8>, w': World, files: Files, p: Pid, fd: nat)
    requires Shaped(w.s.fs) && Shaped(w'.s.fs) && Transfers(w, q, g, part, w')
    requires HandleOf(w.s.fs, p, fd).Handle? && HandleOf(w.s.fs, p, fd).file in files
    requires HandleOf(w.s.fs, q, g).desc != HandleOf(w.s.fs, p, fd).desc ||
             HandleOf(w.s.fs, q, g).file != HandleOf(w.s.fs, p, fd).file
    ensures HandleOf(w'.s.fs, p, fd) == HandleOf(w.s.fs, p, fd)
    ensures var h, o := HandleOf(w.s.fs, p, fd), HandleOf(w.s.fs, q, g);
            && h.file in WithPart(files, o, part)
            && (o.file != h.file ==> WithPart(files, o, part)[h.file] == files[h.file])
  {
    hide HandleOf, SetsInode, Wrote, InodeNow;
    var h, o := HandleOf(w.s.fs, p, fd), HandleOf(w.s.fs, q, g);
    if o.desc == h.desc {
      SameDescriptor(w.s.fs, p, fd, q, g);
    }
  }

  lemma ReadLeavesFile(w: World, x: Step, w': World, files: Files, p: Pid, fd: nat)
    requires Represents(w, files) && x.Read? && Takes(w, x, w') && Shaped(w.s.fs) && Untouched(w.s, x, p, fd)
    requires Shaped(w'.s.fs) && Transfers(w, x.p, x.fd, x.out, w')
    requires HandleOf(w.s.fs, p, fd).Handle? && HandleOf(w.s.fs, p, fd).file in files
    ensures var h := HandleOf(w.s.fs, p, fd);
            && HandleOf(w'.s.fs, p, fd) == h
            && h.file in After(files, w.s, x) && After(files, w.s, x)[h.file] == files[h.file]
  {
    hide FsRun.Inv, Moves, HandleOf, SetsInode, Wrote;
    var h, o := HandleOf(w.s.fs, p, fd), HandleOf(w.s.fs, x.p, x.fd);
    TransferLeaves(w, x.p, x.fd, x.out, w', files, p, fd);
    if o.file == h.file {
      ReadKeepsBytes(w, x, w', files);
    }
  }

  /** Reading within a file stores nothing new. */
  lemma ReadKeepsBytes(w: World, x: Step, w': World, files: Files)
    requires Represents(w, files) && x.Read? && Takes(w, x, w') && Shaped(w.s.fs)
    requires var h := HandleOf(w.s.fs, x.p, x.fd);
             h.Handle? && h.file in files && h.pos + |x.out| <= |files[h.file]|
    ensures After(files, w.s, x) == files
  {
    hide DiskOk, RefsOk, HaltsWhen, Transferred, StoredAbove, DiskByte, Moved;
    RegularIsFile(w.s, x.p, x.fd);
    var h := HandleOf(w.s.fs, x.p, x.fd);
    var bytes, base := files[h.file], InodeNow(w.s.fs, h.file).start * SECTOR_SIZE;
    forall i | 0 <= i < |x.out|
      ensures x.out[i] == bytes[h.pos + i]
    {
      assert ByteIs(w.sectors, base + h.pos + i, x.out[i]);
      assert ByteIs(w.sectors, base + (h.pos + i), bytes[h.pos + i]);
    }
    assert Overwritten(bytes, h.pos, x.out) == bytes;
  }

  ghost predicate Idle(worlds: seq<World>, steps: seq<Step>, i: nat, j: nat, p: Pid, fd: nat)
    requires Run(worlds, steps) && i <= j <= |steps|
  {
    forall k :: i <= k < j ==> Untouched(worlds[k].s, steps[k], p, fd)
  }

  /** The world after i steps, and what its files are. */
  ghost predicate Reached(files: Files, worlds: seq<World>, steps: seq<Step>, i: nat) {
    && Run(worlds, steps) && i <= |steps| && Shaped(worlds[i].s.fs)
    && Represents(worlds[i], FilesAt(files, worlds, steps, i))
  }

  lemma AllReached(files: Files, worlds: seq<World>, steps: seq<Step>, i: nat)
    requires Run(worlds, steps) && Represents(worlds[0], files) && i <= |steps|
    ensures Reached(files, worlds, steps, i)
  {
    hide Takes, Represents;
    RunKeepsFiles(files, worlds, steps, i);
    InvOf(worlds[i], FilesAt(files, worlds, steps, i));
  }

  lemma {:induction false} IdleKeeps(files: Files, worlds: seq<World>, steps: seq<Step>, i: nat, j: nat, p: Pid,
                                     fd: nat)
    requires Run(worlds, steps) && Represents(worlds[0], files) && i <= j <= |steps|
    requires Shaped(worlds[i].s.fs) && Idle(worlds, steps, i, j, p, fd)
    requires var h := HandleOf(worlds[i].s.fs, p, fd); h.Handle? && h.file in FilesAt(files, worlds, steps, i)
    ensures var h := HandleOf(worlds[i].s.fs, p, fd);
            && Shaped(worlds[j].s.fs) && HandleOf(worlds[j].s.fs, p, fd) == h
            && h.file in FilesAt(files, worlds, steps, j)
            && FilesAt(files, worlds, steps, j)[h.file] == FilesAt(files, worlds, steps, i)[h.file]
  {
    hide Represents, Takes, After, HandleOf, Untouched;
    if i == j {
    } else {
      IdleKeeps(files, worlds, steps, i, j - 1, p, fd);
      AllReached(files, worlds, steps, j - 1);
      assert Takes(worlds[j - 1], steps[j - 1], worlds[j - 1 + 1]);
      StepLeavesFile(worlds[j - 1], steps[j - 1], worlds[j], FilesAt(files, worlds, steps, j - 1), p, fd);
    }
  }

  /** A transfer moves the position of its own entry. */
  lemma TransferMoves(w: World, p: Pid, fd: nat, part: seq<bv8>, w': World)
    requires Shaped(w.s.fs) && Shaped(w'.s.fs) && Transfers(w, p, fd, part, w')
    ensures var h := HandleOf(w.s.fs, p, fd); HandleOf(w'.s.fs, p, fd) == h.(pos := h.pos + |part|)
  {
    hide HandleOf, SetsInode, Wrote, InodeNow;
  }

  /** One write through the entry: the file and the position afterwards. */
  lemma WriteStores(w: World, x: Step, w': World, files: Files)
    requires Represents(w, files) && x.Write? && Takes(w, x, w') && Shaped(w.s.fs)
    requires var h := HandleOf(w.s.fs, x.p, x.fd);
             h.Handle? ==> h.pos + |x.data| <= NR_DEFAULT_FILE_SECTS * SECTOR_SIZE
    ensures var h := HandleOf(w.s.fs, x.p, x.fd);
            && h.Handle? && h.file in files && h.pos <= |files[h.file]|
            && Shaped(w'.s.fs) && HandleOf(w'.s.fs, x.p, x.fd) == h.(pos := h.pos + |x.data|)
            && After(files, w.s, x) == files[h.file := Overwritten(files[h.file], h.pos, x.data)]
  {
    hide FsRun.Inv, Represents, Moves, Transfers, HandleOf, After, Overwritten;
    InvOf(w, files);
    WriteTakesAll(w, x, w', files);
    WriteAfter(files, w.s, x);
    TransferredFile(w, x.p, x.fd, false, |x.data|, x.data, [], x.moved, w');
    TransferMoves(w, x.p, x.fd, x.data[..x.moved], w');
    assert x.data[..|x.data|] == x.data;
  }

  /** Two writes through an entry that nobody touches in between: the second continues the first. */
  lemma WritesAppend(files: Files, worlds: seq<World>, steps: seq<Step>, i: nat, j: nat)
    requires Run(worlds, steps) && Represents(worlds[0], files) && i < j < |steps|
    requires steps[i].Write? && steps[j].Write? && steps[j].p == steps[i].p && steps[j].fd == steps[i].fd
    requires Idle(worlds, steps, i + 1, j, steps[i].p, steps[i].fd)
    requires var h := HandleOf(worlds[i].s.fs, steps[i].p, steps[i].fd);
             h.Handle? ==> h.pos + |steps[i].data| + |steps[j].data| <= NR_DEFAULT_FILE_SECTS * SECTOR_SIZE
    ensures var h, before, now := HandleOf(worlds[i].s.fs, steps[i].p, steps[i].fd), FilesAt(files, worlds, steps, i),
                                  FilesAt(files, worlds, steps, j + 1);
            && h.Handle? && h.file in before && h.file in now && h.pos <= |before[h.file]|
            && now[h.file] == Overwritten(before[h.file], h.pos, steps[i].data + steps[j].data)
  {
    hide Represents, Takes, HandleOf, Untouched, After;
    AllReached(files, worlds, steps, i);
    AllReached(files, worlds, steps, j);
    assert Takes(worlds[i], steps[i], worlds[i + 1]) && Takes(worlds[j], steps[j], worlds[j + 1]);
    WriteStores(worlds[i], steps[i], worlds[i + 1], FilesAt(files, worlds, steps, i));
    IdleKeeps(files, worlds, steps, i + 1, j, steps[i].p, steps[i].fd);
    WriteStores(worlds[j], steps[j], worlds[j + 1], FilesAt(files, worlds, steps, j));
    var h := HandleOf(worlds[i].s.fs, steps[i].p, steps[i].fd);
    OverwrittenTwice(FilesAt(files, worlds, steps, i)[h.file], h.pos, steps[i].data, steps[j].data);
  }

  lemma OverwrittenTwice(bytes: seq<bv8>, pos: nat, a: seq<bv8>, b: seq<bv8>)
    requires pos <= |bytes|
    ensures Overwritten(Overwritten(bytes, pos, a), pos + |a|, b) == Overwritten(bytes, pos, a + b)
  {
    var mid := Overwritten(bytes, pos, a);
    assert mid[..pos + |a|] == bytes[..pos] + a;
  }

  /** One read within the file: the bytes, and the position afterwards. */
  lemma ReadReturns(w: World, x: Step, w': World, files: Files)
    requires Represents(w, files) && x.Read? && Takes(w, x, w') && Shaped(w.s.fs)
    requires var h := HandleOf(w.s.fs, x.p, x.fd); h.Handle? && h.file in files ==> h.pos + x.len <= |files[h.file]|
    ensures var h := HandleOf(w.s.fs, x.p, x.fd);
            && h.Handle? && h.file in files && h.pos + x.len <= |files[h.file]|
            && x.out == files[h.file][h.pos..h.pos + x.len] && After(files, w.s, x) == files
            && Shaped(w'.s.fs) && HandleOf(w'.s.fs, x.p, x.fd) == h.(pos := h.pos + x.len)
  {
    hide FsRun.Inv, Represents, Moves, Transfers, HandleOf, After;
    InvOf(w, files);
    ReadGivesBytes(w, x, w', files);
    ReadKeepsBytes(w, x, w', files);
    TransferredFile(w, x.p, x.fd, true, x.len, [], x.out, |x.out|, w');
    TransferMoves(w, x.p, x.fd, x.out, w');
  }

  /** Two reads through an entry that nobody touches in between return consecutive bytes. */
  lemma ReadsContinue(files: Files, worlds: seq<World>, steps: seq<Step>, i: nat, j: nat)
    requires Run(worlds, steps) && Represents(worlds[0], files) && i < j < |steps|
    requires steps[i].Read? && steps[j].Read? && steps[j].p == steps[i].p && steps[j].fd == steps[i].fd
    requires Idle(worlds, steps, i + 1, j, steps[i].p, steps[i].fd)
    requires var h, now := HandleOf(worlds[i].s.fs, steps[i].p, steps[i].fd), FilesAt(files, worlds, steps, i);
             h.Handle? && h.file in now ==> h.pos + steps[i].len + steps[j].len <= |now[h.file]|
    ensures var h, now := HandleOf(worlds[i].s.fs, steps[i].p, steps[i].fd), FilesAt(files, worlds, steps, i);
            && h.Handle? && h.file in now && h.pos + steps[i].len + steps[j].len <= |now[h.file]|
            && steps[i].out + steps[j].out == now[h.file][h.pos..h.pos + steps[i].len + steps[j].len]
  {
    hide Represents, Takes, HandleOf, Untouched, After;
    AllReached(files, worlds, steps, i);
    AllReached(files, worlds, steps, j);
    assert Takes(worlds[i], steps[i], worlds[i + 1]) && Takes(worlds[j], steps[j], worlds[j + 1]);
    ReadReturns(worlds[i], steps[i], worlds[i + 1], FilesAt(files, worlds, steps, i));
    IdleKeeps(files, worlds, steps, i + 1, j, steps[i].p, steps[i].fd);
    ReadReturns(worlds[j], steps[j], worlds[j + 1], FilesAt(files, worlds, steps, j));
  }

  // ---- the code ------------------------------------------------------------

  /** A request that the server served is a step. */
  lemma ServedTakes(s0: State, before: seq<Sector>, r: Request, s1: State, after: seq<Sector>, k: nat, ret: int)
    requires Served(s0, r, true, s1, ret) && !r.DoTransfer? && s0.fs.n1 == FirstSect(k)
    requires DataKept(before, after, k)
    ensures Takes(World(s0, before), Other(r), World(s1, after))
  {
    hide Serve, Allowed, Advance, HaltsWhen;
  }

  /** A transfer that the server made, with the bytes within the sectors of a regular file, is a step. */
  lemma RwTakes(s0: State, before: seq<Sector>, p: Pid, fd: nat, read: bool, len: nat, data: seq<bv8>, r: RwResult,
                s1: State, after: seq<Sector>)
    requires RwMoves(s0.fs, before, p, fd, read, len, data, r, s1.fs, after) && RwServed(s0, p, fd, r, s1)
    requires r.Done? && Accepts(s0, DoTransfer(p, fd, r.moved))
    ensures Takes(World(s0, before), if read then Read(p, fd, len, r.out) else Write(p, fd, data, r.moved),
                  World(s1, after))
  {
    hide Allowed, Advance, StoredAbove, Holds, Moved, Transferred;
  }

  /** From mkfs: opening "/" and reading a sector from it moves a whole sector, and leaves a disk that is
      not consistent. */
  lemma DirectoryReadBreaks(s: State, p: Pid) returns (requests: seq<Request>, s': State, fd: nat)
    requires Initial(s)
    ensures FsRun.Run(s, requests, s') && Shaped(s'.fs) && OpenFile(s'.fs, p, fd) && s'.fs.filp[p][fd] != NULL
    ensures HandleOf(s'.fs, p, fd).file == ROOT_INODE && HandleOf(s'.fs, p, fd).pos == 0
    ensures Moved(0, SECTOR_SIZE, RootSize(s'.fs)) == SECTOR_SIZE
    ensures !exists owner' :: DiskOk(Transferred(s'.fs, s'.fs.filp[p][fd], SECTOR_SIZE), owner')
  {
    hide DiskOk, RefsOk, HandleOf, Serve, Advance, Transferred, KeepsInodes;
    InitialShaped(s);
    InitialDisk(s);
    InitialRefs(s);
    var r := DoOpen(p, [SLASH], false, true);
    InitialOpens(s, p);
    StepKeepsInv(s, r);
    OpenEffect(s, r);
    AdvanceModel(s, r);
    s', fd, requests := Advance(s, r), Serve(s.fs, r).ret, [r];
    assert [r][1..] == [];
    assert FsRun.Run(s', [], s');
    HandleIsOpen(s'.fs, p, fd);
    OpenKeepsRootSize(s, r);
    DirectoryReadExactly(s', p, fd, SECTOR_SIZE);
  }

  lemma InitialOpens(s: State, p: Pid)
    requires Initial(s)
    ensures Shaped(s.fs) && Search(s.fs, [SLASH]) == ROOT_INODE && RootSize(s.fs) == 80
    ensures Allowed(s, DoOpen(p, [SLASH], false, true)) && !HaltsWhen(s, DoOpen(p, [SLASH], false, true))
  {
  }

  lemma HandleIsOpen(fs: Fs, p: Pid, fd: nat)
    requires Shaped(fs) && HandleOf(fs, p, fd).Handle?
    ensures OpenFile(fs, p, fd) && fs.filp[p][fd] != NULL
  {
  }

  lemma OpenKeepsRootSize(s: State, r: Request)
    requires Shaped(s.fs) && Accepts(s, r) && Serve(s.fs, r).Reply? && KeepsInodes(s.fs, Serve(s.fs, r).fs)
    ensures RootSize(Serve(s.fs, r).fs) == RootSize(s.fs)
  {
    hide Serve;
    assert InodeNow(Serve(s.fs, r).fs, ROOT_INODE) == InodeNow(s.fs, ROOT_INODE);
  }
}
