/** Whole runs of the file system from mkfs on: the disk stays consistent, the reference counts
    stay right, and requests stop the machine only in the cases listed in HaltsWhen. */
module FsRun {
  import opened ProcTable
  import opened Bits
  import opened Records
  import opened Directory
  import opened FsModel
  import opened FsInvariant
  import opened FsRefs

  datatype Request =
    | DoOpen(p: Pid, path: seq<bv8>, creat: bool, rdwr: bool)
    | DoClose(p: Pid, fd: nat)
    | DoUnlink(p: Pid, path: seq<bv8>)
    | DoStat(p: Pid, path: seq<bv8>)
    | DoTransfer(p: Pid, fd: nat, bytes: nat)
    | DoForkCopy(parent: Pid, child: Pid)
    | DoForkCount(child: Pid)
    | DoExit(p: Pid)

  /** The file system with the bookkeeping of the proof: who occupies which run, which slots hold
      leaked references, and the fork in progress. */
  datatype State = State(fs: Fs, owner: Owner, leaks: seq<nat>, pend: Pending)

  ghost predicate Inv(s: State) {
    Shaped(s.fs) && DiskOk(s.fs, s.owner) && RefsOk(s.fs, s.leaks, s.pend, NULL)
  }

  /** The descriptor behind an open file of p, and its inode. */
  ghost predicate OpenFile(fs: Fs, p: Pid, fd: nat)
    requires Shaped(fs)
  {
    && fd < NR_FILES && 0 <= fs.filp[p][fd] < NR_FILE_DESC
    && 0 <= fs.desc[fs.filp[p][fd]].inode < NR_INODE
  }

  /** What callers must respect: C strings as paths, names that fit when a file is created, a path
      that fits do_unlink's buffer, which does not test it, cmd.tar is kept, transfers stay within
      a regular file's sectors, a child's slot has no files, and the two sides of a pending fork
      wait. */
  ghost predicate Allowed(s: State, r: Request)
    requires Shaped(s.fs)
  {
    match r
    case DoOpen(p, path, creat, rdwr) =>
      Acts(s.pend, p) && CString(path) && (creat && Search(s.fs, path) == 0 ==> NameFits(s.fs, NamePart(path)))
    case DoClose(p, fd) => Acts(s.pend, p) && fd < NR_FILES
    case DoUnlink(p, path) =>
      Acts(s.pend, p) && CString(path) && |path| < MAX_PATH_LEN && Search(s.fs, path) != CMD_TAR_INODE
    case DoStat(p, path) => Acts(s.pend, p) && CString(path)
    case DoTransfer(p, fd, bytes) =>
      && Acts(s.pend, p) && OpenFile(s.fs, p, fd)
      && (var c := s.fs.cache[s.fs.desc[s.fs.filp[p][fd]].inode];
          c.disk.mode == I_REGULAR && s.fs.desc[s.fs.filp[p][fd]].pos + bytes <= c.disk.nrSects * SECTOR_SIZE)
    case DoForkCopy(parent, child) =>
      s.pend.Nobody? && parent != child && forall j :: 0 <= j < NR_FILES ==> s.fs.filp[child][j] == NULL
    case DoForkCount(child) => s.pend.Forking? && s.pend.child == child && s.pend.counted == 0
    case DoExit(p) => Acts(s.pend, p)
  }

  ghost function Serve(fs: Fs, r: Request): Reply
    requires Shaped(fs) && (r.DoClose? ==> r.fd < NR_FILES) && (r.DoTransfer? ==> OpenFile(fs, r.p, r.fd))
  {
    match r
    case DoOpen(p, path, creat, rdwr) => Open(fs, p, path, creat, rdwr)
    case DoClose(p, fd) => Close(fs, p, fd)
    case DoUnlink(p, path) => Unlink(fs, path)
    case DoStat(p, path) => Stat(fs, path)
    case DoTransfer(p, fd, bytes) => Reply(Transferred(fs, fs.filp[p][fd], bytes), bytes)
    case DoForkCopy(parent, child) => Reply(ForkCopy(fs, parent, child), 0)
    case DoForkCount(child) => ForkCount(fs, child, 0)
    case DoExit(p) => Exit(fs, p, 0)
  }

  /** Exactly these requests stop the machine: an open or a stat with a path that does not fit the
      buffer, a full table of open files, a fifteenth file, an open that asks for nothing, closing
      what is not open, and unlinking what does not exist. */
  ghost predicate HaltsWhen(s: State, r: Request)
    requires Shaped(s.fs)
  {
    match r
    case DoOpen(p, path, creat, rdwr) =>
      || |path| >= MAX_PATH_LEN || FirstNull(s.fs.filp[p]) == NR_FILES || FreeDesc(s.fs.desc) == NR_FILE_DESC
      || (if creat then Search(s.fs, path) == 0 && SLASH !in NamePart(path) && FreeRun(s.owner) == GRID
          else !rdwr)
    case DoClose(p, fd) => fd < NR_FILES && s.fs.filp[p][fd] == NULL
    case DoUnlink(p, path) => path != [SLASH] && Search(s.fs, path) == 0
    case DoStat(p, path) => |path| >= MAX_PATH_LEN
    case _ => false
  }

  // ---- the bookkeeping -----------------------------------------------------

  ghost predicate Creates(s: State, r: Request)
    requires Shaped(s.fs)
  {
    r.DoOpen? && r.creat && Search(s.fs, r.path) == 0 && SLASH !in NamePart(r.path)
  }

  /** The unlink got as far as fetching the inode. */
  ghost predicate Fetches(s: State, r: Request)
    requires Shaped(s.fs)
  {
    r.DoUnlink? && r.path != [SLASH] && Search(s.fs, r.path) != 0 &&
    GetInode(s.fs.cache, s.fs.view.recs, Search(s.fs, r.path)).Fetched?
  }

  ghost predicate Refused(s: State, r: Request)
    requires Shaped(s.fs) && Fetches(s, r)
  {
    var f := GetInode(s.fs.cache, s.fs.view.recs, Search(s.fs, r.path));
    f.cache[f.slot].disk.mode != I_REGULAR || f.cache[f.slot].cnt > 1
  }

  ghost function Advance(s: State, r: Request): State
    requires Shaped(s.fs) && Allowed(s, r) && Serve(s.fs, r).Reply?
  {
    var fs' := Serve(s.fs, r).fs;
    if Creates(s, r) && FreeRun(s.owner) < |s.owner| then
      s.(fs := fs', owner := Occupy(s.owner, Least(s.fs.view.inodeMap)))
    else if Fetches(s, r) && Refused(s, r) then
      var slot := GetInode(s.fs.cache, s.fs.view.recs, Search(s.fs, r.path)).slot;
      s.(fs := fs', leaks := if slot < |s.leaks| then s.leaks[slot := s.leaks[slot] + 1] else s.leaks)
    else if Fetches(s, r) then
      s.(fs := fs', owner := Vacate(s.owner, Search(s.fs, r.path)))
    else if r.DoForkCopy? then s.(fs := fs', pend := Forking(r.parent, r.child, 0))
    else if r.DoForkCount? then s.(fs := fs', pend := Nobody)
    else s.(fs := fs')
  }

  lemma AdvanceModel(s: State, r: Request)
    requires Shaped(s.fs) && Allowed(s, r) && Serve(s.fs, r).Reply?
    ensures Advance(s, r).fs == Serve(s.fs, r).fs
  {
    hide Serve, Allowed, Creates, Fetches, Refused;
  }

  lemma LeaksGrow(s: State, r: Request)
    requires Shaped(s.fs) && Allowed(s, r) && Serve(s.fs, r).Reply?
    ensures |Advance(s, r).leaks| == |s.leaks|
    ensures forall i :: 0 <= i < |s.leaks| ==> Advance(s, r).leaks[i] >= s.leaks[i]
  {
    hide Serve, Allowed, Refused, Search, GetInode, Occupy, Vacate;
  }

  // ---- one request at a time -----------------------------------------------

  lemma CachedIsOpenable(fs: Fs, owner: Owner, slot: nat)
    requires DiskOk(fs, owner) && slot < NR_INODE && fs.cache[slot].cnt != 0
    ensures Openable(fs.cache[slot])
    ensures fs.cache[slot].disk.mode in {I_DIRECTORY, I_CHAR_SPECIAL, I_REGULAR}
  {
    hide MapsOk, DirOk;
    var c := fs.cache[slot];
    assert c.num == 1 || c.num == 2 || c.num == 3 || c.num == 4 || c.num == 5 || c.num in owner;
    assert AgreesWith(c, fs.view.recs[c.num - 1]);
    if c.num > 5 {
      var t :| 0 <= t < GRID && owner[t] == c.num;
    }
  }

  lemma ConnectKeepsDisk(fs: Fs, owner: Owner, p: Pid, fd: nat, d: nat, slot: nat, rdwr: bool)
    requires DiskOk(fs, owner) && slot < NR_INODE && fs.cache[slot].cnt != 0
    requires fd < NR_FILES && d < NR_FILE_DESC
    ensures Connect(fs, p, fd, d, slot, rdwr).Reply?
    ensures DiskOk(Connect(fs, p, fd, d, slot, rdwr).fs, owner)
  {
    CachedIsOpenable(fs, owner, slot);
  }

  lemma OpenExisting(s: State, r: Request)
    requires Inv(s) && r.DoOpen? && !r.creat && Allowed(s, r)
    ensures Serve(s.fs, r).Reply? <==> !HaltsWhen(s, r)
    ensures Serve(s.fs, r).Reply? ==> Inv(Advance(s, r))
  {
    hide DiskOk, RefsOk, Search, GetInode, Connect;
    var fd, d, nr := FirstNull(s.fs.filp[r.p]), FreeDesc(s.fs.desc), Search(s.fs, r.path);
    if |r.path| < MAX_PATH_LEN && fd < NR_FILES && d < NR_FILE_DESC && r.rdwr && nr != 0 {
      SearchFinds(s.fs, s.owner, r.path);
      FetchOk(s.fs, s.owner, nr);
      var f := GetInode(s.fs.cache, s.fs.view.recs, nr);
      var fs1 := s.fs.(cache := f.cache);
      CountsMove(s.fs, fs1, s.leaks, s.pend, NULL, f.slot);
      ConnectKeepsDisk(fs1, s.owner, r.p, fd, d, f.slot, r.rdwr);
      LinkKeepsRefs(fs1, s.leaks, s.pend, r.p, fd, d, f.slot, r.rdwr);
    }
  }

  lemma OpenNew(s: State, r: Request)
    requires Inv(s) && r.DoOpen? && r.creat && Allowed(s, r)
    ensures Serve(s.fs, r).Reply? <==> !HaltsWhen(s, r)
    ensures Serve(s.fs, r).Reply? ==> Inv(Advance(s, r))
  {
    hide DiskOk, RefsOk, Search, CreateFile, Connect;
    var fd, d, nr := FirstNull(s.fs.filp[r.p]), FreeDesc(s.fs.desc), Search(s.fs, r.path);
    OwnerSize(s);
    if |r.path| < MAX_PATH_LEN && fd < NR_FILES && d < NR_FILE_DESC && nr == 0 && SLASH !in NamePart(r.path) {
      CreateKeepsDisk(s.fs, s.owner, r.path);
      if FreeRun(s.owner) < GRID {
        var c := CreateFile(s.fs, r.path);
        CreateKeepsRefs(s, r.path, c);
        ConnectKeepsDisk(c.fs, Occupy(s.owner, Least(s.fs.view.inodeMap)), r.p, fd, d, c.slot, r.rdwr);
        LinkKeepsRefs(c.fs, s.leaks, s.pend, r.p, fd, d, c.slot, r.rdwr);
      }
    }
  }

  lemma OwnerSize(s: State)
    requires Inv(s)
    ensures |s.owner| == GRID
  {
  }

  lemma CreateKeepsRefs(s: State, path: seq<bv8>, c: Created)
    requires Inv(s) && c.Created? && c == CreateFile(s.fs, path) && s.fs.cache[c.slot].cnt == 0
    requires c.fs.cache[c.slot].cnt == 1
    ensures RefsOk(c.fs, s.leaks, s.pend, c.slot)
    ensures c.fs.filp == s.fs.filp && c.fs.desc == s.fs.desc
  {
    hide DiskOk, RefsOk, AddEntry, Fill, NewInode, Least, FirstWith, Prefix, Uniform;
    forall i | 0 <= i < NR_INODE
      ensures c.fs.cache[i].cnt == s.fs.cache[i].cnt - One(i, NULL) + One(i, c.slot)
    {
    }
    CountsMove(s.fs, c.fs, s.leaks, s.pend, NULL, c.slot);
  }

  lemma CloseStep(s: State, r: Request)
    requires Inv(s) && r.DoClose? && Allowed(s, r)
    ensures Serve(s.fs, r).Reply? <==> !HaltsWhen(s, r)
    ensures Serve(s.fs, r).Reply? ==> Inv(Advance(s, r))
  {
    hide DiskOk, Drop;
    if s.fs.filp[r.p][r.fd] != NULL {
      CloseKeepsRefs(s.fs, s.leaks, s.pend, r.p, r.fd);
      ClosedKeepsDisk(s, r.p, r.fd);
    }
  }

  /** The root directory is never given up: init_fs holds a reference to it. */
  lemma ClosedKeepsDisk(s: State, p: Pid, fd: nat)
    requires Inv(s) && Acts(s.pend, p) && fd < NR_FILES && s.fs.filp[p][fd] != NULL
    requires OpenFile(s.fs, p, fd) && RefsOk(Closed(s.fs, p, fd), s.leaks, s.pend, NULL)
    ensures DiskOk(Closed(s.fs, p, fd), s.owner)
  {
    EntryIsLive(s.fs, s.leaks, s.pend, p, fd);
    RootHeld(Closed(s.fs, p, fd), s.leaks, s.pend, NULL);
    CountsOnly(s.fs.cache, Closed(s.fs, p, fd).cache, s.fs.view.recs, s.owner);
  }

  lemma RootHeld(fs: Fs, leaks: seq<nat>, pend: Pending, extra: int)
    requires RefsOk(fs, leaks, pend, extra)
    ensures fs.cache[ROOT_SLOT].cnt > 0
  {
    ReachNonnegative(fs.desc, NR_FILE_DESC, ROOT_SLOT);
  }

  lemma UnlinkStep(s: State, r: Request)
    requires Inv(s) && r.DoUnlink? && Allowed(s, r)
    ensures Serve(s.fs, r).Reply? <==> !HaltsWhen(s, r)
    ensures Serve(s.fs, r).Reply? ==> Inv(Advance(s, r))
  {
    hide DiskOk, RefsOk, Search, GetInode, Remove;
    var nr := Search(s.fs, r.path);
    if r.path != [SLASH] && nr != 0 {
      SearchFinds(s.fs, s.owner, r.path);
      FetchOk(s.fs, s.owner, nr);
      var f := GetInode(s.fs.cache, s.fs.view.recs, nr);
      var fs1 := s.fs.(cache := f.cache);
      CountsMove(s.fs, fs1, s.leaks, s.pend, NULL, f.slot);
      if Refused(s, r) {
        LeaksSize(fs1, s.leaks, s.pend, f.slot);
        Leak(fs1, s.leaks, s.pend, f.slot);
      } else {
        RemoveKeepsDisk(fs1, s.owner, nr, f.slot);
        RemoveKeepsRefs(fs1, s.leaks, s.pend, nr, f.slot);
      }
    }
  }

  /** An unlink that got as far as fetching the inode leaves the inode's count raised iff it was
      refused. */
  lemma UnlinkLeaksExactly(s: State, r: Request)
    requires Inv(s) && Allowed(s, r) && Fetches(s, r)
    ensures Serve(s.fs, r).Reply?
    ensures var slot, fs' := GetInode(s.fs.cache, s.fs.view.recs, Search(s.fs, r.path)).slot, Serve(s.fs, r).fs;
            && fs'.cache[slot].cnt == s.fs.cache[slot].cnt + (if Refused(s, r) then 1 else 0)
            && forall i :: 0 <= i < NR_INODE && i != slot ==> fs'.cache[i].cnt == s.fs.cache[i].cnt
  {
    hide DiskOk, RefsOk, Search, GetInode, Remove;
    var nr := Search(s.fs, r.path);
    SearchFinds(s.fs, s.owner, r.path);
    FetchOk(s.fs, s.owner, nr);
    var f := GetInode(s.fs.cache, s.fs.view.recs, nr);
    if !Refused(s, r) {
      PositiveCount(s.fs.(cache := f.cache), s.owner, f.slot);
      RemoveKeepsDisk(s.fs.(cache := f.cache), s.owner, nr, f.slot);
    }
  }

  lemma PositiveCount(fs: Fs, owner: Owner, slot: nat)
    requires DiskOk(fs, owner) && slot < NR_INODE
    ensures fs.cache[slot].cnt >= 0
  {
  }

  lemma LeaksSize(fs: Fs, leaks: seq<nat>, pend: Pending, extra: int)
    requires RefsOk(fs, leaks, pend, extra)
    ensures |leaks| == NR_INODE
  {
  }

  lemma RemoveKeepsRefs(fs: Fs, leaks: seq<nat>, pend: Pending, nr: U32, slot: nat)
    requires RefsOk(fs, leaks, pend, slot) && slot < NR_INODE && fs.cache[slot].cnt == 1 && nr >= 1
    requires Remove(fs, nr, slot).Reply? && Remove(fs, nr, slot).fs.cache[slot].cnt == 0
    requires forall i :: 0 <= i < NR_INODE && i != slot ==> Remove(fs, nr, slot).fs.cache[i].cnt == fs.cache[i].cnt
    ensures RefsOk(Remove(fs, nr, slot).fs, leaks, pend, NULL)
  {
    hide DescOk, FilpOk, InodesOk, FirstWith, Fill, LiveEnd, Uniform, Prefix;
    CountsMove(fs, Remove(fs, nr, slot).fs, leaks, pend, slot, NULL);
  }

  lemma StatStep(s: State, r: Request)
    requires Inv(s) && r.DoStat? && Allowed(s, r)
    ensures Serve(s.fs, r).Reply? <==> !HaltsWhen(s, r)
    ensures Serve(s.fs, r).Reply? ==> Inv(Advance(s, r))
  {
    hide RefsOk, Search, GetInode, MapsOk, RecordsOk, DirOk, CacheOk, OwnerOk;
    var nr := Search(s.fs, r.path);
    if |r.path| < MAX_PATH_LEN && nr != 0 {
      SearchFinds(s.fs, s.owner, r.path);
      FetchOk(s.fs, s.owner, nr);
      var f := GetInode(s.fs.cache, s.fs.view.recs, nr);
      var fs1, fs2 := s.fs.(cache := f.cache), Serve(s.fs, r).fs;
      CountsMove(s.fs, fs2, s.leaks, s.pend, NULL, NULL);
      RootHeld(fs2, s.leaks, s.pend, NULL);
      CountsOnlyDown(fs1, fs2, s.owner, f.slot);
    }
  }

  lemma CountsOnlyDown(fs: Fs, fs': Fs, owner: Owner, slot: nat)
    requires DiskOk(fs, owner) && slot < NR_INODE && fs.cache[slot].cnt > 0
    requires fs' == fs.(cache := fs.cache[slot := fs.cache[slot].(cnt := fs.cache[slot].cnt - 1)])
    requires fs'.cache[ROOT_SLOT].cnt > 0
    ensures DiskOk(fs', owner)
  {
    CountsOnly(fs.cache, fs'.cache, fs.view.recs, owner);
  }

  /** A transfer within a regular file's sectors. */
  lemma TransferStep(s: State, r: Request)
    requires Inv(s) && r.DoTransfer? && Allowed(s, r)
    ensures Inv(Advance(s, r))
  {
    hide RefsOk, DiskOk;
    TransferKeepsDisk(s, r.p, r.fd, r.bytes);
    TransferKeepsRefs(s, r.p, r.fd, r.bytes);
  }

  lemma TransferKeepsDisk(s: State, p: Pid, fd: nat, bytes: nat)
    requires Inv(s) && Allowed(s, DoTransfer(p, fd, bytes))
    ensures DiskOk(Transferred(s.fs, s.fs.filp[p][fd], bytes), s.owner)
  {
    hide DirOk, OwnerOk, MapsOk;
    EntryIsLive(s.fs, s.leaks, s.pend, p, fd);
    var fs' := Transferred(s.fs, s.fs.filp[p][fd], bytes);
    var i := s.fs.desc[s.fs.filp[p][fd]].inode;
    RegularNumber(s.fs, s.owner, i);
    GrowKeepsCache(s.fs.cache, s.fs.view.recs, s.owner, i, fs'.cache[i].disk);
    SizesAside(s.fs, fs', s.owner, s.fs.cache[i].num, fs'.cache[i].disk.size);
  }

  lemma RegularNumber(fs: Fs, owner: Owner, i: nat)
    requires DiskOk(fs, owner) && i < NR_INODE && fs.cache[i].cnt > 0 && fs.cache[i].disk.mode == I_REGULAR
    ensures CMD_TAR_INODE <= fs.cache[i].num < NR_INODES && i != ROOT_SLOT
    ensures fs.cache[i].disk == fs.view.recs[fs.cache[i].num - 1]
  {
    var c := fs.cache[i];
    assert AgreesWith(c, fs.view.recs[c.num - 1]);
  }

  /** Sizes of regular files play no part in the maps, the records' layout, or the directory. */
  lemma SizesAside(fs: Fs, fs': Fs, owner: Owner, num: nat, size: U32)
    requires DiskOk(fs, owner) && Shaped(fs') && CMD_TAR_INODE <= num < NR_INODES
    requires fs'.n1 == fs.n1 && fs'.view == fs.view.(recs := fs'.view.recs)
    requires fs'.view.recs == fs.view.recs ||
             fs'.view.recs == fs.view.recs[num - 1 := fs.view.recs[num - 1].(size := size)]
    ensures MapsOk(fs', owner) && RecordsOk(fs', owner)
  {
  }

  lemma GrowKeepsCache(cache: seq<CachedInode>, recs: seq<DiskInode>, owner: Owner, i: nat, disk: DiskInode)
    requires |cache| == NR_INODE && |recs| == NR_INODES && CacheOk(cache, recs, owner)
    requires i < NR_INODE && cache[i].cnt > 0 && cache[i].num != ROOT_INODE
    ensures 1 <= cache[i].num < NR_INODES
    ensures CacheOk(cache[i := cache[i].(disk := disk)], recs[cache[i].num - 1 := disk], owner)
  {
  }

  lemma TransferKeepsRefs(s: State, p: Pid, fd: nat, bytes: nat)
    requires Inv(s) && Allowed(s, DoTransfer(p, fd, bytes))
    ensures RefsOk(Transferred(s.fs, s.fs.filp[p][fd], bytes), s.leaks, s.pend, NULL)
  {
    hide DiskOk;
    var d := s.fs.filp[p][fd];
    var fs' := Transferred(s.fs, d, bytes);
    forall i | 0 <= i < NR_INODE
      ensures Reach(fs'.desc, NR_FILE_DESC, i) == Reach(s.fs.desc, NR_FILE_DESC, i)
    {
      ReachUpdate(s.fs.desc, NR_FILE_DESC, d, fs'.desc[d], i);
    }
    forall e | 0 <= e < NR_FILE_DESC
      ensures Refs(fs', s.pend, e) == Refs(s.fs, s.pend, e)
    {
    }
  }

  lemma {:induction false} ExitKeepsDisk(s: State, p: Pid, fd: nat)
    requires Inv(s) && Acts(s.pend, p) && fd <= NR_FILES && Exit(s.fs, p, fd).Reply?
    ensures DiskOk(Exit(s.fs, p, fd).fs, s.owner)
    decreases NR_FILES - fd
  {
    hide DiskOk, Drop;
    if fd == NR_FILES {
    } else {
      if s.fs.filp[p][fd] == NULL {
        ExitKeepsDisk(s, p, fd + 1);
      } else {
        CloseKeepsRefs(s.fs, s.leaks, s.pend, p, fd);
        ClosedKeepsDisk(s, p, fd);
        ExitKeepsDisk(s.(fs := Closed(s.fs, p, fd)), p, fd + 1);
      }
    }
  }

  lemma {:induction false} ForkCountKeepsDisk(s: State, child: Pid, k: nat)
    requires Inv(s) && s.pend.Forking? && s.pend.child == child && s.pend.counted == k <= NR_FILES
    requires ForkCount(s.fs, child, k).Reply?
    ensures DiskOk(ForkCount(s.fs, child, k).fs, s.owner)
    decreases NR_FILES - k
  {
    hide DiskOk, Share;
    if k == NR_FILES {
    } else {
      ShareKeepsRefs(s.fs, s.leaks, s.pend.parent, child, k);
      var d := s.fs.filp[child][k];
      var pend' := s.pend.(counted := k + 1);
      if d == NULL {
        ForkCountKeepsDisk(s.(pend := pend'), child, k + 1);
      } else {
        ShareKeepsDisk(s, k);
        ForkCountKeepsDisk(s.(fs := Share(s.fs, d), pend := pend'), child, k + 1);
      }
    }
  }

  lemma ShareKeepsDisk(s: State, k: nat)
    requires Inv(s) && s.pend.Forking? && k < NR_FILES
    requires OpenFile(s.fs, s.pend.child, k)
    ensures DiskOk(Share(s.fs, s.fs.filp[s.pend.child][k]), s.owner)
  {
    hide DirOk, OwnerOk, DescOk, InodesOk, FilpOk;
    EntryIsLive(s.fs, s.leaks, s.pend, s.pend.parent, k);
    CountsOnly(s.fs.cache, Share(s.fs, s.fs.filp[s.pend.child][k]).cache, s.fs.view.recs, s.owner);
  }

  lemma ForkCopyStep(s: State, r: Request)
    requires Inv(s) && r.DoForkCopy? && Allowed(s, r)
    ensures Serve(s.fs, r).Reply?
    ensures Inv(Advance(s, r))
  {
    hide RefsOk;
    ForkCopyKeepsRefs(s.fs, s.leaks, r.parent, r.child);
  }

  lemma ForkCountStep(s: State, r: Request)
    requires Inv(s) && r.DoForkCount? && Allowed(s, r)
    ensures Serve(s.fs, r).Reply?
    ensures Inv(Advance(s, r))
  {
    hide RefsOk, DiskOk, ForkCount;
    ForkCountKeepsRefs(s.fs, s.leaks, s.pend.parent, r.child, 0);
    ForkCountKeepsDisk(s, r.child, 0);
  }

  lemma ExitStep(s: State, r: Request)
    requires Inv(s) && r.DoExit? && Allowed(s, r)
    ensures Serve(s.fs, r).Reply?
    ensures Inv(Advance(s, r))
  {
    hide RefsOk, DiskOk, Exit;
    ExitKeepsRefs(s.fs, s.leaks, s.pend, r.p, 0);
    ExitKeepsDisk(s, r.p, 0);
  }

  /** Every request: it stops the machine exactly in the listed cases, and otherwise keeps disk,
      cache and reference counts consistent. */
  lemma StepKeepsInv(s: State, r: Request)
    requires Inv(s) && Allowed(s, r)
    ensures Serve(s.fs, r).Reply? <==> !HaltsWhen(s, r)
    ensures Serve(s.fs, r).Reply? ==> Inv(Advance(s, r))
  {
    hide DiskOk, RefsOk, Advance, Open, Close, Unlink, Stat, Exit, ForkCount, Transferred;
    match r
    case DoOpen(p, path, creat, rdwr) =>
      if creat { OpenNew(s, r); } else { OpenExisting(s, r); }
    case DoClose(p, fd) => CloseStep(s, r);
    case DoUnlink(p, path) => UnlinkStep(s, r);
    case DoStat(p, path) => StatStep(s, r);
    case DoTransfer(p, fd, bytes) => TransferStep(s, r);
    case DoForkCopy(parent, child) => ForkCopyStep(s, r);
    case DoForkCount(child) => ForkCountStep(s, r);
    case DoExit(p) => ExitStep(s, r);
  }

  // ---- runs ----------------------------------------------------------------

  /** The requests are served one after the other from s, and none of them halts. */
  ghost predicate Run(s: State, requests: seq<Request>, s': State)
    decreases |requests|
  {
    if requests == [] then s == s'
    else
      && Shaped(s.fs) && Allowed(s, requests[0]) && Serve(s.fs, requests[0]).Reply?
      && Run(Advance(s, requests[0]), requests[1..], s')
  }

  lemma {:induction false} RunKeepsInv(s: State, requests: seq<Request>, s': State)
    requires Inv(s) && Run(s, requests, s')
    ensures Inv(s')
    decreases |requests|
  {
    hide Inv, Advance, Serve;
    if requests == [] {
    } else {
      StepKeepsInv(s, requests[0]);
      RunKeepsInv(Advance(s, requests[0]), requests[1..], s');
    }
  }

  // ---- mkfs ----------------------------------------------------------------

  /** ".", "dev_tty0" to "dev_tty2" and "cmd.tar" as C strings. */
  function FixedString(e: nat): (s: seq<bv8>)
    requires e < FIXED_ENTRIES
    ensures |s| < MAX_FILENAME_LEN
  {
    if e == 0 then [0x2e]
    else if e == 4 then [0x63, 0x6d, 0x64, 0x2e, 0x74, 0x61, 0x72]
    else [0x64, 0x65, 0x76, 0x5f, 0x74, 0x74, 0x79, if e == 1 then 0x30 else if e == 2 then 0x31 else 0x32]
  }

  function FixedName(e: nat): Name
    requires e < FIXED_ENTRIES
  {
    Padded(FixedString(e))
  }

  /** What mkfs writes; directory slots after the first sector and unused records are arbitrary. */
  ghost predicate Formatted(n1: nat, v: View) {
    && |v.inodeMap| == NR_INODES == |v.recs| && |v.slots| == MAX_ENTRIES && |v.sectMap| >= 36864
    && (forall x :: 0 <= x < NR_INODES ==> (v.inodeMap[x] <==> x < NR_CONSOLE + 3))
    && (forall b :: 0 <= b < |v.sectMap| ==>
          (v.sectMap[b] <==> b < NR_DEFAULT_FILE_SECTS + 1 || TarStart(n1) <= b < TarStart(n1) + INSTALL_NR_SECTS))
    && v.recs[0] == DiskInode(I_DIRECTORY, DIR_ENTRY_SIZE * 5, n1 % 0x1_0000_0000, NR_DEFAULT_FILE_SECTS)
    && v.recs[1] == DiskInode(I_CHAR_SPECIAL, 0, DEV_CHAR_TTY * 0x100, 0)
    && v.recs[2] == DiskInode(I_CHAR_SPECIAL, 0, DEV_CHAR_TTY * 0x100 + 1, 0)
    && v.recs[3] == DiskInode(I_CHAR_SPECIAL, 0, DEV_CHAR_TTY * 0x100 + 2, 0)
    && v.recs[4] == DiskInode(I_REGULAR, INSTALL_NR_SECTS * SECTOR_SIZE, INSTALL_START_SECT, INSTALL_NR_SECTS)
    && (forall e :: 0 <= e < FIXED_ENTRIES ==> v.slots[e] == Dirent(e + 1, FixedName(e)))
    && (forall e :: FIXED_ENTRIES <= e < ENTRIES_PER_SECT ==> v.slots[e] == EMPTY_SLOT)
  }

  /** The tables after init_fs: nothing open, and the root inode fetched once. */
  ghost predicate Initial(s: State) {
    var fs := s.fs;
    && Formatted(fs.n1, fs.view) && 268 <= fs.n1 < 2048
    && |fs.cache| == NR_INODE && |fs.desc| == NR_FILE_DESC && |fs.filp| == NR_PROCS
    && fs.cache[ROOT_SLOT] == CachedInode(fs.view.recs[0], ROOT_INODE, 1)
    && (forall i :: 1 <= i < NR_INODE ==> fs.cache[i].cnt == 0)
    && (forall d :: 0 <= d < NR_FILE_DESC ==> fs.desc[d] == FileDesc(false, 0, 0, NULL))
    && (forall p: Pid :: |fs.filp[p]| == NR_FILES)
    && (forall p: Pid, fd :: 0 <= fd < NR_FILES ==> fs.filp[p][fd] == NULL)
    && s.owner == seq(GRID, _ => 0) && s.leaks == seq(NR_INODE, _ => 0) && s.pend == Nobody
  }

  lemma {:induction false} NoRefs(filp: seq<seq<int>>, k: nat, d: int)
    requires k <= |filp| && d != NULL
    requires forall p, fd :: 0 <= p < k && 0 <= fd < |filp[p]| ==> filp[p][fd] == NULL
    ensures TableCount(filp, k, -1, d) == 0
  {
    if k == 0 {
    } else {
      NoRefs(filp, k - 1, d);
      EmptyRow(filp[k - 1], d);
    }
  }

  lemma {:induction false} NoReach(desc: seq<FileDesc>, k: nat, i: int)
    requires k <= |desc| && forall d :: 0 <= d < k ==> desc[d].cnt == 0
    ensures Reach(desc, k, i) == 0
  {
    if k == 0 {
    } else {
      NoReach(desc, k - 1, i);
    }
  }

  lemma InitialRefs(s: State)
    requires Initial(s)
    ensures RefsOk(s.fs, s.leaks, s.pend, NULL)
  {
    forall d | 0 <= d < NR_FILE_DESC
      ensures Refs(s.fs, Nobody, d) == 0
    {
      forall p, fd | 0 <= p < NR_PROCS && 0 <= fd < |s.fs.filp[p]|
        ensures s.fs.filp[p][fd] == NULL
      {
        var q: Pid := p;
        assert s.fs.filp[q][fd] == NULL;
      }
      NoRefs(s.fs.filp, NR_PROCS, d);
    }
    forall i | 0 <= i < NR_INODE
      ensures Reach(s.fs.desc, NR_FILE_DESC, i) == 0
    {
      NoReach(s.fs.desc, NR_FILE_DESC, i);
    }
  }

  lemma InitialDisk(s: State)
    requires Initial(s)
    ensures DiskOk(s.fs, s.owner)
  {
    hide FixedName;
    var slots := s.fs.view.slots;
    assert DistinctEntries(slots, FIXED_ENTRIES) by {
      forall e: nat, f: nat | e < f < FIXED_ENTRIES
        ensures slots[e].name != slots[f].name
      {
        FixedNamesDiffer(e, f);
      }
      forall e: nat | e < FIXED_ENTRIES
        ensures slots[e].name[0] != 0
      {
        FixedNameStarts(e);
      }
    }
  }

  lemma FixedNameStarts(e: nat)
    requires e < FIXED_ENTRIES
    ensures FixedName(e)[0] != 0
  {
  }

  lemma FixedNamesDiffer(e: nat, f: nat)
    requires e < f < FIXED_ENTRIES
    ensures FixedName(e) != FixedName(f)
  {
    assert FixedName(e)[0] != FixedName(f)[0] || FixedName(e)[7] != FixedName(f)[7];
  }

  /** From mkfs on, whatever sequence of allowed requests is served without a halt: the maps, the
      records, the directory and the inode cache are consistent, and every reference count is
      the number of references. */
  lemma RunFromMkfs(s: State, requests: seq<Request>, s': State)
    requires Initial(s) && Run(s, requests, s')
    ensures DiskOk(s'.fs, s'.owner)
    ensures RefsOk(s'.fs, s'.leaks, s'.pend, NULL)
  {
    hide Initial, Run, DiskOk, RefsOk;
    InitialDisk(s);
    InitialRefs(s);
    InitialShaped(s);
    RunKeepsInv(s, requests, s');
  }

  lemma InitialShaped(s: State)
    requires Initial(s)
    ensures Shaped(s.fs)
  {
  }
}
