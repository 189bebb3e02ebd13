/** What callers see of each request: the value it returns, where the entries of all processes lead,
    and the inodes of all files. */
module FsEffects {
  import opened ProcTable
  import opened Records
  import opened Directory
  import opened FsModel
  import opened FsInvariant
  import opened FsRefs
  import opened FsRun
  import opened FsNames
  import opened Bits
  import FsSync

  /** What an entry of a process leads to: a descriptor, and the number of an inode. */
  datatype Handle = NoFile | Handle(desc: nat, file: nat, pos: nat, rdwr: bool)

  ghost function HandleOf(fs: Fs, p: Pid, fd: nat): Handle
    requires Shaped(fs)
  {
    if OpenFile(fs, p, fd) then
      var f := fs.desc[fs.filp[p][fd]];
      Handle(fs.filp[p][fd], fs.cache[f.inode].num, f.pos, f.rdwr)
    else NoFile
  }

  /** Inode nr as the next user gets it: its record on disk, but for the root, which is always in
      memory. */
  ghost function InodeNow(fs: Fs, nr: nat): DiskInode
    requires Shaped(fs) && 1 <= nr <= NR_INODES
  {
    if nr == ROOT_INODE then fs.cache[ROOT_SLOT].disk else fs.view.recs[nr - 1]
  }

  ghost predicate KeepsHandles(fs: Fs, fs': Fs) {
    && Shaped(fs) && Shaped(fs')
    && forall q: Pid, g: nat :: HandleOf(fs', q, g) == HandleOf(fs, q, g)
  }

  /** Only entry fd of p leads elsewhere now. */
  ghost predicate SetsHandle(fs: Fs, fs': Fs, p: Pid, fd: nat, h: Handle) {
    && Shaped(fs) && Shaped(fs') && HandleOf(fs', p, fd) == h
    && forall q: Pid, g: nat :: q != p || g != fd ==> HandleOf(fs', q, g) == HandleOf(fs, q, g)
  }

  ghost predicate KeepsInodes(fs: Fs, fs': Fs) {
    && Shaped(fs) && Shaped(fs') && fs'.n1 == fs.n1
    && forall nr :: 1 <= nr <= NR_INODES ==> InodeNow(fs', nr) == InodeNow(fs, nr)
  }

  /** Only inode nr is another one, and the root directory may have another size. */
  ghost predicate SetsInode(fs: Fs, fs': Fs, nr: nat, inode: DiskInode) {
    && Shaped(fs) && Shaped(fs') && fs'.n1 == fs.n1
    && 1 < nr <= NR_INODES && InodeNow(fs', nr) == inode
    && (forall x :: 1 < x <= NR_INODES && x != nr ==> InodeNow(fs', x) == InodeNow(fs, x))
    && InodeNow(fs', ROOT_INODE) == InodeNow(fs, ROOT_INODE).(size := InodeNow(fs', ROOT_INODE).size)
  }

  // ---- entries that stay ---------------------------------------------------

  /** Every entry that is not null leads to an inode in use; for the child of a fork in progress it is
      the parent's. */
  lemma LeadsToInode(fs: Fs, leaks: seq<nat>, pend: Pending, p: Pid, fd: nat)
    requires RefsOk(fs, leaks, pend, NULL) && fd < NR_FILES && fs.filp[p][fd] != NULL
    ensures OpenFile(fs, p, fd) && fs.cache[fs.desc[fs.filp[p][fd]].inode].cnt >= 1
  {
    hide DescOk, InodesOk, FilpOk;
    if Registered(pend, p) {
      EntryIsLive(fs, leaks, pend, p, fd);
    } else {
      EntryIsLive(fs, leaks, pend, pend.parent, fd);
    }
  }

  /** The descriptor behind the entry has its inode and its position, and the inode has its number. */
  ghost predicate SameBehind(fs: Fs, fs': Fs, p: Pid, fd: nat)
    requires Shaped(fs) && Shaped(fs') && fd < NR_FILES
  {
    var d := fs.filp[p][fd];
    && fs'.filp[p][fd] == d
    && (0 <= d < NR_FILE_DESC ==> fs'.desc[d].(cnt := 0) == fs.desc[d].(cnt := 0))
    && forall i :: 0 <= i < NR_INODE && fs.cache[i].cnt >= 1 ==> fs'.cache[i].num == fs.cache[i].num
  }

  lemma SameHandle(fs: Fs, leaks: seq<nat>, pend: Pending, fs': Fs, p: Pid, fd: nat)
    requires Shaped(fs) && RefsOk(fs, leaks, pend, NULL) && Shaped(fs')
    requires fd < NR_FILES ==> SameBehind(fs, fs', p, fd)
    ensures HandleOf(fs', p, fd) == HandleOf(fs, p, fd)
  {
    hide RefsOk;
    if fd < NR_FILES && fs.filp[p][fd] != NULL {
      LeadsToInode(fs, leaks, pend, p, fd);
    }
  }

  // ---- open ----------------------------------------------------------------

  /** Connecting p to a free descriptor with the inode in the slot. */
  lemma ConnectEffect(fs: Fs, leaks: seq<nat>, pend: Pending, fs1: Fs, p: Pid, slot: nat, rdwr: bool)
    requires Shaped(fs) && RefsOk(fs, leaks, pend, NULL) && Shaped(fs1) && fs1.filp == fs.filp && fs1.desc == fs.desc
    requires FirstNull(fs.filp[p]) < NR_FILES && FreeDesc(fs.desc) < NR_FILE_DESC && slot < NR_INODE
    requires forall i :: 0 <= i < NR_INODE && fs.cache[i].cnt >= 1 ==> fs1.cache[i].num == fs.cache[i].num
    requires Connect(fs1, p, FirstNull(fs.filp[p]), FreeDesc(fs.desc), slot, rdwr).Reply?
    ensures var r := Connect(fs1, p, FirstNull(fs.filp[p]), FreeDesc(fs.desc), slot, rdwr);
            NewHandle(fs, r.fs, p, r.ret, fs1.cache[slot].num, rdwr)
  {
    hide RefsOk;
    var fd, d := FirstNull(fs.filp[p]), FreeDesc(fs.desc);
    var fs' := Connect(fs1, p, fd, d, slot, rdwr).fs;
    assert HandleOf(fs', p, fd) == Handle(d, fs1.cache[slot].num, 0, rdwr);
    forall q: Pid, g: nat
      ensures HandleOf(fs, q, g).Handle? ==> HandleOf(fs, q, g).desc != d
      ensures q != p || g != fd ==> HandleOf(fs', q, g) == HandleOf(fs, q, g)
    {
      if (q != p || g != fd) && g < NR_FILES && fs.filp[q][g] != NULL {
        LeadsToInode(fs, leaks, pend, q, g);
        assert SameBehind(fs, fs', q, g);
      }
    }
    forall g: nat | g < fd
      ensures HandleOf(fs, p, g) != NoFile
    {
      LeadsToInode(fs, leaks, pend, p, g);
    }
  }

  /** The caller's first free entry leads to a descriptor of its own, at the start of the file. */
  ghost predicate NewHandle(fs: Fs, fs': Fs, p: Pid, fd: int, file: nat, rdwr: bool) {
    && Shaped(fs) && Shaped(fs') && 0 <= fd < NR_FILES
    && HandleOf(fs, p, fd) == NoFile && (forall g: nat :: g < fd ==> HandleOf(fs, p, g) != NoFile)
    && var h := HandleOf(fs', p, fd);
       && h.Handle? && h.file == file && h.pos == 0 && h.rdwr == rdwr
       && SetsHandle(fs, fs', p, fd, h)
       && forall q: Pid, g: nat :: HandleOf(fs, q, g).Handle? ==> HandleOf(fs, q, g).desc != h.desc
  }

  /** Opening a file that exists: the new entry leads to the inode that the name leads to. */
  lemma OpenEffect(s: State, r: Request)
    requires Inv(s) && r.DoOpen? && !r.creat && Allowed(s, r) && !HaltsWhen(s, r)
    ensures Serve(s.fs, r).Reply?
    ensures var fs', nr := Serve(s.fs, r).fs, Search(s.fs, r.path);
            && KeepsInodes(s.fs, fs')
            && if nr == 0 then Serve(s.fs, r).ret == -1 && KeepsHandles(s.fs, fs')
               else NewHandle(s.fs, fs', r.p, Serve(s.fs, r).ret, nr, true)
  {
    hide DiskOk, RefsOk, Search, GetInode, Connect, HandleOf;
    OpenExisting(s, r);
    var nr := Search(s.fs, r.path);
    if nr != 0 {
      SearchFinds(s.fs, s.owner, r.path);
      FetchOk(s.fs, s.owner, nr);
      var f := GetInode(s.fs.cache, s.fs.view.recs, nr);
      var fs1 := s.fs.(cache := f.cache);
      FetchKeepsNumbers(s.fs, nr);
      ConnectEffect(s.fs, s.leaks, s.pend, fs1, r.p, f.slot, r.rdwr);
      ConnectKeeps(fs1, r.p, FirstNull(s.fs.filp[r.p]), FreeDesc(s.fs.desc), f.slot, r.rdwr);
    }
  }

  lemma FetchKeepsNumbers(fs: Fs, nr: nat)
    requires Shaped(fs) && nr >= 1 && GetInode(fs.cache, fs.view.recs, nr).Fetched?
    ensures forall i :: 0 <= i < NR_INODE && fs.cache[i].cnt >= 1 ==>
              GetInode(fs.cache, fs.view.recs, nr).cache[i].num == fs.cache[i].num
  {
  }

  lemma ConnectKeeps(fs: Fs, p: Pid, fd: nat, d: nat, slot: nat, rdwr: bool)
    requires Shaped(fs) && fd < NR_FILES && d < NR_FILE_DESC && slot < NR_INODE
    requires Connect(fs, p, fd, d, slot, rdwr).Reply?
    ensures var fs' := Connect(fs, p, fd, d, slot, rdwr).fs;
            fs'.n1 == fs.n1 && fs'.view == fs.view && fs'.cache == fs.cache
  {
  }

  /** Creating a file: the new entry leads to the least inode number that was free, which is now an
      empty regular file on a run that no file occupied.  A name that exists, or has a slash inside,
      is answered by -1. */
  lemma CreateEffect(s: State, r: Request)
    requires Inv(s) && r.DoOpen? && r.creat && Allowed(s, r) && !HaltsWhen(s, r)
    ensures Serve(s.fs, r).Reply? && |s.owner| == GRID
    ensures var fs', ret, nr, t := Serve(s.fs, r).fs, Serve(s.fs, r).ret, Least(s.fs.view.inodeMap), FreeRun(s.owner);
            if Search(s.fs, r.path) != 0 || SLASH in NamePart(r.path) then
              ret == -1 && KeepsHandles(s.fs, fs') && KeepsInodes(s.fs, fs')
            else
              && NewHandle(s.fs, fs', r.p, ret, nr, r.rdwr) && FIRST_FILE_INODE <= nr <= LAST_FILE_INODE && t < GRID
              && SetsInode(s.fs, fs', nr, DiskInode(I_REGULAR, 0, s.fs.n1 - 1 + RunStart(t), NR_DEFAULT_FILE_SECTS))
  {
    hide DiskOk, RefsOk, Search, CreateFile, FreeRun, Connect, HandleOf, Least, FirstNull, FreeDesc, RunStart;
    OpenNew(s, r);
    OwnerSize(s);
    if Creates(s, r) {
      hide SetsInode, NewHandle;
      FsSync.CreatedHasRun(s, r);
      CreatedInode(s.fs, s.owner, r.path);
      var c := CreateFile(s.fs, r.path);
      ConnectEffect(s.fs, s.leaks, s.pend, c.fs, r.p, c.slot, r.rdwr);
      ConnectKeeps(c.fs, r.p, FirstNull(s.fs.filp[r.p]), FreeDesc(s.fs.desc), c.slot, r.rdwr);
    }
  }

  lemma CreatedInode(fs: Fs, owner: Owner, path: seq<bv8>)
    requires DiskOk(fs, owner) && FreeRun(owner) < GRID
    ensures CreateFile(fs, path).Created? && Shaped(fs)
    ensures var c, nr := CreateFile(fs, path), Least(fs.view.inodeMap);
            && FIRST_FILE_INODE <= nr <= LAST_FILE_INODE
            && c.fs.filp == fs.filp && c.fs.desc == fs.desc && c.fs.cache[c.slot].num == nr
            && (forall i :: 0 <= i < NR_INODE && fs.cache[i].cnt >= 1 ==> c.fs.cache[i].num == fs.cache[i].num)
            && SetsInode(fs, c.fs, nr,
                         DiskInode(I_REGULAR, 0, fs.n1 - 1 + RunStart(FreeRun(owner)), NR_DEFAULT_FILE_SECTS))
  {
    hide CreateFile, FreeRun, Least, Uniform, AddEntry, Fill, FirstWith, Prefix, DirOk, RecordsOk;
    FreeInodeFacts(fs, owner);
    FreeRunFacts(fs, owner);
    var slot, root := CreateShape(fs, owner, path);
    RootPlace(fs, owner);
  }

  lemma RootPlace(fs: Fs, owner: Owner)
    requires DiskOk(fs, owner)
    ensures Shaped(fs) && fs.n1 < 2048 && fs.cache[ROOT_SLOT].num == ROOT_INODE
  {
  }

  // ---- close, exit and fork ------------------------------------------------

  /** Every request on entries only moves reference counts. */
  ghost predicate CountsMoved(fs: Fs, fs': Fs) {
    && Shaped(fs) && Shaped(fs') && fs'.n1 == fs.n1 && fs'.view == fs.view
    && fs'.cache[ROOT_SLOT].disk == fs.cache[ROOT_SLOT].disk
    && forall i :: 0 <= i < NR_INODE ==> fs'.cache[i].num == fs.cache[i].num
  }

  /** One entry is closed: nobody else notices, also not the processes with which it was shared. */
  lemma ClosedEffect(fs: Fs, leaks: seq<nat>, pend: Pending, p: Pid, fd: nat)
    requires Shaped(fs) && RefsOk(fs, leaks, pend, NULL) && Acts(pend, p) && fd < NR_FILES && OpenFile(fs, p, fd)
    ensures CountsMoved(fs, Closed(fs, p, fd)) && SetsHandle(fs, Closed(fs, p, fd), p, fd, NoFile)
  {
    hide RefsOk, HandleOf;
    var fs' := Closed(fs, p, fd);
    CloseKeepsRefs(fs, leaks, pend, p, fd);
    assert HandleOf(fs', p, fd) == NoFile by { NullIsNoFile(fs', p, fd); }
    forall q: Pid, g: nat | q != p || g != fd
      ensures HandleOf(fs', q, g) == HandleOf(fs, q, g)
    {
      if g < NR_FILES && fs.filp[q][g] != NULL {
        LeadsToInode(fs', leaks, pend, q, g);
      }
      SameHandle(fs, leaks, pend, fs', q, g);
    }
  }

  lemma NullIsNoFile(fs: Fs, p: Pid, fd: nat)
    requires Shaped(fs) && fd < NR_FILES && fs.filp[p][fd] == NULL
    ensures HandleOf(fs, p, fd) == NoFile
  {
  }

  lemma CloseEffect(s: State, r: Request)
    requires Inv(s) && r.DoClose? && Allowed(s, r) && !HaltsWhen(s, r)
    ensures Serve(s.fs, r).Reply? && Serve(s.fs, r).ret == 0
    ensures HandleOf(s.fs, r.p, r.fd) != NoFile
    ensures var fs' := Serve(s.fs, r).fs; KeepsInodes(s.fs, fs') && SetsHandle(s.fs, fs', r.p, r.fd, NoFile)
  {
    hide DiskOk, RefsOk, SetsHandle;
    CloseKeepsRefs(s.fs, s.leaks, s.pend, r.p, r.fd);
    ClosedEffect(s.fs, s.leaks, s.pend, r.p, r.fd);
  }

  /** p has nothing open any more, and nobody else notices. */
  ghost predicate ClosesAll(fs: Fs, fs': Fs, p: Pid) {
    && Shaped(fs) && Shaped(fs') && (forall g: nat :: HandleOf(fs', p, g) == NoFile)
    && forall q: Pid, g: nat :: q != p ==> HandleOf(fs', q, g) == HandleOf(fs, q, g)
  }

  lemma {:induction false} ExitRest(fs: Fs, leaks: seq<nat>, pend: Pending, p: Pid, fd: nat)
    requires Shaped(fs) && RefsOk(fs, leaks, pend, NULL) && Acts(pend, p) && fd <= NR_FILES
    requires forall j :: 0 <= j < fd ==> fs.filp[p][j] == NULL
    ensures Exit(fs, p, fd).Reply? && Exit(fs, p, fd).ret == 0
    ensures CountsMoved(fs, Exit(fs, p, fd).fs) && ClosesAll(fs, Exit(fs, p, fd).fs, p)
    decreases NR_FILES - fd
  {
    hide RefsOk;
    if fd == NR_FILES {
    } else if fs.filp[p][fd] == NULL {
      ExitRest(fs, leaks, pend, p, fd + 1);
    } else {
      LeadsToInode(fs, leaks, pend, p, fd);
      CloseKeepsRefs(fs, leaks, pend, p, fd);
      ClosedEffect(fs, leaks, pend, p, fd);
      ExitRest(Closed(fs, p, fd), leaks, pend, p, fd + 1);
    }
  }

  lemma ExitEffect(s: State, r: Request)
    requires Inv(s) && r.DoExit? && Allowed(s, r)
    ensures Serve(s.fs, r).Reply? && Serve(s.fs, r).ret == 0
    ensures var fs' := Serve(s.fs, r).fs; KeepsInodes(s.fs, fs') && ClosesAll(s.fs, fs', r.p)
  {
    hide DiskOk, RefsOk, ClosesAll, Exit;
    ExitRest(s.fs, s.leaks, s.pend, r.p, 0);
  }

  /** The child's entries lead where the parent's do: to the same descriptors. */
  lemma ForkCopyEffect(s: State, r: Request)
    requires Inv(s) && r.DoForkCopy? && Allowed(s, r)
    ensures Serve(s.fs, r).Reply? && KeepsInodes(s.fs, Serve(s.fs, r).fs)
    ensures var fs' := Serve(s.fs, r).fs;
            forall q: Pid, g: nat ::
              HandleOf(fs', q, g) == HandleOf(s.fs, if q == r.child then r.parent else q, g)
  {
    hide DiskOk, RefsOk;
  }

  lemma {:induction false} CountRest(fs: Fs, leaks: seq<nat>, parent: Pid, child: Pid, k: nat)
    requires Shaped(fs) && RefsOk(fs, leaks, Forking(parent, child, k), NULL) && k <= NR_FILES
    ensures ForkCount(fs, child, k).Reply? && ForkCount(fs, child, k).ret == 0
    ensures CountsMoved(fs, ForkCount(fs, child, k).fs) && KeepsHandles(fs, ForkCount(fs, child, k).fs)
    decreases NR_FILES - k
  {
    hide RefsOk, HandleOf;
    if k == NR_FILES {
    } else {
      ShareKeepsRefs(fs, leaks, parent, child, k);
      var d := fs.filp[child][k];
      if d == NULL {
        CountRest(fs, leaks, parent, child, k + 1);
      } else {
        var fs' := Share(fs, d);
        forall q: Pid, g: nat
          ensures HandleOf(fs', q, g) == HandleOf(fs, q, g)
        {
          SameHandle(fs, leaks, Forking(parent, child, k), fs', q, g);
        }
        CountRest(fs', leaks, parent, child, k + 1);
      }
    }
  }

  lemma ForkCountEffect(s: State, r: Request)
    requires Inv(s) && r.DoForkCount? && Allowed(s, r)
    ensures Serve(s.fs, r).Reply? && Serve(s.fs, r).ret == 0
    ensures KeepsInodes(s.fs, Serve(s.fs, r).fs) && KeepsHandles(s.fs, Serve(s.fs, r).fs)
  {
    hide DiskOk, RefsOk, KeepsHandles, ForkCount;
    CountRest(s.fs, s.leaks, s.pend.parent, s.pend.child, 0);
  }

  // ---- unlink, stat and transfers ------------------------------------------

  /** The inode is in memory: somebody has it open, or a refused unlink has kept it. */
  ghost predicate InUse(fs: Fs, nr: nat)
    requires Shaped(fs)
  {
    exists i :: 0 <= i < NR_INODE && fs.cache[i].cnt >= 1 && fs.cache[i].num == nr
  }

  /** A fetch that gives the count 1 is one of an inode that was not in use. */
  lemma FetchCounts(fs: Fs, owner: Owner, nr: nat)
    requires DiskOk(fs, owner) && Live(owner, nr) && nr < NR_INODES
    ensures var f := GetInode(fs.cache, fs.view.recs, nr);
            && f.Fetched? && f.cache[f.slot].num == nr && (f.cache[f.slot].cnt > 1 <==> InUse(fs, nr))
            && f.cache[f.slot].disk.mode == InodeNow(fs, nr).mode
  {
    hide MapsOk, RecordsOk, DirOk, OwnerOk, GetInode;
    FetchOk(fs, owner, nr);
    var f := GetInode(fs.cache, fs.view.recs, nr);
    FetchedRecord(fs.(cache := f.cache), owner, f.slot);
    FetchSlot(fs, nr);
    assert AgreesWith(fs.cache[ROOT_SLOT], fs.view.recs[0]);
  }

  lemma FetchSlot(fs: Fs, nr: nat)
    requires Shaped(fs) && nr >= 1 && GetInode(fs.cache, fs.view.recs, nr).Fetched?
    requires forall i :: 0 <= i < NR_INODE ==> fs.cache[i].cnt >= 0
    ensures var f := GetInode(fs.cache, fs.view.recs, nr);
            f.cache[f.slot].cnt > 1 <==> InUse(fs, nr)
  {
    var i := CachedAt(fs.cache, nr);
    if i < NR_INODE {
      assert fs.cache[i].cnt >= 1 && fs.cache[i].num == nr;
    }
  }

  /** Unlinking: the file goes iff it is a regular one and not in use; otherwise the answer is -1. */
  lemma UnlinkEffect(s: State, r: Request)
    requires Inv(s) && r.DoUnlink? && Allowed(s, r) && !HaltsWhen(s, r)
    ensures Serve(s.fs, r).Reply?
    ensures var fs', ret, nr := Serve(s.fs, r).fs, Serve(s.fs, r).ret, Search(s.fs, r.path);
            && KeepsHandles(s.fs, fs')
            && if r.path != [SLASH] && 1 <= nr < NR_INODES && InodeNow(s.fs, nr).mode == I_REGULAR && !InUse(s.fs, nr)
               then ret == 0 && SetsInode(s.fs, fs', nr, NO_RECORD)
               else ret == -1 && KeepsInodes(s.fs, fs')
  {
    hide DiskOk, RefsOk, Search, GetInode, Remove, HandleOf, InUse;
    var nr := Search(s.fs, r.path);
    if r.path != [SLASH] {
      SearchFinds(s.fs, s.owner, r.path);
      FetchOk(s.fs, s.owner, nr);
      FetchCounts(s.fs, s.owner, nr);
      FetchKeepsNumbers(s.fs, nr);
      var f := GetInode(s.fs.cache, s.fs.view.recs, nr);
      var fs1 := s.fs.(cache := f.cache);
      TablesKeepHandles(s, fs1);
      if f.cache[f.slot].disk.mode == I_REGULAR && f.cache[f.slot].cnt <= 1 {
        RemovedInode(fs1, s.owner, nr, f.slot);
        RemovedSlot(s.fs, s.owner, nr, f);
        TablesKeepHandles(s, Remove(fs1, nr, f.slot).fs);
      }
    }
  }

  /** Requests that leave filp and the descriptors alone. */
  lemma TablesKeepHandles(s: State, fs': Fs)
    requires Inv(s) && Shaped(fs') && fs'.filp == s.fs.filp && fs'.desc == s.fs.desc
    requires forall i :: 0 <= i < NR_INODE && s.fs.cache[i].cnt >= 1 ==> fs'.cache[i].num == s.fs.cache[i].num
    ensures KeepsHandles(s.fs, fs')
  {
    hide DiskOk, RefsOk, HandleOf;
    forall q: Pid, g: nat
      ensures HandleOf(fs', q, g) == HandleOf(s.fs, q, g)
    {
      SameHandle(s.fs, s.leaks, s.pend, fs', q, g);
    }
  }

  lemma RemovedInode(fs: Fs, owner: Owner, nr: U32, slot: nat)
    requires DiskOk(fs, owner) && Removable(fs, nr, slot)
    ensures nr >= 1 && Shaped(fs) && Remove(fs, nr, slot).Reply? && Remove(fs, nr, slot).ret == 0
    ensures var fs' := Remove(fs, nr, slot).fs;
            && fs'.filp == fs.filp && fs'.desc == fs.desc
            && (forall i :: 0 <= i < NR_INODE ==> fs'.cache[i].num == fs.cache[i].num)
            && SetsInode(fs, fs', nr, NO_RECORD)
  {
    hide Remove, FirstWith, LiveEnd, Fill, DirOk, RecordsOk, MapsOk, Uniform, Prefix, RunOf, RunStart;
    RemoveShape(fs, owner, nr, slot);
  }

  lemma RemovedSlot(fs: Fs, owner: Owner, nr: nat, f: Fetched)
    requires DiskOk(fs, owner) && Live(owner, nr) && nr < NR_INODES && f == GetInode(fs.cache, fs.view.recs, nr)
    requires f.Fetched? && f.cache[f.slot].cnt <= 1 && f.cache[f.slot].disk.mode == I_REGULAR && nr != CMD_TAR_INODE
    ensures Removable(fs.(cache := f.cache), nr, f.slot)
  {
    hide MapsOk, RecordsOk, DirOk, OwnerOk, GetInode;
    FetchOk(fs, owner, nr);
  }

  /** Asking for the status of a file changes nothing that anybody sees. */
  lemma StatEffect(s: State, r: Request)
    requires Inv(s) && r.DoStat? && Allowed(s, r) && !HaltsWhen(s, r)
    ensures Serve(s.fs, r).Reply? && Serve(s.fs, r).ret == if Search(s.fs, r.path) == 0 then -1 else 0
    ensures KeepsHandles(s.fs, Serve(s.fs, r).fs) && KeepsInodes(s.fs, Serve(s.fs, r).fs)
  {
    hide DiskOk, RefsOk, Search, GetInode, HandleOf;
    var nr := Search(s.fs, r.path);
    if nr != 0 {
      SearchFinds(s.fs, s.owner, r.path);
      FetchOk(s.fs, s.owner, nr);
      FetchKeepsNumbers(s.fs, nr);
      var f := GetInode(s.fs.cache, s.fs.view.recs, nr);
      TablesKeepHandles(s, Serve(s.fs, r).fs);
    }
  }

  /** The position behind the entry, and behind all entries that share its descriptor, is moved. */
  ghost predicate MovesHandles(fs: Fs, fs': Fs, d: nat, bytes: nat) {
    && Shaped(fs) && Shaped(fs')
    && forall q: Pid, g: nat ::
         HandleOf(fs', q, g) ==
         var h := HandleOf(fs, q, g);
         if h.Handle? && h.desc == d then h.(pos := h.pos + bytes) else h
  }

  /** Moving bytes: the shared position advances, and a file shorter than that grows up to it. */
  lemma TransferEffect(s: State, r: Request)
    requires Inv(s) && r.DoTransfer? && Allowed(s, r)
    ensures Serve(s.fs, r).Reply? && Serve(s.fs, r).ret == r.bytes
    ensures var fs', h := Serve(s.fs, r).fs, HandleOf(s.fs, r.p, r.fd);
            && h.Handle? && 1 < h.file < NR_INODES && MovesHandles(s.fs, fs', h.desc, r.bytes)
            && var inode := InodeNow(s.fs, h.file);
               && inode.mode == I_REGULAR && h.pos + r.bytes <= inode.nrSects * SECTOR_SIZE <= 0xffff_ffff
               && SetsInode(s.fs, fs', h.file, inode.(size := Max(inode.size, h.pos + r.bytes)))
  {
    hide DiskOk, RefsOk;
    LeadsToInode(s.fs, s.leaks, s.pend, r.p, r.fd);
    var d := s.fs.filp[r.p][r.fd];
    RegularInode(s.fs, s.owner, s.fs.desc[d].inode);
  }

  lemma RegularInode(fs: Fs, owner: Owner, slot: nat)
    requires DiskOk(fs, owner) && slot < NR_INODE && fs.cache[slot].cnt != 0 && fs.cache[slot].disk.mode == I_REGULAR
    ensures 1 < fs.cache[slot].num < NR_INODES && slot != ROOT_SLOT
    ensures fs.cache[slot].disk == fs.view.recs[fs.cache[slot].num - 1]
    ensures fs.cache[slot].disk.nrSects == 2048
  {
    NotTheRoot(fs, owner, slot);
    FetchedRecord(fs, owner, slot);
    if fs.cache[slot].num != CMD_TAR_INODE {
      RegularIsOnGrid(fs, owner, fs.cache[slot]);
    }
  }

  // ---- reading the directory -----------------------------------------------

  /** Reading the root directory past its end makes it longer, in memory and on the disk, over slots that
      hold no entry: the disk stays consistent iff the read ends within the directory. */
  lemma DirectoryReadExactly(s: State, p: Pid, fd: nat, bytes: nat)
    requires Inv(s) && OpenFile(s.fs, p, fd) && HandleOf(s.fs, p, fd).file == ROOT_INODE
    requires s.fs.filp[p][fd] != NULL && HandleOf(s.fs, p, fd).pos + bytes < 0x1_0000_0000
    ensures var fs' := Transferred(s.fs, s.fs.filp[p][fd], bytes);
            (exists owner' :: DiskOk(fs', owner')) <==> HandleOf(s.fs, p, fd).pos + bytes <= RootSize(s.fs)
  {
    hide RefsOk, MapsOk, RecordsOk, CacheOk, OwnerOk;
    RootSlotOnly(s, p, fd);
    var fs' := Transferred(s.fs, s.fs.filp[p][fd], bytes);
    if HandleOf(s.fs, p, fd).pos + bytes <= RootSize(s.fs) {
      assert DiskOk(fs', s.owner) by { SameDisk(s.fs, fs', s.owner); }
    } else {
      forall owner'
        ensures !DiskOk(fs', owner')
      {
        LongerIsBroken(s.fs, s.owner, fs', owner');
      }
    }
  }

  lemma RootSlotOnly(s: State, p: Pid, fd: nat)
    requires Inv(s) && OpenFile(s.fs, p, fd) && HandleOf(s.fs, p, fd).file == ROOT_INODE && s.fs.filp[p][fd] != NULL
    ensures s.fs.desc[s.fs.filp[p][fd]].inode == ROOT_SLOT
  {
    hide RefsOk, MapsOk, RecordsOk, DirOk, OwnerOk;
    LeadsToInode(s.fs, s.leaks, s.pend, p, fd);
  }

  lemma SameDisk(fs: Fs, fs': Fs, owner: Owner)
    requires DiskOk(fs, owner) && Shaped(fs') && fs'.n1 == fs.n1 && fs'.view == fs.view && fs'.cache == fs.cache
    ensures DiskOk(fs', owner)
  {
  }

  /** In a consistent directory the last slot holds an entry, and the slots behind it hold none. */
  lemma LongerIsBroken(fs: Fs, owner: Owner, fs': Fs, owner': Owner)
    requires DiskOk(fs, owner) && Shaped(fs') && fs'.view.slots == fs.view.slots && RootSize(fs') > RootSize(fs)
    ensures !DiskOk(fs', owner')
  {
    hide MapsOk, RecordsOk, CacheOk, OwnerOk;
  }

  // ---- files in use --------------------------------------------------------

  ghost predicate Opened(fs: Fs, nr: nat)
    requires Shaped(fs)
  {
    exists q: Pid, g: nat :: HandleOf(fs, q, g).Handle? && HandleOf(fs, q, g).file == nr
  }

  /** A refused unlink of this inode kept its reference. */
  ghost predicate Leaked(s: State, nr: nat)
    requires Shaped(s.fs)
  {
    exists i :: 0 <= i < |s.leaks| && i < NR_INODE && s.leaks[i] > 0 && s.fs.cache[i].num == nr
  }

  lemma {:induction false} ReachWitness(desc: seq<FileDesc>, k: nat, i: int) returns (d: nat)
    requires k <= |desc| && Reach(desc, k, i) > 0
    ensures d < k && desc[d].inode == i && desc[d].cnt > 0
  {
    if desc[k - 1].inode == i && desc[k - 1].cnt > 0 {
      d := k - 1;
    } else {
      d := ReachWitness(desc, k - 1, i);
    }
  }

  lemma {:induction false} RowWitness(row: seq<int>, d: int) returns (g: nat)
    requires RowCount(row, d) > 0
    ensures g < |row| && row[g] == d
  {
    if row[|row| - 1] == d {
      g := |row| - 1;
    } else {
      g := RowWitness(row[..|row| - 1], d);
    }
  }

  lemma {:induction false} TableWitness(filp: seq<seq<int>>, k: nat, skip: int, d: int) returns (q: nat, g: nat)
    requires k <= |filp| && TableCount(filp, k, skip, d) > 0
    ensures q < k && g < |filp[q]| && filp[q][g] == d
  {
    if k - 1 != skip && RowCount(filp[k - 1], d) > 0 {
      q := k - 1;
      g := RowWitness(filp[q], d);
    } else {
      q, g := TableWitness(filp, k - 1, skip, d);
    }
  }

  lemma EntryOfDesc(s: State, d: nat) returns (q: Pid, g: nat)
    requires Inv(s) && d < NR_FILE_DESC && s.fs.desc[d].cnt > 0
    ensures g < NR_FILES && s.fs.filp[q][g] == d
  {
    hide DiskOk;
    assert Refs(s.fs, s.pend, d) > 0;
    if s.pend.Forking? && RowCount(s.fs.filp[s.pend.child][..s.pend.counted], d) > 0 {
      q := s.pend.child;
      g := RowWitness(s.fs.filp[q][..s.pend.counted], d);
    } else {
      var q';
      q', g := TableWitness(s.fs.filp, NR_PROCS, if s.pend.Nobody? then -1 else s.pend.child, d);
      q := q';
    }
  }

  /** An inode is in use iff it is the root's, or somebody has it open, or a refused unlink kept it. */
  lemma InUseExactly(s: State, nr: nat)
    requires Inv(s)
    ensures Shaped(s.fs)
    ensures InUse(s.fs, nr) <==> nr == ROOT_INODE || Opened(s.fs, nr) || Leaked(s, nr)
  {
    hide DiskOk;
    if InUse(s.fs, nr) {
      var i :| 0 <= i < NR_INODE && s.fs.cache[i].cnt >= 1 && s.fs.cache[i].num == nr;
      if i == ROOT_SLOT {
        RootPlace(s.fs, s.owner);
      } else if s.leaks[i] == 0 {
        var d := ReachWitness(s.fs.desc, NR_FILE_DESC, i);
        var q, g := EntryOfDesc(s, d);
        assert HandleOf(s.fs, q, g).Handle? && HandleOf(s.fs, q, g).file == nr;
      }
    }
    if nr == ROOT_INODE || Opened(s.fs, nr) || Leaked(s, nr) {
      UsedInode(s, nr);
    }
  }

  lemma UsedInode(s: State, nr: nat)
    requires Inv(s) && (nr == ROOT_INODE || Opened(s.fs, nr) || Leaked(s, nr))
    ensures InUse(s.fs, nr)
  {
    hide DiskOk;
    if nr == ROOT_INODE {
      RootPlace(s.fs, s.owner);
      RootHeld(s.fs, s.leaks, s.pend, NULL);
    } else if Opened(s.fs, nr) {
      var q: Pid, g: nat :| HandleOf(s.fs, q, g).Handle? && HandleOf(s.fs, q, g).file == nr;
      LeadsToInode(s.fs, s.leaks, s.pend, q, g);
    } else {
      var i :| 0 <= i < |s.leaks| && i < NR_INODE && s.leaks[i] > 0 && s.fs.cache[i].num == nr;
      ReachNonnegative(s.fs.desc, NR_FILE_DESC, i);
    }
  }

  // ---- a refused unlink ----------------------------------------------------

  /** Inodes in use stay in their slots. */
  lemma NumbersStay(s: State, r: Request)
    requires Inv(s) && Allowed(s, r) && !HaltsWhen(s, r)
    ensures Serve(s.fs, r).Reply? && Shaped(Serve(s.fs, r).fs)
    ensures forall i :: 0 <= i < NR_INODE && s.fs.cache[i].cnt >= 1 ==>
              Serve(s.fs, r).fs.cache[i].num == s.fs.cache[i].num
  {
    hide DiskOk, RefsOk, Search, GetInode, CreateFile, Remove, Exit, ForkCount, HaltsWhen, Openable, Allowed;
    StepKeepsInv(s, r);
    match r
    case DoOpen(p, path, creat, rdwr) =>
      if Creates(s, r) { CreateKeepsNumbers(s, r); } else { FetchedNumbers(s, path); }
    case DoUnlink(p, path) => UnlinkKeepsNumbers(s, r);
    case DoStat(p, path) => FetchedNumbers(s, path);
    case DoForkCount(child) => CountKeepsNumbers(s, r);
    case DoExit(p) => ExitKeepsNumbers(s, r);
    case DoTransfer(p, fd, bytes) => TransferNumbers(s, r);
    case _ =>
  }

  lemma TransferNumbers(s: State, r: Request)
    requires Inv(s) && r.DoTransfer? && Allowed(s, r)
    ensures forall i :: 0 <= i < NR_INODE ==> Serve(s.fs, r).fs.cache[i].num == s.fs.cache[i].num
  {
    hide DiskOk, RefsOk;
  }

  lemma CountKeepsNumbers(s: State, r: Request)
    requires Inv(s) && r.DoForkCount? && Allowed(s, r)
    ensures Serve(s.fs, r).Reply? && CountsMoved(s.fs, Serve(s.fs, r).fs)
  {
    hide DiskOk, RefsOk, ForkCount, CountsMoved;
    CountRest(s.fs, s.leaks, s.pend.parent, s.pend.child, 0);
  }

  lemma ExitKeepsNumbers(s: State, r: Request)
    requires Inv(s) && r.DoExit? && Allowed(s, r)
    ensures Serve(s.fs, r).Reply? && CountsMoved(s.fs, Serve(s.fs, r).fs)
  {
    hide DiskOk, RefsOk, Exit, CountsMoved;
    ExitRest(s.fs, s.leaks, s.pend, r.p, 0);
  }

  lemma FetchedNumbers(s: State, path: seq<bv8>)
    requires Inv(s)
    ensures var nr := Search(s.fs, path);
            nr != 0 && GetInode(s.fs.cache, s.fs.view.recs, nr).Fetched? ==>
              forall i :: 0 <= i < NR_INODE && s.fs.cache[i].cnt >= 1 ==>
                GetInode(s.fs.cache, s.fs.view.recs, nr).cache[i].num == s.fs.cache[i].num
  {
    hide DiskOk, RefsOk, Search, GetInode;
    var nr := Search(s.fs, path);
    if nr != 0 && GetInode(s.fs.cache, s.fs.view.recs, nr).Fetched? {
      FetchKeepsNumbers(s.fs, nr);
    }
  }

  lemma CreateKeepsNumbers(s: State, r: Request)
    requires Inv(s) && Allowed(s, r) && Creates(s, r) && Serve(s.fs, r).Reply?
    ensures forall i :: 0 <= i < NR_INODE && s.fs.cache[i].cnt >= 1 ==>
              Serve(s.fs, r).fs.cache[i].num == s.fs.cache[i].num
  {
    hide DiskOk, RefsOk, Search, CreateFile, Connect, FreeRun, Least, Allowed, SetsInode;
    OwnerSize(s);
    FsSync.CreatedHasRun(s, r);
    CreatedInode(s.fs, s.owner, r.path);
    ConnectKeepsView(s, r);
  }

  lemma UnlinkKeepsNumbers(s: State, r: Request)
    requires Inv(s) && r.DoUnlink? && Allowed(s, r) && Serve(s.fs, r).Reply?
    ensures forall i :: 0 <= i < NR_INODE && s.fs.cache[i].cnt >= 1 ==>
              Serve(s.fs, r).fs.cache[i].num == s.fs.cache[i].num
  {
    hide DiskOk, RefsOk, Search, GetInode, Remove, InodeNow, SetsInode;
    var nr := Search(s.fs, r.path);
    if r.path != [SLASH] {
      SearchFinds(s.fs, s.owner, r.path);
      FetchOk(s.fs, s.owner, nr);
      FetchKeepsNumbers(s.fs, nr);
      var f := GetInode(s.fs.cache, s.fs.view.recs, nr);
      if f.cache[f.slot].disk.mode == I_REGULAR && f.cache[f.slot].cnt <= 1 {
        RemovedSlot(s.fs, s.owner, nr, f);
        RemovedInode(s.fs.(cache := f.cache), s.owner, nr, f.slot);
      }
    }
  }

  lemma LeakIsUsed(s: State, i: nat)
    requires Inv(s) && i < |s.leaks| && s.leaks[i] > 0
    ensures |s.leaks| == NR_INODE == |s.fs.cache| && s.fs.cache[i].cnt >= 1
  {
    hide DiskOk;
    ReachNonnegative(s.fs.desc, NR_FILE_DESC, i);
  }

  lemma LeakedStays(s: State, r: Request, nr: nat)
    requires Shaped(s.fs) && Inv(s) && Allowed(s, r) && !HaltsWhen(s, r) && Leaked(s, nr)
    ensures Serve(s.fs, r).Reply? && Shaped(Advance(s, r).fs) && Leaked(Advance(s, r), nr)
  {
    hide Inv, HaltsWhen, Serve, Allowed, Advance;
    NumbersStay(s, r);
    AdvanceModel(s, r);
    LeaksGrow(s, r);
    var i :| 0 <= i < |s.leaks| && i < NR_INODE && s.leaks[i] > 0 && s.fs.cache[i].num == nr;
    LeakIsUsed(s, i);
    assert Advance(s, r).leaks[i] > 0;
  }

  lemma {:induction false} LeakedStaysOverRun(s: State, requests: seq<Request>, s': State, nr: nat)
    requires Inv(s) && Shaped(s.fs) && Run(s, requests, s') && Leaked(s, nr)
    ensures Shaped(s'.fs) && Leaked(s', nr) && Inv(s')
    decreases |requests|
  {
    hide Inv, Advance, Serve, Leaked;
    if requests == [] {
    } else {
      StepKeepsInv(s, requests[0]);
      LeakedStays(s, requests[0], nr);
      LeakedStaysOverRun(Advance(s, requests[0]), requests[1..], s', nr);
    }
  }

  /** Once an unlink of a file has been refused, because somebody had it open, every later unlink of it
      is refused, also when nobody has it open any more. */
  lemma RefusedForEver(s: State, r: Request, requests: seq<Request>, s': State, q: Request)
    requires Shaped(s.fs) && Inv(s) && Allowed(s, r) && Fetches(s, r) && Refused(s, r)
    requires Serve(s.fs, r).Reply? && Run(Advance(s, r), requests, s')
    requires Shaped(s'.fs) && q.DoUnlink? && Allowed(s', q) && Search(s'.fs, q.path) == Search(s.fs, r.path)
    ensures Serve(s'.fs, q).Reply? && Serve(s'.fs, q).ret == -1
    ensures KeepsInodes(s'.fs, Serve(s'.fs, q).fs)
  {
    hide Inv, Serve, Advance, Search, Run, InUse, KeepsInodes, HaltsWhen, Leaked, Refused;
    var nr := Search(s.fs, r.path);
    StepKeepsInv(s, r);
    RefusalLeaks(s, r);
    LeakedStaysOverRun(Advance(s, r), requests, s', nr);
    UsedInode(s', nr);
    StepKeepsInv(s', q);
    NotHalted(s', q);
    UnlinkEffect(s', q);
  }

  lemma NotHalted(s: State, q: Request)
    requires Inv(s) && q.DoUnlink? && Search(s.fs, q.path) != 0
    ensures !HaltsWhen(s, q)
  {
  }

  lemma RefusalLeaks(s: State, r: Request)
    requires Inv(s) && Allowed(s, r) && Fetches(s, r) && Refused(s, r) && Serve(s.fs, r).Reply?
    ensures Shaped(Advance(s, r).fs) && Leaked(Advance(s, r), Search(s.fs, r.path))
  {
    hide DiskOk, RefsOk, Search, GetInode, Refused;
    var nr := Search(s.fs, r.path);
    SearchFinds(s.fs, s.owner, r.path);
    FetchOk(s.fs, s.owner, nr);
    var f := GetInode(s.fs.cache, s.fs.view.recs, nr);
    LeaksSize(s.fs, s.leaks, s.pend, NULL);
    RefusedReply(s, r);
    assert Advance(s, r).leaks[f.slot] > 0;
  }

  lemma RefusedReply(s: State, r: Request)
    requires Shaped(s.fs) && r.DoUnlink? && Fetches(s, r) && Refused(s, r)
    ensures var f := GetInode(s.fs.cache, s.fs.view.recs, Search(s.fs, r.path));
            Unlink(s.fs, r.path) == Reply(s.fs.(cache := f.cache), -1)
  {
    hide Search, GetInode;
  }
}
