/** The file system server: its tables in memory, its sectors on the device, and the code of
    fs/opera.c, fs/misc.c and fs/main.c that works on them. */
module FileSystem {
  import opened ProcTable
  import opened Bits
  import opened BlockDevice
  import opened Records
  import opened Directory
  import opened SectorMap
  import opened FsModel
  import opened FsInvariant
  import opened FsRefs
  import opened FsRun
  import opened FsLayout
  import opened FileIO
  import Mkfs

  class Server {
    const dev: Device
    /** nr_smap_sects of the super block. */
    const k: nat
    /** inode_table, f_desc_table, and the filp arrays of all processes. */
    var cache: seq<CachedInode>
    var desc: seq<FileDesc>
    var filp: seq<seq<int>>

    ghost var owner: Owner
    ghost var leaks: seq<nat>
    ghost var pend: Pending

    /** init_fs on a device of at least the size that mkfs asserts; the layout is the one of the
        grid while the data area starts below sector 2048. */
    constructor (dev: Device)
      requires |dev.sectors| > INSTALL_START_SECT + INSTALL_NR_SECTS
      requires FirstSect(|dev.sectors| / BITS_PER_SECT + 1) < 2048
      modifies dev
      ensures this.dev == dev && k == |old(dev.sectors)| / BITS_PER_SECT + 1
      ensures Valid() && Initial(Now())
    {
      hide Formatted, Inv, Initial, FsModel.GetInode, ViewOf;
      this.dev := dev;
      k := |dev.sectors| / BITS_PER_SECT + 1;
      desc := seq(NR_FILE_DESC, _ => FileDesc(false, 0, 0, NULL));
      cache := seq(NR_INODE, _ => CachedInode(NO_RECORD, 0, 0));
      filp := seq(NR_PROCS, _ => seq(NR_FILES, _ => NULL));
      owner := seq(GRID, _ => 0);
      leaks := seq(NR_INODE, _ => 0);
      pend := Nobody;
      new;
      Mkfs.Format(dev, k);
      ghost var empty := cache;
      var ok, slot := GetInode(ROOT_INODE);
      ViewRecord(dev.sectors, k, ROOT_INODE);
      FirstFetch(empty, View().recs);
      FreshServer(Now());
    }

    ghost function View(): FsModel.View
      reads this, dev
      requires BigEnough(dev.sectors, k)
    {
      ViewOf(dev.sectors, k)
    }

    ghost function Model(): Fs
      reads this, dev
      requires BigEnough(dev.sectors, k)
    {
      Fs(FirstSect(k), View(), cache, desc, filp)
    }

    ghost function Now(): State
      reads this, dev
      requires BigEnough(dev.sectors, k)
    {
      State(Model(), owner, leaks, pend)
    }

    ghost predicate Valid()
      reads this, dev
    {
      BigEnough(dev.sectors, k) && Inv(Now())
    }

    // ---- fs/misc.c -----------------------------------------------------------

    /** Looks for inode num in the table while remembering the first free slot; not ok is the
        panic of a full table. */
    method GetInode(num: nat) returns (ok: bool, slot: nat)
      requires BigEnough(dev.sectors, k) && |cache| == NR_INODE && 1 <= num <= NR_INODES
      modifies this`cache, dev`fsbuf
      ensures var r := FsModel.GetInode(old(cache), View().recs, num);
              if ok then r == Fetched(cache, slot) else r == TableFull && cache == old(cache)
    {
      hide ViewOf, InodeAt;
      var q: nat := NR_INODE;
      var i := 0;
      while i < NR_INODE
        invariant 0 <= i <= NR_INODE && q <= NR_INODE && cache == old(cache)
        invariant forall j :: 0 <= j < i ==> !(cache[j].cnt != 0 && cache[j].num == num)
        invariant if q < NR_INODE then q < i && cache[q].cnt == 0 && (forall j :: 0 <= j < q ==> cache[j].cnt != 0)
                  else q == NR_INODE && forall j :: 0 <= j < i ==> cache[j].cnt != 0
      {
        if cache[i].cnt != 0 {
          if cache[i].num == num {
            cache := cache[i := cache[i].(cnt := cache[i].cnt + 1)];
            return true, i;
          }
        } else if q == NR_INODE {
          q := i;
        }
        i := i + 1;
      }
      if q == NR_INODE {
        return false, 0;
      }
      var s := RecordSect(k, num);
      dev.RdSect(s);
      cache := cache[q := CachedInode(InodeAt(dev.fsbuf, (num - 1) % INODES_PER_SECT), num, 1)];
      ViewRecord(dev.sectors, k, num);
      return true, q;
    }

    /** Writes a cached inode to its record. */
    method SyncInode(slot: nat)
      requires BigEnough(dev.sectors, k) && slot < |cache| && 1 <= cache[slot].num <= NR_INODES
      modifies dev
      ensures BigEnough(dev.sectors, k)
      ensures View() == old(View()).(recs := old(View()).recs[cache[slot].num - 1 := cache[slot].disk])
      ensures SameOutside(old(dev.sectors), dev.sectors, Table(k), FirstSect(k))
    {
      var num := cache[slot].num;
      var s := RecordSect(k, num);
      SetRecord(dev.sectors, k, num, cache[slot].disk);
      dev.RdSect(s);
      dev.fsbuf := Records.PutInode(dev.fsbuf, (num - 1) % INODES_PER_SECT, cache[slot].disk);
      dev.WrSect(s);
    }

    /** search_file; the root inode says where the directory is and how long. */
    method SearchFile(path: seq<bv8>) returns (nr: U32)
      requires Valid()
      modifies dev`fsbuf
      ensures Valid() && Now() == old(Now()) && nr == Search(Model(), path)
    {
      hide ViewOf, Inv, Search, Resolve, Slots, Compared;
      InvGivesDisk(Now());
      RootFacts(Model(), owner);
      nr := Directory.SearchFile(dev, cache[ROOT_SLOT].disk.start, cache[ROOT_SLOT].disk.size, path);
      SearchAgrees(dev.sectors, k, Model(), path);
    }

    // ---- create --------------------------------------------------------------

    /** alloc_imap_bit and alloc_smap_bit; not ok is the failed assert of the latter. */
    method AllocBits() returns (ok: bool, nr: nat, start: nat, ghost b: nat)
      requires Valid()
      modifies dev
      ensures BigEnough(dev.sectors, k)
      ensures ok ==> DataKept(old(dev.sectors), dev.sectors, k)
      ensures ok <==> FreeRun(owner) < GRID
      ensures nr == Least(old(View()).inodeMap) && FIRST_FILE_INODE <= nr <= LAST_FILE_INODE
      ensures b == Least(old(View()).sectMap)
      ensures ok ==>
                && start == b - 1 + FirstSect(k)
                && View() == old(View()).(
                     inodeMap := old(View()).inodeMap[nr := true],
                     sectMap := Fill(old(View()).sectMap, b, b + NR_DEFAULT_FILE_SECTS, true))
    {
      hide ViewOf, Inv, BitAt, Fill, Least, FreeRun;
      InvGivesDisk(Now());
      ghost var s0 := dev.sectors;
      SomeInodeFree(Model(), owner);
      LeastIsFreeRun(Model(), owner);
      ghost var c;
      nr, c := AllocImapBit(dev, IMAP);
      ghost var s1 := dev.sectors;
      LeastInodeBit(s0, k, c);
      SetInodeMap(s0, s1, k, nr, true);
      ok, start, b := AllocSmapBit(dev, SMAP, k, FirstSect(k), NR_DEFAULT_FILE_SECTS);
      LeastSectBit(s0, s1, k, b);
      if ok {
        SetSectMap(s1, dev.sectors, k, b, b + NR_DEFAULT_FILE_SECTS, true);
      } else {
        StillBigEnough(s0, dev.sectors, k);
      }
    }

    /** new_inode: fetches a slot for inode nr, sets the fields, and writes them to disk. */
    method NewInode(nr: nat, start: nat, ghost fs: Fs, ghost b: nat) returns (slot: nat)
      requires BigEnough(dev.sectors, k) && Shaped(fs) && DiskOk(fs, owner)
      requires cache == fs.cache && View().recs == fs.view.recs
      requires FIRST_FILE_INODE <= nr <= LAST_FILE_INODE && !Live(owner, nr)
      requires start == b - 1 + FirstSect(k)
      modifies this`cache, dev
      ensures slot == FreeAt(old(cache)) && 0 < slot < NR_INODE
      ensures BigEnough(dev.sectors, k) && DataKept(old(dev.sectors), dev.sectors, k)
      ensures cache == old(cache)[slot := CachedInode(FsModel.NewInode(FirstSect(k), b), nr, 1)]
      ensures View() == old(View()).(recs := old(View()).recs[nr - 1 := FsModel.NewInode(FirstSect(k), b)])
    {
      hide ViewOf, FsModel.GetInode, FreeAt, DiskOk;
      var found;
      found, slot := GetInode(nr);
      FreshFetch(fs, owner, nr, CachedInode(FsModel.NewInode(FirstSect(k), b), nr, 1));
      cache := cache[slot := CachedInode(DiskInode(I_REGULAR, 0, start % 0x1_0000_0000, NR_DEFAULT_FILE_SECTS), nr, 1)];
      SyncInode(slot);
    }

    /** new_dir_entry: stores the entry, lengthens the root directory if it was appended, and syncs
        the root inode. */
    method AddToRoot(nr: U32, name: seq<bv8>, ghost n: nat)
      requires BigEnough(dev.sectors, k) && |cache| == NR_INODE && cache[ROOT_SLOT].num == ROOT_INODE
      requires cache[ROOT_SLOT].disk.start == FirstSect(k) && cache[ROOT_SLOT].disk.size == n * DIR_ENTRY_SIZE
      requires 0 < n < ENTRIES_PER_SECT && |name| <= MAX_FILENAME_LEN
      modifies this`cache, dev
      ensures BigEnough(dev.sectors, k) && DataKept(old(dev.sectors), dev.sectors, k)
      ensures var e := FirstWith(Prefix(old(View()).slots, n), 0);
              var root := old(cache)[ROOT_SLOT].disk;
              var root' := root.(size := (if e < n then n else n + 1) * DIR_ENTRY_SIZE);
              && e <= n
              && cache == old(cache)[ROOT_SLOT := old(cache)[ROOT_SLOT].(disk := root')]
              && View() == old(View()).(recs := old(View()).recs[0 := root'],
                                        slots := AddEntry(old(View()).slots, e, nr, name))
    {
      hide ViewOf, AddEntry, FirstWith, Slots, Prefix, WithEntry, SameOutside, DataKept;
      ghost var s0 := dev.sectors;
      var root := cache[ROOT_SLOT].disk;
      var n', e := NewDirEntry(dev, root.start, root.size / DIR_ENTRY_SIZE, nr, name);
      FirstAgrees(s0, k, n, 0, e);
      StoreEntry(s0, k, n, e, nr, name);
      ghost var s1 := dev.sectors;
      cache := cache[ROOT_SLOT := cache[ROOT_SLOT].(disk := root.(size := n' * DIR_ENTRY_SIZE))];
      SyncInode(ROOT_SLOT);
      RecordsKeepData(s0, s1, dev.sectors, k);
    }

    /** create_file, for a path that search_file did not find. */
    method CreateFile(path: seq<bv8>) returns (ok: bool, slot: nat)
      requires Valid() && SLASH !in NamePart(path)
      modifies this`cache, dev
      ensures BigEnough(dev.sectors, k)
      ensures ok ==> DataKept(old(dev.sectors), dev.sectors, k)
      ensures ok <==> FreeRun(owner) < GRID
      ensures ok ==> FsModel.CreateFile(old(Model()), path) == Created(Model(), slot)
    {
      hide ViewOf, Inv, DiskOk, Fill, Least, AddEntry, FirstWith, Prefix, FsModel.NewInode, FsModel.CreateFile;
      hide RunStart, FreeRun, Uniform;
      InvGivesDisk(Now());
      ghost var fs, n := Model(), Entries(Model());
      RootFacts(fs, owner);
      FreeInodeFacts(fs, owner);
      FreeRunFacts(fs, owner);
      var stripped, name := StripPath(path);
      var nr, start;
      ghost var b;
      ok, nr, start, b := AllocBits();
      if !ok {
        slot := 0;
        return;
      }
      slot := NewInode(nr, start, fs, b);
      AddToRoot(nr, name, n);
      ghost var slot', root' := CreateShape(fs, owner, path);
    }

    // ---- open and close ------------------------------------------------------

    method FirstFreeFd(p: Pid) returns (fd: nat)
      requires |filp| == NR_PROCS && |filp[p]| == NR_FILES
      ensures fd == FirstNull(filp[p])
    {
      fd := 0;
      while fd < NR_FILES && filp[p][fd] != NULL
        invariant fd <= NR_FILES && forall j :: 0 <= j < fd ==> filp[p][j] != NULL
      {
        fd := fd + 1;
      }
    }

    method FirstFreeDesc() returns (d: nat)
      requires |desc| == NR_FILE_DESC
      ensures d == FreeDesc(desc)
    {
      d := 0;
      while d < NR_FILE_DESC && desc[d].inode != NULL
        invariant d <= NR_FILE_DESC && forall j :: 0 <= j < d ==> desc[j].inode != NULL
      {
        d := d + 1;
      }
    }

    /** Connects process, descriptor and inode; not ok is a failed assert on the inode's type. */
    method Attach(p: Pid, fd: nat, d: nat, slot: nat, rdwr: bool) returns (ok: bool)
      requires BigEnough(dev.sectors, k) && Shaped(Model()) && fd < NR_FILES && d < NR_FILE_DESC && slot < NR_INODE
      modifies this`filp, this`desc
      ensures ok <==> Connect(old(Model()), p, fd, d, slot, rdwr).Reply?
      ensures ok ==> Connect(old(Model()), p, fd, d, slot, rdwr) == Reply(Model(), fd)
    {
      hide ViewOf;
      filp := filp[p := filp[p][fd := d]];
      desc := desc[d := FileDesc(rdwr, 0, 1, slot)];
      ok := Openable(cache[slot]);
    }

    /** do_open.  It stops the machine exactly in the cases of HaltsWhen; otherwise it returns a
        descriptor number or -1 and keeps everything consistent. */
    method DoOpen(p: Pid, path: seq<bv8>, creat: bool, rdwr: bool) returns (ok: bool, ret: int)
      requires Valid() && Accepts(Now(), FsRun.DoOpen(p, path, creat, rdwr))
      modifies this, dev
      ensures BigEnough(dev.sectors, k) && (ok ==> Valid())
      ensures Served(old(Now()), FsRun.DoOpen(p, path, creat, rdwr), ok, Now(), ret)
      ensures ok ==> DataKept(old(dev.sectors), dev.sectors, k)
    {
      assert CString(path);
      hide ViewOf, Inv, Allowed, HaltsWhen, Advance, Open;
      ghost var s0, r := Now(), FsRun.DoOpen(p, path, creat, rdwr);
      InvGivesDisk(s0);
      StepKeepsInv(s0, r);
      ok, ret := OpenTables(p, path, creat, rdwr);
      if ok {
        Book(s0, r);
      }
    }

    /** Brings the bookkeeping of the proof up to date after a request. */
    ghost method Book(s0: State, r: Request)
      requires BigEnough(dev.sectors, k) && Shaped(s0.fs) && Allowed(s0, r) && Serve(s0.fs, r).Reply?
      requires Inv(Advance(s0, r)) && Model() == Serve(s0.fs, r).fs
      modifies this`owner, this`leaks, this`pend
      ensures Now() == Advance(s0, r) && Valid()
    {
      hide ViewOf, Inv, Allowed, Advance, Serve;
      owner, leaks, pend := Advance(s0, r).owner, Advance(s0, r).leaks, Advance(s0, r).pend;
      AdvanceModel(s0, r);
    }

    /** The executable part of do_open. */
    method OpenTables(p: Pid, path: seq<bv8>, creat: bool, rdwr: bool) returns (ok: bool, ret: int)
      requires Valid() && CString(path)
      modifies this`cache, this`filp, this`desc, dev
      ensures BigEnough(dev.sectors, k)
      ensures ok ==> DataKept(old(dev.sectors), dev.sectors, k)
      ensures ok <==> Open(old(Model()), p, path, creat, rdwr).Reply?
      ensures ok ==> Open(old(Model()), p, path, creat, rdwr) == Reply(Model(), ret)
    {
      hide ViewOf, Inv, Search, Connect, FsModel.CreateFile, FsModel.GetInode, FirstNull, FreeDesc, DiskOk;
      InvGivesDisk(Now());
      ret := -1;
      if !(|path| < MAX_PATH_LEN) {
        return false, -1;
      }
      var fd := FirstFreeFd(p);
      if fd >= NR_FILES {
        return false, -1;
      }
      var d := FirstFreeDesc();
      if d >= NR_FILE_DESC {
        return false, -1;
      }
      var nr := SearchFile(path);
      var slot;
      ghost var fs := Model();
      if creat {
        if nr != 0 {
          return true, -1;
        }
        var stripped, name := StripPath(path);
        if !stripped {
          return true, -1;
        }
        ok, slot := CreateFile(path);
        CreatedExactly(fs, owner, path);
      } else {
        if !rdwr {
          return false, -1;
        }
        if nr == 0 {
          return true, -1;
        }
        SearchFinds(fs, owner, path);
        FetchOk(fs, owner, nr);
        ok, slot := GetInode(nr);
      }
      if !ok {
        return;
      }
      ok := Attach(p, fd, d, slot, rdwr);
      ret := fd;
    }

    /** Takes one reference off the descriptor behind an entry and off its inode, and clears the
        entry: the common part of do_close and fs_exit. */
    method Release(p: Pid, fd: nat)
      requires BigEnough(dev.sectors, k) && Shaped(Model()) && OpenFile(Model(), p, fd)
      modifies this`cache, this`desc, this`filp
      ensures Model() == Closed(old(Model()), p, fd)
    {
      hide ViewOf;
      var d := filp[p][fd];
      var slot := desc[d].inode;
      cache := cache[slot := cache[slot].(cnt := cache[slot].cnt - 1)];
      desc := desc[d := desc[d].(cnt := desc[d].cnt - 1)];
      if desc[d].cnt == 0 {
        desc := desc[d := desc[d].(inode := NULL)];
      }
      filp := filp[p := filp[p][fd := NULL]];
    }

    /** The executable part of do_close. */
    method CloseEntry(p: Pid, fd: nat) returns (ok: bool, ret: int)
      requires BigEnough(dev.sectors, k) && Shaped(Model()) && fd < NR_FILES
      requires NULL <= filp[p][fd] < NR_FILE_DESC
      requires filp[p][fd] != NULL ==> NULL <= desc[filp[p][fd]].inode < NR_INODE
      modifies this`cache, this`desc, this`filp
      ensures ok <==> Close(old(Model()), p, fd).Reply?
      ensures ok ==> Close(old(Model()), p, fd) == Reply(Model(), ret)
    {
      hide ViewOf, Drop;
      ret := 0;
      var d := filp[p][fd];
      if d == NULL {
        return false, 0;
      }
      if desc[d].inode == NULL {
        return true, 0;
      }
      if cache[desc[d].inode].cnt <= 0 {
        return false, 0;
      }
      Release(p, fd);
      ok := true;
    }

    /** do_close stops only on an entry that is not open: a descriptor without an inode, which the
        source provides for, never occurs. */
    method DoClose(p: Pid, fd: nat) returns (ok: bool, ret: int)
      requires Valid() && Accepts(Now(), FsRun.DoClose(p, fd))
      modifies this
      ensures BigEnough(dev.sectors, k) && (ok ==> Valid())
      ensures Served(old(Now()), FsRun.DoClose(p, fd), ok, Now(), ret)
    {
      hide ViewOf, Inv, HaltsWhen, Advance, Close;
      ghost var s0, r := Now(), FsRun.DoClose(p, fd);
      InvGivesDisk(s0);
      StepKeepsInv(s0, r);
      FilpInRange(s0, p, fd);
      ok, ret := CloseEntry(p, fd);
      if ok {
        Book(s0, r);
      }
    }

    /** The executable part of fs_exit; a null pointer on the way is a fault. */
    method ExitFiles(p: Pid) returns (ok: bool)
      requires BigEnough(dev.sectors, k) && Shaped(Model()) && FilpOk(filp)
      requires forall d :: 0 <= d < NR_FILE_DESC ==> NULL <= desc[d].inode < NR_INODE
      modifies this`cache, this`desc, this`filp
      ensures ok <==> Exit(old(Model()), p, 0).Reply?
      ensures ok ==> Exit(old(Model()), p, 0) == Reply(Model(), 0)
    {
      hide ViewOf;
      ghost var fs0 := Model();
      var i := 0;
      while i < NR_FILES
        invariant 0 <= i <= NR_FILES && Shaped(Model()) && FilpOk(filp)
        invariant forall d :: 0 <= d < NR_FILE_DESC ==> NULL <= desc[d].inode < NR_INODE
        invariant Exit(fs0, p, 0) == Exit(Model(), p, i)
      {
        var d := filp[p][i];
        if d != NULL {
          if desc[d].inode == NULL {
            return false;
          }
          ReleaseKeepsRanges(Model(), p, i);
          Release(p, i);
        }
        i := i + 1;
      }
      ok := true;
    }

    method FsExit(p: Pid) returns (ok: bool, ret: int)
      requires Valid() && Accepts(Now(), DoExit(p))
      modifies this
      ensures BigEnough(dev.sectors, k) && (ok ==> Valid())
      ensures Served(old(Now()), DoExit(p), ok, Now(), ret)
    {
      hide ViewOf, Inv, HaltsWhen, Advance, Exit;
      ghost var s0, r := Now(), DoExit(p);
      InvGivesDisk(s0);
      StepKeepsInv(s0, r);
      RangesFromInv(s0);
      ok := ExitFiles(p);
      ret := 0;
      if ok {
        Book(s0, r);
      }
    }

    // ---- fork ----------------------------------------------------------------

    /** The memory manager's copy of the parent's filp array into the child's record. */
    method CopyFilp(parent: Pid, child: Pid)
      requires Valid() && Accepts(Now(), DoForkCopy(parent, child))
      modifies this
      ensures Valid() && Served(old(Now()), DoForkCopy(parent, child), true, Now(), 0)
    {
      hide ViewOf, Inv, HaltsWhen, Advance;
      ghost var s0, r := Now(), DoForkCopy(parent, child);
      InvGivesDisk(s0);
      StepKeepsInv(s0, r);
      filp := filp[child := filp[parent]];
      Book(s0, r);
    }

    /** The executable part of fs_fork. */
    method ShareFiles(child: Pid) returns (ok: bool)
      requires BigEnough(dev.sectors, k) && Shaped(Model()) && FilpOk(filp)
      requires forall d :: 0 <= d < NR_FILE_DESC ==> NULL <= desc[d].inode < NR_INODE
      modifies this`cache, this`desc
      ensures ok <==> ForkCount(old(Model()), child, 0).Reply?
      ensures ok ==> ForkCount(old(Model()), child, 0) == Reply(Model(), 0)
    {
      hide ViewOf, ForkCount, FilpOk;
      ghost var fs0 := Model();
      FilpRow(fs0, child);
      var i := 0;
      while i < NR_FILES
        invariant 0 <= i <= NR_FILES && Shaped(Model()) && filp == fs0.filp
        invariant forall d :: 0 <= d < NR_FILE_DESC ==> NULL <= desc[d].inode < NR_INODE
        invariant ForkCount(fs0, child, 0) == ForkCount(Model(), child, i)
      {
        var d := filp[child][i];
        CountOneEntry(Model(), child, i);
        if d != NULL {
          var slot := desc[d].inode;
          desc := desc[d := desc[d].(cnt := desc[d].cnt + 1)];
          if slot == NULL {
            return false;
          }
          cache := cache[slot := cache[slot].(cnt := cache[slot].cnt + 1)];
        }
        i := i + 1;
      }
      AllCounted(Model(), child);
      ok := true;
    }

    /** fs_fork. */
    method FsFork(child: Pid) returns (ok: bool, ret: int)
      requires Valid() && Accepts(Now(), DoForkCount(child))
      modifies this
      ensures BigEnough(dev.sectors, k) && (ok ==> Valid())
      ensures Served(old(Now()), DoForkCount(child), ok, Now(), ret)
    {
      hide ViewOf, Inv, HaltsWhen, Advance, ForkCount;
      ghost var s0, r := Now(), DoForkCount(child);
      InvGivesDisk(s0);
      StepKeepsInv(s0, r);
      RangesFromInv(s0);
      ok := ShareFiles(child);
      ret := 0;
      if ok {
        Book(s0, r);
      }
    }

    // ---- unlink and stat -----------------------------------------------------

    /** The bitmap part of do_unlink; not ok is a failed assert. */
    method ClearMaps(nr: nat, s: nat, cnt: nat) returns (ok: bool)
      requires BigEnough(dev.sectors, k) && nr < NR_INODES && 0 < cnt
      requires s + ClearedLength(s, cnt) <= k * BITS_PER_SECT
      modifies dev
      ensures BigEnough(dev.sectors, k)
      ensures ok ==> DataKept(old(dev.sectors), dev.sectors, k)
      ensures ok <==> old(View()).inodeMap[nr] &&
                      Uniform(old(View()).sectMap, s, s + ClearedLength(s, cnt), true)
      ensures ok ==> View() == old(View()).(
                       inodeMap := old(View()).inodeMap[nr := false],
                       sectMap := Fill(old(View()).sectMap, s, s + ClearedLength(s, cnt), false))
    {
      hide ViewOf, BitAt, Fill, Uniform, ClearedLength;
      ghost var s0 := dev.sectors;
      InodeBit(s0, k, nr);
      ok := ClearImapBit(dev, IMAP, nr);
      if !ok {
        StillBigEnough(s0, dev.sectors, k);
        return;
      }
      ghost var s1 := dev.sectors;
      SetInodeMap(s0, s1, k, nr, false);
      SectBits(s1, k, s, s + ClearedLength(s, cnt));
      ClearedSome(s, cnt);
      ok := ClearSmapRun(dev, SMAP, k, s, cnt);
      if ok {
        SetSectMap(s1, dev.sectors, k, s, s + ClearedLength(s, cnt), false);
      } else {
        StillBigEnough(s1, dev.sectors, k);
      }
    }

    /** The directory part of do_unlink; the new size of the root stays in memory. */
    method DropFromRoot(nr: U32) returns (ok: bool)
      requires BigEnough(dev.sectors, k) && |cache| == NR_INODE && nr != 0
      requires cache[ROOT_SLOT].disk.start == FirstSect(k) && cache[ROOT_SLOT].disk.size % DIR_ENTRY_SIZE == 0
      requires 0 < cache[ROOT_SLOT].disk.size / DIR_ENTRY_SIZE < ENTRIES_PER_SECT
      modifies this`cache, dev
      ensures BigEnough(dev.sectors, k)
      ensures ok ==> DataKept(old(dev.sectors), dev.sectors, k)
      ensures var root := old(cache)[ROOT_SLOT];
              var n := root.disk.size / DIR_ENTRY_SIZE;
              var e := FirstWith(Prefix(old(View()).slots, n), nr);
              var size' := if e == n - 1 then LiveEnd(old(View()).slots[..e]) * DIR_ENTRY_SIZE else root.disk.size;
              && (ok <==> e < n)
              && (ok ==> cache == old(cache)[ROOT_SLOT := root.(disk := root.disk.(size := size'))])
              && (ok ==> View() == old(View()).(slots := old(View()).slots[e := EMPTY_SLOT]))
    {
      hide ViewOf, FirstWith, Slots, Prefix, WithoutEntry, LiveEnd;
      ghost var s0 := dev.sectors;
      var root := cache[ROOT_SLOT].disk;
      var n := root.size / DIR_ENTRY_SIZE;
      var n';
      ghost var e;
      ok, n', e := RemoveDirEntry(dev, root.start, n, nr);
      FirstAgrees(s0, k, n, nr, e);
      if ok {
        EraseEntry(s0, k, e);
        if e == n - 1 {
          SameLiveEnd(s0, k, n, e, n');
        }
        cache := cache[ROOT_SLOT := cache[ROOT_SLOT].(disk := root.(size := n' * DIR_ENTRY_SIZE))];
      } else {
        StillBigEnough(s0, dev.sectors, k);
      }
    }

    /** do_unlink from the bitmaps on. */
    method RemoveFile(nr: U32, slot: nat) returns (ok: bool)
      requires BigEnough(dev.sectors, k) && Shaped(Model()) && DiskOk(Model(), owner) && Removable(Model(), nr, slot)
      modifies this`cache, dev
      ensures BigEnough(dev.sectors, k) && DataKept(old(dev.sectors), dev.sectors, k)
      ensures ok && Remove(old(Model()), nr, slot) == Reply(Model(), 0)
    {
      hide ViewOf, DiskOk, Fill, FirstWith, LiveEnd, Uniform, ClearedLength, Prefix, Remove;
      ghost var fs := Model();
      RemoveShape(fs, owner, nr, slot);
      RootFacts(fs, owner);
      MapSize(dev.sectors, k);
      var inode := cache[slot].disk;
      ok := ClearMaps(nr, inode.start - FirstSect(k) + 1, inode.nrSects);
      cache := cache[slot := cache[slot].(disk := DiskInode(0, 0, 0, 0))];
      SyncInode(slot);
      cache := cache[slot := cache[slot].(cnt := cache[slot].cnt - 1)];
      ok := DropFromRoot(nr);
    }

    /** The executable part of do_unlink. */
    method UnlinkPath(path: seq<bv8>) returns (ok: bool, ret: int)
      requires Valid() && CString(path) && |path| < MAX_PATH_LEN && Search(Model(), path) != CMD_TAR_INODE
      modifies this`cache, dev
      ensures BigEnough(dev.sectors, k)
      ensures ok ==> DataKept(old(dev.sectors), dev.sectors, k)
      ensures ok <==> Unlink(old(Model()), path).Reply?
      ensures ok ==> Unlink(old(Model()), path) == Reply(Model(), ret)
    {
      hide ViewOf, Inv, Search, FsModel.GetInode, Remove, DiskOk;
      InvGivesDisk(Now());
      ghost var fs := Model();
      if path == [SLASH] {
        return true, -1;
      }
      var nr := SearchFile(path);
      if nr == 0 {
        return false, 0;
      }
      SearchFinds(fs, owner, path);
      FetchOk(fs, owner, nr);
      var slot;
      ok, slot := GetInode(nr);
      if cache[slot].disk.mode != I_REGULAR {
        return true, -1;
      }
      if cache[slot].cnt > 1 {
        return true, -1;
      }
      ok := RemoveFile(nr, slot);
      ret := 0;
    }

    /** do_unlink stops only on a name that is not there; the asserts on the bitmaps and on the
        directory entry hold. */
    method DoUnlink(p: Pid, path: seq<bv8>) returns (ok: bool, ret: int)
      requires Valid() && Accepts(Now(), FsRun.DoUnlink(p, path))
      modifies this, dev
      ensures BigEnough(dev.sectors, k) && (ok ==> Valid())
      ensures Served(old(Now()), FsRun.DoUnlink(p, path), ok, Now(), ret)
      ensures ok ==> DataKept(old(dev.sectors), dev.sectors, k)
    {
      hide ViewOf, Inv, HaltsWhen, Advance, Unlink, Search;
      ghost var s0, r := Now(), FsRun.DoUnlink(p, path);
      InvGivesDisk(s0);
      StepKeepsInv(s0, r);
      ok, ret := UnlinkPath(path);
      if ok {
        Book(s0, r);
      }
    }

    /** The executable part of do_stat. */
    method StatPath(path: seq<bv8>) returns (ok: bool, ret: int, stat: FileStatus)
      requires Valid() && CString(path)
      modifies this`cache, dev`fsbuf
      ensures BigEnough(dev.sectors, k) && View() == old(View())
      ensures ok <==> FsModel.Stat(old(Model()), path).Reply?
      ensures ok ==> FsModel.Stat(old(Model()), path) == Reply(Model(), ret)
      ensures ok && ret == 0 ==> Reports(stat, old(Model()), path)
    {
      hide ViewOf, Inv, Search, FsModel.GetInode, DiskOk;
      InvGivesDisk(Now());
      ghost var fs := Model();
      stat := FileStatus(0, 0, 0, 0);
      if !(|path| < MAX_PATH_LEN) {
        return false, -1, stat;
      }
      var ino := SearchFile(path);
      if ino == 0 {
        return true, -1, stat;
      }
      SearchFinds(fs, owner, path);
      FetchOk(fs, owner, ino);
      var slot;
      ok, slot := GetInode(ino);
      FetchedRecord(fs.(cache := cache), owner, slot);
      var i := cache[slot].disk;
      stat := FileStatus(cache[slot].num, i.mode, if IsSpecial(i.mode) then i.start else 0, i.size);
      cache := cache[slot := cache[slot].(cnt := cache[slot].cnt - 1)];
      ret := 0;
    }

    /** do_stat stops on a path that does not fit its buffer.  Otherwise it reports what the inode
        record says, except that the size of the root directory comes from memory. */
    method DoStat(p: Pid, path: seq<bv8>) returns (ok: bool, ret: int, stat: FileStatus)
      requires Valid() && Accepts(Now(), FsRun.DoStat(p, path))
      modifies this, dev
      ensures BigEnough(dev.sectors, k) && (ok ==> Valid())
      ensures Served(old(Now()), FsRun.DoStat(p, path), ok, Now(), ret)
      ensures dev.sectors == old(dev.sectors)
      ensures ok && ret == 0 ==> Reports(stat, old(Model()), path)
    {
      hide ViewOf, Inv, HaltsWhen, Advance, FsModel.Stat, Search;
      ghost var s0, r := Now(), FsRun.DoStat(p, path);
      InvGivesDisk(s0);
      StepKeepsInv(s0, r);
      ok, ret, stat := StatPath(path);
      if ok {
        Book(s0, r);
      }
    }

    // ---- read and write ------------------------------------------------------

    /** The sector loop, and what the view sees of it. */
    method MoveBytes(start: nat, pos: nat, len: nat, limit: nat, read: bool, data: seq<bv8>)
      returns (moved: nat, out: seq<bv8>)
      requires BigEnough(dev.sectors, k) && (!read ==> |data| == len)
      requires start + pos / SECTOR_SIZE + Span(Sects(pos, Min(pos + len, limit))) <= |dev.sectors|
      modifies dev`sectors
      ensures BigEnough(dev.sectors, k) && |dev.sectors| == |old(dev.sectors)|
      ensures moved == Moved(pos, len, limit) <= len
      ensures read ==> |out| == moved && Holds(old(dev.sectors), start * SECTOR_SIZE + pos, out)
      ensures StoredAbove(old(dev.sectors), dev.sectors, FirstSect(k), start * SECTOR_SIZE + pos,
                          if read then [] else data[..moved])
      ensures read || start >= FirstSect(k) + 2048 ==> View() == old(View())
    {
      hide ViewOf, Moved, Stored, StoredAbove, Holds, Span;
      ghost var before, base := dev.sectors, start * SECTOR_SIZE + pos;
      moved, out := FileIO.Transfer(dev, read, start, pos, len, limit, data);
      ghost var stored := if read then [] else data[..moved];
      NothingMoved(before, base);
      assert Stored(before, dev.sectors, base, stored);
      StoredEverywhere(before, dev.sectors, FirstSect(k), base, stored);
      StillBigEnough(before, dev.sectors, k);
      if start >= FirstSect(k) + 2048 {
        FarFromView(before, dev.sectors, k, start + pos / SECTOR_SIZE);
      }
    }

    /** The new position and, when it lies behind the end of the file, the new size. */
    method MovePosition(d: nat, bytes: nat)
      requires BigEnough(dev.sectors, k) && Shaped(Model()) && d < NR_FILE_DESC && 0 <= desc[d].inode < NR_INODE
      requires 1 <= cache[desc[d].inode].num <= NR_INODES
      modifies this`desc, this`cache, dev
      ensures BigEnough(dev.sectors, k) && SameOutside(old(dev.sectors), dev.sectors, Table(k), FirstSect(k))
      ensures Model() == Transferred(old(Model()), d, bytes)
    {
      hide ViewOf;
      var slot := desc[d].inode;
      desc := desc[d := desc[d].(pos := desc[d].pos + bytes)];
      var pos, inode := desc[d].pos, cache[slot].disk;
      if pos > inode.size {
        cache := cache[slot := cache[slot].(disk := inode.(size := pos % 0x1_0000_0000))];
        SyncInode(slot);
      }
    }

    /** The executable part of do_rw for an entry that leads to an inode in use. */
    method RwEntry(p: Pid, fd: nat, read: bool, len: nat, data: seq<bv8>) returns (r: RwResult)
      requires BigEnough(dev.sectors, k) && Shaped(Model()) && OpenFile(Model(), p, fd)
      requires (!read ==> |data| == len) && WindowOnDisk(Model(), |dev.sectors|, p, fd, read, len)
      requires var c := cache[desc[filp[p][fd]].inode];
               && 1 <= c.num <= NR_INODES && c.disk.mode in {I_DIRECTORY, I_CHAR_SPECIAL, I_REGULAR}
               && (c.disk.mode == I_REGULAR ==> c.disk.start >= FirstSect(k) + 2048)
      modifies this`desc, this`cache, dev
      ensures BigEnough(dev.sectors, k) && !r.NotOpen?
      ensures RwMoves(old(Model()), old(dev.sectors), p, fd, read, len, data, r, Model(), dev.sectors)
    {
      hide ViewOf, Moved, Stored, StoredAbove, Holds, Span, Transferred;
      var d := filp[p][fd];
      if !desc[d].rdwr {
        return Denied;
      }
      var pos, slot := desc[d].pos, desc[d].inode;
      var inode := cache[slot].disk;
      if TypeOf(inode.mode) == I_CHAR_SPECIAL {
        return ToDriver(inode.start % 0x100);
      }
      assert inode.mode == I_REGULAR || inode.mode == I_DIRECTORY;
      var limit := if read then inode.size else inode.nrSects * SECTOR_SIZE;
      ghost var before := dev.sectors;
      var moved, out := MoveBytes(inode.start, pos, len, limit, read, data);
      ghost var mid := dev.sectors;
      ViewShape(mid, k);
      MovePosition(d, moved);
      RecordsBelow(before, mid, dev.sectors, k, inode.start * SECTOR_SIZE + pos, if read then [] else data[..moved]);
      r := Done(moved, out);
    }

    /** do_rw on an entry of the caller: RwMoves says what is moved.  When the file is a regular
        one and the bytes lie within its sectors, everything stays consistent. */
    method DoRw(p: Pid, fd: nat, read: bool, len: nat, data: seq<bv8>) returns (r: RwResult)
      requires Valid() && RwAccepts(Now(), |dev.sectors|, p, fd, read, len, data)
      modifies this, dev
      ensures BigEnough(dev.sectors, k)
      ensures RwMoves(old(Model()), old(dev.sectors), p, fd, read, len, data, r, Model(), dev.sectors)
      ensures RwServed(old(Now()), p, fd, r, Now())
      ensures !r.Done? || Accepts(old(Now()), DoTransfer(p, fd, r.moved)) ==> Valid()
    {
      hide ViewOf, Inv, Advance, RwMoves, Transferred;
      ghost var s0 := Now();
      InvGivesDisk(s0);
      FilpInRange(s0, p, fd);
      if filp[p][fd] == NULL {
        NothingDone(Model(), dev.sectors, p, fd, read, len, data);
        return NotOpen;
      }
      OpenEntry(s0, p, fd);
      r := RwEntry(p, fd, read, len, data);
      RwLeaves(s0.fs, old(dev.sectors), p, fd, read, len, data, r, Model(), dev.sectors);
      if r.Done? && Allowed(s0, DoTransfer(p, fd, r.moved)) {
        ghost var q := DoTransfer(p, fd, r.moved);
        StepKeepsInv(s0, q);
        Book(s0, q);
      }
    }
  }

  /** NotOpen is a failed assert; ToDriver hands the request to the tty. */
  datatype RwResult = NotOpen | Denied | ToDriver(minor: nat) | Done(moved: nat, out: seq<bv8>)

  /** The size of the file for a read, its capacity for a write. */
  function Limit(c: CachedInode, read: bool): nat {
    if read then c.disk.size else c.disk.nrSects * SECTOR_SIZE
  }

  /** The windows of the transfer lie on the disk. */
  ghost predicate WindowOnDisk(fs: Fs, sects: nat, p: Pid, fd: nat, read: bool, len: nat)
    requires Shaped(fs) && OpenFile(fs, p, fd)
  {
    var f := fs.desc[fs.filp[p][fd]];
    var c := fs.cache[f.inode];
    c.disk.start + f.pos / SECTOR_SIZE + Span(Sects(f.pos, Min(f.pos + len, Limit(c, read)))) <= sects
  }

  ghost predicate RwAccepts(s: State, sects: nat, p: Pid, fd: nat, read: bool, len: nat, data: seq<bv8>) {
    && Shaped(s.fs) && Acts(s.pend, p) && fd < NR_FILES && (!read ==> |data| == len)
    && (OpenFile(s.fs, p, fd) ==> WindowOnDisk(s.fs, sects, p, fd, read, len))
  }

  /** What becomes of the consistent state: nothing, or the transfer of the run model if that
      model admits it. */
  ghost predicate RwServed(s0: State, p: Pid, fd: nat, r: RwResult, s1: State) {
    && (!r.Done? ==> s1 == s0)
    && (r.Done? && Accepts(s0, DoTransfer(p, fd, r.moved)) ==> s1 == Advance(s0, DoTransfer(p, fd, r.moved)))
  }

  /** What do_rw does on fs and the disk: a transfer moves Moved(...) bytes at the position of the
      descriptor; a read returns the bytes of the file; the data area changes in just the bytes
      written; and for a read, or a regular file, the tables and the view become those of
      Transferred. */
  ghost predicate RwMoves(fs: Fs, before: seq<Sector>, p: Pid, fd: nat, read: bool, len: nat, data: seq<bv8>,
                          r: RwResult, fs': Fs, after: seq<Sector>)
  {
    && Shaped(fs) && fd < NR_FILES && (!r.Done? ==> fs' == fs)
    && (r.NotOpen? <==> fs.filp[p][fd] == NULL)
    && (!r.NotOpen? ==> OpenFile(fs, p, fd) && (r.Denied? <==> !fs.desc[fs.filp[p][fd]].rdwr))
    && (r.Denied? || r.NotOpen? || 
        var f := fs.desc[fs.filp[p][fd]];
        var c := fs.cache[f.inode];
        && (r.ToDriver? <==> TypeOf(c.disk.mode) == I_CHAR_SPECIAL)
        && (r.ToDriver? ==> r.minor == c.disk.start % 0x100)
        && (r.Done? ==>
              && r.moved == Moved(f.pos, len, Limit(c, read)) <= len
              && (read ==> |r.out| == r.moved && Holds(before, c.disk.start * SECTOR_SIZE + f.pos, r.out))
              && (!read ==> |data| == len)
              && StoredAbove(before, after, fs.n1, c.disk.start * SECTOR_SIZE + f.pos,
                             if read then [] else data[..r.moved])
              && (read || c.disk.mode == I_REGULAR ==> fs' == Transferred(fs, fs.filp[p][fd], r.moved))))
  }

  lemma NothingDone(fs: Fs, sectors: seq<Sector>, p: Pid, fd: nat, read: bool, len: nat, data: seq<bv8>)
    requires Shaped(fs) && fd < NR_FILES && fs.filp[p][fd] == NULL
    ensures RwMoves(fs, sectors, p, fd, read, len, data, NotOpen, fs, sectors)
  {
  }

  lemma RwLeaves(fs: Fs, before: seq<Sector>, p: Pid, fd: nat, read: bool, len: nat, data: seq<bv8>,
                 r: RwResult, fs': Fs, after: seq<Sector>)
    requires RwMoves(fs, before, p, fd, read, len, data, r, fs', after) && !r.NotOpen?
    ensures !r.Done? ==> fs' == fs
    ensures Shaped(fs) && OpenFile(fs, p, fd)
    ensures r.Done? && fs.cache[fs.desc[fs.filp[p][fd]].inode].disk.mode == I_REGULAR ==>
              fs' == Transferred(fs, fs.filp[p][fd], r.moved)
  {
    hide Moved, Holds, StoredAbove, Transferred;
  }

  lemma ViewShape(sectors: seq<Sector>, k: nat)
    requires BigEnough(sectors, k)
    ensures var v := ViewOf(sectors, k); |v.inodeMap| == NR_INODES == |v.recs| && |v.slots| == MAX_ENTRIES
  {
    hide BitAt, Record, Slot;
  }

  /** Two regular files that are in use do not share sectors. */
  lemma FilesDisjoint(fs: Fs, owner: Owner, a: nat, b: nat)
    requires DiskOk(fs, owner) && a < NR_INODE && b < NR_INODE && a != b
    requires fs.cache[a].cnt != 0 && fs.cache[a].disk.mode == I_REGULAR
    requires fs.cache[b].cnt != 0 && fs.cache[b].disk.mode == I_REGULAR
    ensures var x, y := fs.cache[a].disk, fs.cache[b].disk;
            x.start + x.nrSects <= y.start || y.start + y.nrSects <= x.start
  {
    hide MapsOk, DirOk, RunOf;
    GridFits(fs, owner);
    FetchedRecord(fs, owner, a);
    FetchedRecord(fs, owner, b);
    DifferentInodes(fs, owner, a, b);
    if fs.cache[a].num != CMD_TAR_INODE {
      RegularIsOnGrid(fs, owner, fs.cache[a]);
    }
    if fs.cache[b].num != CMD_TAR_INODE {
      RegularIsOnGrid(fs, owner, fs.cache[b]);
    }
    if fs.cache[a].num != CMD_TAR_INODE && fs.cache[b].num != CMD_TAR_INODE {
      DifferentRuns(owner, fs.cache[a].num, fs.cache[b].num);
    }
  }

  lemma DifferentInodes(fs: Fs, owner: Owner, a: nat, b: nat)
    requires DiskOk(fs, owner) && a < NR_INODE && b < NR_INODE && a != b
    requires fs.cache[a].cnt != 0 && fs.cache[b].cnt != 0
    ensures fs.cache[a].num != fs.cache[b].num
    ensures fs.cache[a].num == CMD_TAR_INODE && fs.cache[a].disk.mode == I_REGULAR ==>
              fs.cache[a].disk.start == INSTALL_START_SECT && fs.cache[a].disk.nrSects == INSTALL_NR_SECTS
    ensures fs.cache[b].num == CMD_TAR_INODE && fs.cache[b].disk.mode == I_REGULAR ==>
              fs.cache[b].disk.start == INSTALL_START_SECT && fs.cache[b].disk.nrSects == INSTALL_NR_SECTS
  {
    hide MapsOk, DirOk;
  }

  lemma DifferentRuns(owner: Owner, x: nat, y: nat)
    requires x in owner && y in owner && x != y
    ensures RunOf(owner, x) != RunOf(owner, y)
  {
  }

  /** A write within the capacity of one open file leaves the contents of every other file in use
      as they were, although its windows are written back whole. */
  lemma WriteLeavesOtherFiles(fs: Fs, owner: Owner, before: seq<Sector>, p: Pid, fd: nat, len: nat, data: seq<bv8>,
                              r: RwResult, fs': Fs, after: seq<Sector>, other: nat, contents: seq<bv8>)
    requires DiskOk(fs, owner) && r.Done? && RwMoves(fs, before, p, fd, false, len, data, r, fs', after)
    requires var f := fs.desc[fs.filp[p][fd]];
             var c := fs.cache[f.inode];
             && c.cnt > 0 && c.disk.mode == I_REGULAR && f.pos + len <= c.disk.nrSects * SECTOR_SIZE
             && other < NR_INODE && other != f.inode
    requires var o := fs.cache[other];
             && o.cnt > 0 && o.disk.mode == I_REGULAR && |contents| <= o.disk.nrSects * SECTOR_SIZE
             && Holds(before, o.disk.start * SECTOR_SIZE, contents)
    ensures Holds(after, fs.cache[other].disk.start * SECTOR_SIZE, contents)
  {
    hide Moved, Transferred, DiskByte, DiskOk;
    var f := fs.desc[fs.filp[p][fd]];
    FilesDisjoint(fs, owner, f.inode, other);
    RegularStart(fs, owner, other);
    OtherBytesStay(before, after, fs.n1, fs.cache[f.inode].disk.start * SECTOR_SIZE + f.pos, data[..r.moved],
                   fs.cache[other].disk.start * SECTOR_SIZE, contents);
  }

  /** A transfer within the capacity of a file that was created from this disk stays on the disk. */
  lemma CreatedFilesFit(fs: Fs, owner: Owner, sects: nat, p: Pid, fd: nat, read: bool, len: nat)
    requires Shaped(fs) && DiskOk(fs, owner) && sects > INSTALL_START_SECT + INSTALL_NR_SECTS && OpenFile(fs, p, fd)
    requires var f := fs.desc[fs.filp[p][fd]];
             var c := fs.cache[f.inode];
             && c.cnt > 0 && c.disk.mode == I_REGULAR && c.num != CMD_TAR_INODE
             && f.pos + len <= c.disk.nrSects * SECTOR_SIZE
    ensures WindowOnDisk(fs, sects, p, fd, read, len)
  {
    hide MapsOk, DirOk, Span, RunOf;
    var f := fs.desc[fs.filp[p][fd]];
    var c := fs.cache[f.inode];
    FetchedRecord(fs, owner, f.inode);
    RegularIsOnGrid(fs, owner, c);
    GridFits(fs, owner);
    WindowLength(f.pos, Min(f.pos + len, Limit(c, read)));
  }

  lemma GridFits(fs: Fs, owner: Owner)
    requires DiskOk(fs, owner)
    ensures fs.n1 < 2048
  {
  }

  lemma WindowLength(pos: nat, end: nat)
    requires pos <= 2048 * SECTOR_SIZE && end <= 2048 * SECTOR_SIZE
    ensures pos / SECTOR_SIZE + Span(Sects(pos, end)) <= 4096
  {
  }

  /** The inode records lie below the data area. */
  lemma RecordsBelow(before: seq<Sector>, mid: seq<Sector>, after: seq<Sector>, k: nat, base: nat, bytes: seq<bv8>)
    requires StoredAbove(before, mid, FirstSect(k), base, bytes)
    requires SameOutside(mid, after, Table(k), FirstSect(k))
    ensures StoredAbove(before, after, FirstSect(k), base, bytes)
  {
    forall x | FirstSect(k) * SECTOR_SIZE <= x < |before| * SECTOR_SIZE
      ensures DiskByte(after, x) == DiskByte(mid, x)
    {
      assert after[x / SECTOR_SIZE] == mid[x / SECTOR_SIZE];
    }
  }

  /** Entries of a process that may act lead to inodes in use, of a kind that do_rw knows. */
  lemma OpenEntry(s: State, p: Pid, fd: nat)
    requires Inv(s) && Acts(s.pend, p) && fd < NR_FILES && s.fs.filp[p][fd] != NULL
    ensures OpenFile(s.fs, p, fd)
    ensures var c := s.fs.cache[s.fs.desc[s.fs.filp[p][fd]].inode];
            && c.cnt > 0 && 1 <= c.num <= NR_INODES && c.disk.mode in {I_DIRECTORY, I_CHAR_SPECIAL, I_REGULAR}
            && (c.disk.mode == I_REGULAR ==> c.disk.start >= s.fs.n1 + 2048)
  {
    hide DiskOk, Openable;
    EntryIsLive(s.fs, s.leaks, s.pend, p, fd);
    var slot := s.fs.desc[s.fs.filp[p][fd]].inode;
    FetchedRecord(s.fs, s.owner, slot);
    CachedIsOpenable(s.fs, s.owner, slot);
    if s.fs.cache[slot].disk.mode == I_REGULAR {
      RegularStart(s.fs, s.owner, slot);
    }
  }

  /** Regular files start behind the root directory. */
  lemma RegularStart(fs: Fs, owner: Owner, slot: nat)
    requires DiskOk(fs, owner) && slot < NR_INODE && fs.cache[slot].cnt != 0 && fs.cache[slot].disk.mode == I_REGULAR
    ensures fs.cache[slot].disk.start >= fs.n1 + 2048
  {
    hide MapsOk, DirOk, RunOf;
    GridFits(fs, owner);
    FetchedRecord(fs, owner, slot);
    if fs.cache[slot].num != CMD_TAR_INODE {
      RegularIsOnGrid(fs, owner, fs.cache[slot]);
    }
  }

  lemma FarFromView(before: seq<Sector>, after: seq<Sector>, k: nat, s: nat)
    requires BigEnough(before, k) && s >= FirstSect(k) + 2048 && SameOutside(before, after, s, |before|)
    ensures BigEnough(after, k) && ViewOf(after, k) == ViewOf(before, k)
  {
    hide ViewOf;
    DataOutsideView(before, after, k);
  }

  /** struct stat. */
  datatype FileStatus = FileStatus(ino: nat, mode: U32, rdev: U32, size: U32)

  predicate IsSpecial(mode: U32) {
    TypeOf(mode) == I_CHAR_SPECIAL || TypeOf(mode) == I_BLOCK_SPECIAL
  }

  /** The status of the inode that the path names, as its record on disk has it; the size of the
      root directory comes from memory. */
  ghost predicate Reports(stat: FileStatus, fs: Fs, path: seq<bv8>) {
    && Shaped(fs) && 1 <= Search(fs, path) < NR_INODES
    && var r := fs.view.recs[Search(fs, path) - 1];
       && stat.ino == Search(fs, path) && stat.mode == r.mode
       && stat.rdev == (if IsSpecial(r.mode) then r.start else 0)
       && (stat.ino != ROOT_INODE ==> stat.size == r.size)
  }

  lemma InodeBit(sectors: seq<Sector>, k: nat, nr: nat)
    requires BigEnough(sectors, k) && nr < NR_INODES
    ensures ViewOf(sectors, k).inodeMap[nr] <==> BitAt(sectors, IMAP, nr)
  {
    hide BitAt;
  }

  lemma SectBits(sectors: seq<Sector>, k: nat, a: nat, b: nat)
    requires BigEnough(sectors, k) && b <= k * BITS_PER_SECT
    ensures Uniform(ViewOf(sectors, k).sectMap, a, b, true) <==> MapSet(sectors, SMAP, k, a, b)
  {
    hide BitAt;
    var bits := MapView(sectors, SMAP, k);
    assert |bits| == k * BITS_PER_SECT;
    if Uniform(bits, a, b, true) {
      forall x | a <= x < b
        ensures BitAt(sectors, SMAP, x)
      {
        assert bits[x];
      }
    }
  }

  lemma MapSize(sectors: seq<Sector>, k: nat)
    requires BigEnough(sectors, k)
    ensures |ViewOf(sectors, k).sectMap| == k * BITS_PER_SECT
  {
    hide BitAt, Record, Slot;
  }

  lemma ClearedSome(s: nat, cnt: nat)
    requires 0 < cnt
    ensures 0 < ClearedLength(s, cnt)
  {
  }

  lemma SameLiveEnd(sectors: seq<Sector>, k: nat, n: nat, e: nat, end: nat)
    requires BigEnough(sectors, k) && e <= n < ENTRIES_PER_SECT
    requires IsLiveEnd(Slots(sectors, FirstSect(k), n), e, end)
    ensures LiveEnd(ViewOf(sectors, k).slots[..e]) == end
  {
    hide Slot, LiveEnd;
    var a, b := ViewOf(sectors, k).slots[..e], Slots(sectors, FirstSect(k), n);
    assert forall i :: 0 <= i < e ==> a[i] == b[i];
    var l := LiveEnd(a);
    assert IsLiveEnd(a, e, l);
    assert l > 0 ==> b[l - 1].inodeNr != 0;
    assert end > 0 ==> a[end - 1].inodeNr != 0;
  }

  lemma RangesFromInv(s: State)
    requires Inv(s)
    ensures FilpOk(s.fs.filp)
    ensures forall d :: 0 <= d < NR_FILE_DESC ==> NULL <= s.fs.desc[d].inode < NR_INODE
  {
  }

  lemma FilpRow(fs: Fs, p: Pid)
    requires Shaped(fs) && FilpOk(fs.filp)
    ensures forall i :: 0 <= i < NR_FILES ==> NULL <= fs.filp[p][i] < NR_FILE_DESC
  {
  }

  /** One round of fs_fork's loop in the model. */
  lemma CountOneEntry(fs: Fs, child: Pid, i: nat)
    requires Shaped(fs) && i < NR_FILES
    ensures var d := fs.filp[child][i];
            ForkCount(fs, child, i) ==
            if d == NULL then ForkCount(fs, child, i + 1)
            else if !(0 <= d < NR_FILE_DESC) || !(0 <= fs.desc[d].inode < NR_INODE) then Halt
            else ForkCount(Share(fs, d), child, i + 1)
  {
    hide Share;
  }

  lemma AllCounted(fs: Fs, child: Pid)
    requires Shaped(fs)
    ensures ForkCount(fs, child, NR_FILES) == Reply(fs, 0)
  {
  }

  lemma ReleaseKeepsRanges(fs: Fs, p: Pid, fd: nat)
    requires Shaped(fs) && OpenFile(fs, p, fd) && FilpOk(fs.filp)
    requires forall d :: 0 <= d < NR_FILE_DESC ==> NULL <= fs.desc[d].inode < NR_INODE
    ensures FilpOk(Closed(fs, p, fd).filp)
    ensures forall d :: 0 <= d < NR_FILE_DESC ==> NULL <= Closed(fs, p, fd).desc[d].inode < NR_INODE
    ensures Exit(fs, p, fd) == Exit(Closed(fs, p, fd), p, fd + 1)
  {
  }

  lemma FilpInRange(s: State, p: Pid, fd: nat)
    requires Inv(s) && fd < NR_FILES
    ensures NULL <= s.fs.filp[p][fd] < NR_FILE_DESC
    ensures s.fs.filp[p][fd] != NULL ==> NULL <= s.fs.desc[s.fs.filp[p][fd]].inode < NR_INODE
  {
    var d := s.fs.filp[p][fd];
    assert 0 <= d < NR_FILE_DESC ==> s.fs.desc[d].cnt == Refs(s.fs, s.pend, d);
  }

  lemma FirstAgrees(sectors: seq<Sector>, k: nat, n: nat, nr: U32, e: nat)
    requires BigEnough(sectors, k) && n < ENTRIES_PER_SECT
    requires IsFirstWith(Slots(sectors, FirstSect(k), n), nr, e)
    ensures FirstWith(Prefix(ViewOf(sectors, k).slots, n), nr) == e
  {
    hide Slot;
    assert Prefix(ViewOf(sectors, k).slots, n) == Slots(sectors, FirstSect(k), n);
  }

  lemma CreatedExactly(fs: Fs, owner: Owner, path: seq<bv8>)
    requires DiskOk(fs, owner)
    ensures Shaped(fs) && (FsModel.CreateFile(fs, path).Created? <==> FreeRun(owner) < GRID)
  {
    hide FsModel.CreateFile;
    FreeRunFacts(fs, owner);
    if FreeRun(owner) < GRID {
      CreateSucceedsAnyName(fs, owner, path);
    } else {
      CreateFails(fs, path);
    }
  }

  ghost predicate Accepts(s: State, r: Request) {
    Shaped(s.fs) && Allowed(s, r)
  }

  /** A request was served from s0 as the model says, ending in s1; not ok means that the machine
      stopped, which happens in the cases of HaltsWhen only. */
  ghost predicate Served(s0: State, r: Request, ok: bool, s1: State, ret: int) {
    && Accepts(s0, r)
    && (ok <==> !HaltsWhen(s0, r))
    && (ok ==> Serve(s0.fs, r).Reply? && s1 == Advance(s0, r) && ret == Serve(s0.fs, r).ret)
  }

  lemma StillBigEnough(before: seq<Sector>, after: seq<Sector>, k: nat)
    requires BigEnough(before, k) && |after| == |before|
    ensures BigEnough(after, k)
  {
  }

  lemma LeastInodeBit(sectors: seq<Sector>, k: nat, b: nat)
    requires BigEnough(sectors, k) && LeastClear(sectors, IMAP, 1, b)
    ensures Least(ViewOf(sectors, k).inodeMap) == b
  {
    hide BitAt;
  }

  /** The free run that alloc_smap_bit looked for, in terms of the view before the inode map
      changed. */
  lemma LeastSectBit(s0: seq<Sector>, s1: seq<Sector>, k: nat, b: nat)
    requires BigEnough(s0, k) && BigEnough(s1, k) && LeastClear(s1, SMAP, k, b)
    requires ViewOf(s1, k).sectMap == ViewOf(s0, k).sectMap
    ensures Least(ViewOf(s0, k).sectMap) == b
    ensures Uniform(ViewOf(s0, k).sectMap, b, b + NR_DEFAULT_FILE_SECTS, false) <==>
            b + NR_DEFAULT_FILE_SECTS <= k * BITS_PER_SECT && MapClear(s1, SMAP, k, b, b + NR_DEFAULT_FILE_SECTS)
  {
    hide BitAt;
    var bits := ViewOf(s0, k).sectMap;
    assert bits == MapView(s1, SMAP, k);
  }

  /** The tables that init_fs leaves over a formatted disk. */
  lemma FreshServer(s: State)
    requires Formatted(s.fs.n1, s.fs.view) && 268 <= s.fs.n1 < 2048
    requires s.fs.cache ==
             seq(NR_INODE, _ => CachedInode(NO_RECORD, 0, 0))
               [ROOT_SLOT := CachedInode(s.fs.view.recs[0], ROOT_INODE, 1)]
    requires s.fs.desc == seq(NR_FILE_DESC, _ => FileDesc(false, 0, 0, NULL))
    requires s.fs.filp == seq(NR_PROCS, _ => seq(NR_FILES, _ => NULL))
    requires s.owner == seq(GRID, _ => 0) && s.leaks == seq(NR_INODE, _ => 0) && s.pend == Nobody
    ensures Initial(s) && Inv(s)
  {
    hide Formatted, DiskOk, RefsOk;
    assert Initial(s);
    InitialDisk(s);
    InitialRefs(s);
    InitialShaped(s);
  }

  lemma InvGivesDisk(s: State)
    requires Inv(s)
    ensures Shaped(s.fs) && DiskOk(s.fs, s.owner) && |s.owner| == GRID
  {
  }

  lemma ViewRecord(sectors: seq<Sector>, k: nat, num: nat)
    requires BigEnough(sectors, k) && 1 <= num <= NR_INODES
    ensures |ViewOf(sectors, k).recs| == NR_INODES
    ensures ViewOf(sectors, k).recs[num - 1] ==
            InodeAt(sectors[RecordSect(k, num)], (num - 1) % INODES_PER_SECT)
  {
    hide InodeAt;
  }

  lemma FirstFetch(empty: seq<CachedInode>, recs: seq<DiskInode>)
    requires empty == seq(NR_INODE, _ => CachedInode(NO_RECORD, 0, 0)) && |recs| == NR_INODES
    ensures FsModel.GetInode(empty, recs, ROOT_INODE) ==
            Fetched(empty[ROOT_SLOT := CachedInode(recs[0], ROOT_INODE, 1)], ROOT_SLOT)
  {
    assert CachedAt(empty, ROOT_INODE) == NR_INODE;
    assert FreeAt(empty) == 0;
  }

  /** What the consistency of the disk says about the root inode. */
  lemma RootFacts(fs: Fs, owner: Owner)
    requires DiskOk(fs, owner)
    ensures fs.cache[ROOT_SLOT].disk.start == fs.n1 && fs.cache[ROOT_SLOT].num == ROOT_INODE
    ensures 0 < Entries(fs) < ENTRIES_PER_SECT && RootSize(fs) == Entries(fs) * DIR_ENTRY_SIZE
    ensures DirSects(RootSize(fs)) == 1 && Compared(RootSize(fs)) == Entries(fs) + 1
  {
    assert AgreesWith(fs.cache[ROOT_SLOT], fs.view.recs[0]);
  }

  lemma SearchAgrees(sectors: seq<Sector>, k: nat, fs: Fs, path: seq<bv8>)
    requires BigEnough(sectors, k) && fs.view == ViewOf(sectors, k) && |fs.cache| == NR_INODE
    requires Compared(RootSize(fs)) <= MAX_ENTRIES
    ensures Search(fs, path) == Resolve(path, Slots(sectors, FirstSect(k), Compared(RootSize(fs))))
  {
    hide Slot, Resolve;
    var n := Compared(RootSize(fs));
    assert Prefix(fs.view.slots, n) == Slots(sectors, FirstSect(k), n);
  }
}
