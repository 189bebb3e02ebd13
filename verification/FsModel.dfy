/** The file system's state seen without bytes: the two maps as bit arrays, the inode records and
    the directory as arrays, and the in-memory tables of fs/main.c.  The operations here say
    what each request does to that state; module FileSystem has the code that does it. */
module FsModel {
  import opened ProcTable
  import opened Records
  import opened Directory
  import opened SectorMap

  const NR_FILES := 64
  const NR_FILE_DESC := 64
  const NR_INODE := 64
  const NR_CONSOLE := 3
  const MAX_PATH_LEN := 128
  const NR_DEFAULT_FILE_SECTS := 2048
  const INSTALL_START_SECT := 0x8000
  const INSTALL_NR_SECTS := 0x800
  const NR_INODES := 4096
  const MAX_ENTRIES := 65536

  const I_REGULAR: U32 := 0x8000
  const I_DIRECTORY: U32 := 0x4000
  const I_CHAR_SPECIAL: U32 := 0x2000
  const I_BLOCK_SPECIAL: U32 := 0x6000
  const DEV_CHAR_TTY := 4

  /** A null pointer in an index. */
  const NULL := -1

  /** myroot_inode: init_fs fetches the root inode into an empty table. */
  const ROOT_SLOT := 0

  /** A slot of inode_table; it is free when cnt is 0. */
  datatype CachedInode = CachedInode(disk: DiskInode, num: nat, cnt: int)

  /** A slot of f_desc_table; inode is an index into inode_table, or NULL. */
  datatype FileDesc = FileDesc(rdwr: bool, pos: nat, cnt: int, inode: int)

  /** What the disk holds: the inode map and the sector map as bits, record i for inode i+1, and
      the directory entries. */
  datatype View = View(inodeMap: seq<bool>, sectMap: seq<bool>, recs: seq<DiskInode>, slots: seq<Dirent>)

  /** n1 is the first data sector; filp[p][fd] is an index into desc, or NULL. */
  datatype Fs = Fs(n1: nat, view: View, cache: seq<CachedInode>, desc: seq<FileDesc>, filp: seq<seq<int>>)

  /** A request either returns a value or stops the machine (panic or failed assert). */
  datatype Reply = Reply(fs: Fs, ret: int) | Halt

  ghost predicate Shaped(fs: Fs) {
    && |fs.view.inodeMap| == NR_INODES == |fs.view.recs| && |fs.view.slots| == MAX_ENTRIES
    && |fs.cache| == NR_INODE && |fs.desc| == NR_FILE_DESC
    && |fs.filp| == NR_PROCS && forall p: Pid :: |fs.filp[p]| == NR_FILES
  }

  // ---- bits ----------------------------------------------------------------

  /** The first clear bit, or the number of bits. */
  function Least(bits: seq<bool>): (b: nat)
    ensures b <= |bits| && (forall i :: 0 <= i < b ==> bits[i]) && (b < |bits| ==> !bits[b])
  {
    if bits == [] then 0 else if !bits[0] then 0 else 1 + Least(bits[1..])
  }

  function Fill(bits: seq<bool>, a: int, b: int, v: bool): (r: seq<bool>)
    ensures |r| == |bits|
    ensures forall i :: 0 <= i < |bits| ==> r[i] == if a <= i < b then v else bits[i]
  {
    seq(|bits|, i requires 0 <= i < |bits| => if a <= i < b then v else bits[i])
  }

  predicate Uniform(bits: seq<bool>, a: int, b: int, v: bool) {
    0 <= a && b <= |bits| && forall i :: a <= i < b ==> bits[i] == v
  }

  // ---- the inode table -----------------------------------------------------

  /** The first slot in use for inode num, or NR_INODE. */
  function CachedAt(cache: seq<CachedInode>, num: nat): (i: nat)
    ensures i <= |cache| && (forall j :: 0 <= j < i ==> !(cache[j].cnt != 0 && cache[j].num == num))
    ensures i < |cache| ==> cache[i].cnt != 0 && cache[i].num == num
  {
    if cache == [] then 0
    else if cache[0].cnt != 0 && cache[0].num == num then 0
    else 1 + CachedAt(cache[1..], num)
  }

  /** The first free slot, or NR_INODE. */
  function FreeAt(cache: seq<CachedInode>): (i: nat)
    ensures i <= |cache| && (forall j :: 0 <= j < i ==> cache[j].cnt != 0)
    ensures i < |cache| ==> cache[i].cnt == 0
  {
    if cache == [] then 0 else if cache[0].cnt == 0 then 0 else 1 + FreeAt(cache[1..])
  }

  const NO_RECORD := DiskInode(0, 0, 0, 0)

  function RecordOf(recs: seq<DiskInode>, num: nat): DiskInode
    requires num >= 1
  {
    if num <= |recs| then recs[num - 1] else NO_RECORD
  }

  datatype Fetched = Fetched(cache: seq<CachedInode>, slot: nat) | TableFull

  /** get_inode for a nonzero number. */
  function GetInode(cache: seq<CachedInode>, recs: seq<DiskInode>, num: nat): (r: Fetched)
    requires num >= 1
    ensures r.Fetched? ==> |r.cache| == |cache| && r.slot < |cache|
  {
    var i := CachedAt(cache, num);
    var q := FreeAt(cache);
    if i < |cache| then Fetched(cache[i := cache[i].(cnt := cache[i].cnt + 1)], i)
    else if q < |cache| then Fetched(cache[q := CachedInode(RecordOf(recs, num), num, 1)], q)
    else TableFull
  }

  // ---- open ----------------------------------------------------------------

  function FirstNull(filp: seq<int>): (i: nat)
    ensures i <= |filp| && (forall j :: 0 <= j < i ==> filp[j] != NULL) && (i < |filp| ==> filp[i] == NULL)
  {
    if filp == [] then 0 else if filp[0] == NULL then 0 else 1 + FirstNull(filp[1..])
  }

  function FreeDesc(desc: seq<FileDesc>): (i: nat)
    ensures i <= |desc| && (forall j :: 0 <= j < i ==> desc[j].inode != NULL)
    ensures i < |desc| ==> desc[i].inode == NULL
  {
    if desc == [] then 0 else if desc[0].inode == NULL then 0 else 1 + FreeDesc(desc[1..])
  }

  function RootSize(fs: Fs): U32
    requires |fs.cache| == NR_INODE
  {
    fs.cache[ROOT_SLOT].disk.size
  }

  function Entries(fs: Fs): nat
    requires |fs.cache| == NR_INODE
  {
    RootSize(fs) / DIR_ENTRY_SIZE
  }

  function Prefix(slots: seq<Dirent>, n: nat): seq<Dirent> {
    if n <= |slots| then slots[..n] else slots
  }

  /** search_file on the root directory. */
  function Search(fs: Fs, path: seq<bv8>): U32
    requires |fs.cache| == NR_INODE
  {
    var n := Compared(RootSize(fs));
    Resolve(path, Prefix(fs.view.slots, n))
  }

  /** i_mode & I_TYPE_MASK */
  function TypeOf(mode: U32): U32 {
    mode / 0x1000 % 0x10 * 0x1000
  }

  /** The inode type passes the asserts of do_open: a tty, the root directory, or a regular file. */
  predicate Openable(i: CachedInode) {
    if TypeOf(i.disk.mode) == I_CHAR_SPECIAL then i.disk.start / 0x100 % 0x100 == DEV_CHAR_TTY
    else if TypeOf(i.disk.mode) == I_DIRECTORY then i.num == ROOT_INODE
    else i.disk.mode == I_REGULAR
  }

  /** Connects a descriptor to an inode and the caller to the descriptor. */
  function Connect(fs: Fs, p: Pid, fd: nat, d: nat, slot: nat, rdwr: bool): (r: Reply)
    requires Shaped(fs) && fd < NR_FILES && d < NR_FILE_DESC && slot < NR_INODE
    ensures r.Reply? ==> Shaped(r.fs)
  {
    if Openable(fs.cache[slot])
    then Reply(fs.(desc := fs.desc[d := FileDesc(rdwr, 0, 1, slot)],
                   filp := fs.filp[p := fs.filp[p][fd := d]]), fd)
    else Halt
  }

  /** The new entry e, and the damage that a full-length name does to the entry after it. */
  function AddEntry(slots: seq<Dirent>, e: nat, nr: U32, name: seq<bv8>): (r: seq<Dirent>)
    requires e < |slots| && |name| <= MAX_FILENAME_LEN
    ensures |r| == |slots|
  {
    var r := slots[e := Dirent(nr, Copied(name, slots[e].name))];
    if |name| == MAX_FILENAME_LEN && e % ENTRIES_PER_SECT != ENTRIES_PER_SECT - 1 && e + 1 < |slots|
    then r[e + 1 := Damaged(slots[e + 1])] else r
  }

  function NewInode(n1: nat, b: nat): DiskInode {
    DiskInode(I_REGULAR, 0, (b - 1 + n1) % 0x1_0000_0000, NR_DEFAULT_FILE_SECTS)
  }

  datatype Created = Created(fs: Fs, slot: nat) | CreateHalts

  /** create_file, for a path whose name part is free of slashes: an inode bit, a run of sectors,
      a cached inode, a record on disk, a directory entry, and the root's new size on disk. */
  function CreateFile(fs: Fs, path: seq<bv8>): (r: Created)
    requires Shaped(fs)
    ensures r.Created? ==> Shaped(r.fs) && r.slot < NR_INODE
  {
    var v := fs.view;
    var nr := Least(v.inodeMap);
    var b := Least(v.sectMap);
    var n := Entries(fs);
    var e := FirstWith(Prefix(v.slots, n), 0);
    if nr >= NR_INODES || nr == 0 then CreateHalts
    else if !Uniform(v.sectMap, b, b + NR_DEFAULT_FILE_SECTS, false) then CreateHalts
    else match GetInode(fs.cache, v.recs, nr)
      case TableFull => CreateHalts
      case Fetched(cache1, slot) =>
        var inode := NewInode(fs.n1, b);
        var cache2 := cache1[slot := CachedInode(inode, nr, 1)];
        var root := cache2[ROOT_SLOT].disk;
        var root' := if e < n then root else root.(size := (root.size + DIR_ENTRY_SIZE) % 0x1_0000_0000);
        var cache3 := cache2[ROOT_SLOT := cache2[ROOT_SLOT].(disk := root')];
        if e >= MAX_ENTRIES then CreateHalts else
        Created(fs.(view := View(v.inodeMap[nr := true],
                                 Fill(v.sectMap, b, b + NR_DEFAULT_FILE_SECTS, true),
                                 v.recs[nr - 1 := inode][ROOT_INODE - 1 := root'],
                                 AddEntry(v.slots, e, nr, NamePart(path))),
                    cache := cache3), slot)
  }

  function Open(fs: Fs, p: Pid, path: seq<bv8>, creat: bool, rdwr: bool): (r: Reply)
    requires Shaped(fs)
    ensures r.Reply? ==> Shaped(r.fs)
  {
    var fd := FirstNull(fs.filp[p]);
    var d := FreeDesc(fs.desc);
    var nr := Search(fs, path);
    if |path| >= MAX_PATH_LEN || fd >= NR_FILES || d >= NR_FILE_DESC then Halt
    else if creat then
      if nr != 0 || SLASH in NamePart(path) then Reply(fs, -1)
      else match CreateFile(fs, path)
        case CreateHalts => Halt
        case Created(fs1, slot) => Connect(fs1, p, fd, d, slot, rdwr)
    else if !rdwr then Halt
    else if nr == 0 then Reply(fs, -1)
    else match GetInode(fs.cache, fs.view.recs, nr)
      case TableFull => Halt
      case Fetched(cache1, slot) => Connect(fs.(cache := cache1), p, fd, d, slot, rdwr)
  }

  // ---- close, fork, exit ---------------------------------------------------

  /** Takes one reference off a descriptor and its inode. */
  function Drop(fs: Fs, d: nat): (r: Fs)
    requires Shaped(fs) && d < NR_FILE_DESC && 0 <= fs.desc[d].inode < NR_INODE
    ensures Shaped(r)
  {
    var f := fs.desc[d];
    var c := fs.cache[f.inode];
    fs.(cache := fs.cache[f.inode := c.(cnt := c.cnt - 1)],
        desc := fs.desc[d := f.(cnt := f.cnt - 1, inode := if f.cnt - 1 == 0 then NULL else f.inode)])
  }

  /** do_close: a null filp entry or an inode count of zero stops the machine; a descriptor
      without an inode is left as it is. */
  function Close(fs: Fs, p: Pid, fd: nat): (r: Reply)
    requires Shaped(fs) && fd < NR_FILES
    ensures r.Reply? ==> Shaped(r.fs)
  {
    var d := fs.filp[p][fd];
    if !(0 <= d < NR_FILE_DESC) then Halt
    else if !(0 <= fs.desc[d].inode < NR_INODE) then Reply(fs, 0)
    else if fs.cache[fs.desc[d].inode].cnt <= 0 then Halt
    else Reply(Drop(fs, d).(filp := fs.filp[p := fs.filp[p][fd := NULL]]), 0)
  }

  /** The memory manager copies the parent's record, filp included, into the child's slot. */
  function ForkCopy(fs: Fs, parent: Pid, child: Pid): (r: Fs)
    requires Shaped(fs)
    ensures Shaped(r)
  {
    fs.(filp := fs.filp[child := fs.filp[parent]])
  }

  /** fs_fork, entries fd.. of the child: one more reference for each.  Null pointers on the way
      are memory faults, which end the run. */
  function ForkCount(fs: Fs, child: Pid, fd: nat): (r: Reply)
    requires Shaped(fs) && fd <= NR_FILES
    ensures r.Reply? ==> Shaped(r.fs)
    decreases NR_FILES - fd
  {
    if fd == NR_FILES then Reply(fs, 0)
    else
      var d := fs.filp[child][fd];
      if d == NULL then ForkCount(fs, child, fd + 1)
      else if !(0 <= d < NR_FILE_DESC) || !(0 <= fs.desc[d].inode < NR_INODE) then Halt
      else ForkCount(Share(fs, d), child, fd + 1)
  }

  function Share(fs: Fs, d: nat): (r: Fs)
    requires Shaped(fs) && d < NR_FILE_DESC && 0 <= fs.desc[d].inode < NR_INODE
    ensures Shaped(r)
  {
    var f := fs.desc[d];
    var c := fs.cache[f.inode];
    fs.(cache := fs.cache[f.inode := c.(cnt := c.cnt + 1)], desc := fs.desc[d := f.(cnt := f.cnt + 1)])
  }

  /** fs_exit, entries fd.. of the process. */
  function Exit(fs: Fs, p: Pid, fd: nat): (r: Reply)
    requires Shaped(fs) && fd <= NR_FILES
    ensures r.Reply? ==> Shaped(r.fs)
    decreases NR_FILES - fd
  {
    if fd == NR_FILES then Reply(fs, 0)
    else
      var d := fs.filp[p][fd];
      if d == NULL then Exit(fs, p, fd + 1)
      else if !(0 <= d < NR_FILE_DESC) || !(0 <= fs.desc[d].inode < NR_INODE) then Halt
      else Exit(Drop(fs, d).(filp := fs.filp[p := fs.filp[p][fd := NULL]]), p, fd + 1)
  }

  // ---- unlink and stat -----------------------------------------------------

  /** The number of entries up to the last live one. */
  function LiveEnd(slots: seq<Dirent>): (k: nat)
    ensures IsLiveEnd(slots, |slots|, k)
  {
    if slots == [] then 0
    else if slots[|slots| - 1].inodeNr != 0 then |slots|
    else LiveEnd(slots[..|slots| - 1])
  }

  /** The first bit of a file's run. */
  function FirstBit(fs: Fs, start: U32): int {
    start - fs.n1 + 1
  }

  /** do_unlink once the inode is fetched and free to go: both maps, the record, the entry. */
  function Remove(fs: Fs, nr: U32, slot: nat): (r: Reply)
    requires Shaped(fs) && nr >= 1 && slot < NR_INODE
    ensures r.Reply? ==> Shaped(r.fs)
  {
    var v, inode := fs.view, fs.cache[slot];
    var s := FirstBit(fs, inode.disk.start);
    var n := Entries(fs);
    var e := FirstWith(Prefix(v.slots, n), nr);
    if nr >= NR_INODES || !v.inodeMap[nr] || s < 0 then Halt
    else
      var l := ClearedLength(s, inode.disk.nrSects);
      if !Uniform(v.sectMap, s, s + l, true) then Halt
      else if e >= n || e >= MAX_ENTRIES then Halt
      else
        var cache1 := fs.cache[slot := CachedInode(NO_RECORD, inode.num, inode.cnt - 1)];
        var root := cache1[ROOT_SLOT];
        var size' := if e == n - 1 then LiveEnd(v.slots[..e]) * DIR_ENTRY_SIZE else root.disk.size;
        Reply(fs.(view := View(v.inodeMap[nr := false],
                               Fill(v.sectMap, s, s + l, false),
                               v.recs[nr - 1 := NO_RECORD],
                               v.slots[e := EMPTY_SLOT]),
                  cache := cache1[ROOT_SLOT := root.(disk := root.disk.(size := size'))]), 0)
  }

  /** do_unlink.  A refused request keeps the reference that get_inode took. */
  function Unlink(fs: Fs, path: seq<bv8>): (r: Reply)
    requires Shaped(fs)
    ensures r.Reply? ==> Shaped(r.fs)
  {
    var nr := Search(fs, path);
    if path == [SLASH] then Reply(fs, -1)
    else if nr == 0 then Halt
    else match GetInode(fs.cache, fs.view.recs, nr)
      case TableFull => Halt
      case Fetched(cache1, slot) =>
        var fs1 := fs.(cache := cache1);
        if cache1[slot].disk.mode != I_REGULAR || cache1[slot].cnt > 1 then Reply(fs1, -1)
        else Remove(fs1, nr, slot)
  }

  /** do_stat: fetches the inode and puts it back. */
  function Stat(fs: Fs, path: seq<bv8>): (r: Reply)
    requires Shaped(fs)
    ensures r.Reply? ==> Shaped(r.fs)
  {
    var nr := Search(fs, path);
    if |path| >= MAX_PATH_LEN then Halt
    else if nr == 0 then Reply(fs, -1)
    else match GetInode(fs.cache, fs.view.recs, nr)
      case TableFull => Halt
      case Fetched(cache1, slot) =>
        Reply(fs.(cache := cache1[slot := cache1[slot].(cnt := cache1[slot].cnt - 1)]), 0)
  }

  // ---- what a transfer leaves behind ---------------------------------------

  /** After do_rw moved `bytes` bytes: the position advances, and a file that was written past
      its end grows and is synced. */
  function Transferred(fs: Fs, d: nat, bytes: nat): (r: Fs)
    requires Shaped(fs) && d < NR_FILE_DESC && 0 <= fs.desc[d].inode < NR_INODE
    ensures Shaped(r)
  {
    var f := fs.desc[d];
    var c := fs.cache[f.inode];
    var pos := f.pos + bytes;
    var fs1 := fs.(desc := fs.desc[d := f.(pos := pos)]);
    if pos <= c.disk.size || c.num == 0 || c.num > NR_INODES then fs1
    else
      var grown := c.disk.(size := pos % 0x1_0000_0000);
      fs1.(cache := fs.cache[f.inode := c.(disk := grown)],
           view := fs.view.(recs := fs.view.recs[c.num - 1 := grown]))
  }
}
