/** The consistency of the disk and of the inode cache, and that every request keeps it. */
module FsInvariant {
  import opened Records
  import opened Directory
  import opened SectorMap
  import opened FsModel

  /** Files are created on a grid of runs between the root directory and cmd.tar. */
  const GRID := 14
  const GRID_START := 2049
  const FIRST_FILE_INODE := 6
  const LAST_FILE_INODE := 20
  const FIXED_ENTRIES := 5
  const CMD_TAR_INODE := 5

  /** owner[t] is the inode whose file occupies run t of the grid, or 0. */
  type Owner = seq<nat>

  function RunStart(t: int): int {
    GRID_START + 2048 * t
  }

  /** The first map bit of cmd.tar. */
  function TarStart(n1: nat): int {
    INSTALL_START_SECT - n1 + 1
  }

  ghost predicate OwnerOk(owner: Owner) {
    && |owner| == GRID
    && (forall t :: 0 <= t < GRID ==> owner[t] == 0 || FIRST_FILE_INODE <= owner[t] <= LAST_FILE_INODE)
    && (forall t, u :: 0 <= t < u < GRID && owner[t] != 0 ==> owner[t] != owner[u])
  }

  /** Inode num belongs to a live file. */
  ghost predicate Live(owner: Owner, num: nat) {
    1 <= num < FIRST_FILE_INODE || (num != 0 && num in owner)
  }

  ghost predicate BitTaken(n1: nat, owner: Owner, b: int)
    requires |owner| == GRID
  {
    || b < GRID_START
    || TarStart(n1) <= b < TarStart(n1) + INSTALL_NR_SECTS
    || (GRID_START <= b < RunStart(GRID) && owner[(b - GRID_START) / 2048] != 0)
  }

  /** Map bits are exactly bit 0, the live inodes, and the runs of the live files. */
  ghost predicate MapsOk(fs: Fs, owner: Owner)
    requires Shaped(fs) && |owner| == GRID
  {
    && 268 <= fs.n1 < 2048 && |fs.view.sectMap| >= 36864
    && (forall x :: 0 <= x < NR_INODES ==> (fs.view.inodeMap[x] <==> x == 0 || Live(owner, x)))
    && (forall b :: 0 <= b < |fs.view.sectMap| ==> (fs.view.sectMap[b] <==> BitTaken(fs.n1, owner, b)))
  }

  ghost predicate RecordsOk(fs: Fs, owner: Owner)
    requires Shaped(fs) && |owner| == GRID
  {
    && fs.view.recs[ROOT_INODE - 1].mode == I_DIRECTORY && fs.view.recs[ROOT_INODE - 1].start == fs.n1
    && fs.view.recs[ROOT_INODE - 1].nrSects == NR_DEFAULT_FILE_SECTS
    && fs.view.recs[1] == DiskInode(I_CHAR_SPECIAL, 0, DEV_CHAR_TTY * 0x100, 0)
    && fs.view.recs[2] == DiskInode(I_CHAR_SPECIAL, 0, DEV_CHAR_TTY * 0x100 + 1, 0)
    && fs.view.recs[3] == DiskInode(I_CHAR_SPECIAL, 0, DEV_CHAR_TTY * 0x100 + 2, 0)
    && (var tar := fs.view.recs[CMD_TAR_INODE - 1];
        tar.mode == I_REGULAR && tar.start == INSTALL_START_SECT && tar.nrSects == INSTALL_NR_SECTS)
    && (forall t :: 0 <= t < GRID && owner[t] != 0 && owner[t] < NR_INODES ==>
          var r := fs.view.recs[owner[t] - 1];
          r.mode == I_REGULAR && r.start == fs.n1 - 1 + RunStart(t) && r.nrSects == NR_DEFAULT_FILE_SECTS)
  }

  /** The first n slots hold the live entries and holes; everything after them is empty. */
  ghost predicate DirOk(slots: seq<Dirent>, n: nat, owner: Owner)
    requires |slots| == MAX_ENTRIES && |owner| == GRID
  {
    && FIXED_ENTRIES <= n <= FIXED_ENTRIES + GRID
    && (forall e :: 0 <= e < FIXED_ENTRIES ==> slots[e].inodeNr == e + 1)
    && (forall e :: FIXED_ENTRIES <= e < n ==> slots[e] == EMPTY_SLOT || slots[e].inodeNr in owner)
    && (forall e :: FIXED_ENTRIES <= e < n && slots[e] != EMPTY_SLOT ==> slots[e].inodeNr != 0)
    && (forall e :: n <= e < ENTRIES_PER_SECT ==> slots[e] == EMPTY_SLOT)
    && slots[n - 1].inodeNr != 0
    && (forall t :: 0 <= t < GRID && owner[t] != 0 ==>
          exists e :: FIXED_ENTRIES <= e < n && slots[e].inodeNr == owner[t])
    && DistinctEntries(slots, n)
  }

  /** No two live entries share an inode or a name, and no live name is empty. */
  ghost predicate DistinctEntries(slots: seq<Dirent>, n: nat)
    requires n <= |slots|
  {
    && (forall e, f :: 0 <= e < f < n && slots[e].inodeNr != 0 && slots[f].inodeNr != 0 ==>
          slots[e].inodeNr != slots[f].inodeNr && slots[e].name != slots[f].name)
    && (forall e :: 0 <= e < n && slots[e].inodeNr != 0 ==> slots[e].name[0] != 0)
  }

  /** Inodes in use are live, cached once, and equal to their disk record, except that the record of
      the root directory may have a larger size. */
  ghost predicate CacheOk(cache: seq<CachedInode>, recs: seq<DiskInode>, owner: Owner)
    requires |cache| == NR_INODE && |recs| == NR_INODES
  {
    && cache[ROOT_SLOT].num == ROOT_INODE && cache[ROOT_SLOT].cnt > 0
    && (forall i :: 0 <= i < NR_INODE ==> cache[i].cnt >= 0)
    && (forall i :: 0 <= i < NR_INODE && cache[i].cnt != 0 ==>
          1 <= cache[i].num < NR_INODES && Live(owner, cache[i].num))
    && (forall i :: 0 <= i < NR_INODE && cache[i].cnt != 0 && 1 <= cache[i].num <= NR_INODES ==>
          AgreesWith(cache[i], recs[cache[i].num - 1]))
    && (forall i, j :: 0 <= i < j < NR_INODE && cache[i].cnt != 0 && cache[j].cnt != 0 ==>
          cache[i].num != cache[j].num)
  }

  ghost predicate AgreesWith(c: CachedInode, r: DiskInode) {
    if c.num == ROOT_INODE then c.disk == r.(size := c.disk.size) && c.disk.size <= r.size else c.disk == r
  }

  ghost predicate DiskOk(fs: Fs, owner: Owner) {
    && Shaped(fs) && OwnerOk(owner)
    && MapsOk(fs, owner)
    && RecordsOk(fs, owner)
    && DirOk(fs.view.slots, Entries(fs), owner)
    && RootSize(fs) % DIR_ENTRY_SIZE == 0
    && CacheOk(fs.cache, fs.view.recs, owner)
  }

  // ---- counting ------------------------------------------------------------

  /** As many different members as positions. */
  lemma {:induction false} DistinctCount(s: seq<nat>, members: set<nat>)
    requires forall i, j :: 0 <= i < j < |s| ==> s[i] != s[j]
    requires forall i :: 0 <= i < |s| ==> s[i] in members
    ensures |s| <= |members|
  {
    if s == [] {
    } else {
      var last := s[|s| - 1];
      DistinctCount(s[..|s| - 1], members - {last});
    }
  }

  /** The set of live inode numbers has at most 19 members. */
  ghost function Members(s: seq<nat>): set<nat> {
    set x | x in s
  }

  lemma {:induction false} MembersCount(s: seq<nat>)
    ensures |Members(s)| <= |s|
  {
    if s == [] {
      assert Members(s) == {};
    } else {
      MembersCount(s[1..]);
      assert Members(s) == {s[0]} + Members(s[1..]);
    }
  }

  lemma InodeTableNeverFills(cache: seq<CachedInode>, recs: seq<DiskInode>, owner: Owner)
    requires |cache| == NR_INODE && |recs| == NR_INODES && OwnerOk(owner) && CacheOk(cache, recs, owner)
    ensures FreeAt(cache) < NR_INODE
  {
    if FreeAt(cache) == NR_INODE {
      var nums := seq(NR_INODE, i requires 0 <= i < NR_INODE => cache[i].num);
      var live := [1, 2, 3, 4, 5] + owner;
      MembersCount(live);
      forall i | 0 <= i < NR_INODE
        ensures nums[i] in Members(live)
      {
        assert cache[i].cnt != 0;
        assert Live(owner, nums[i]);
        if nums[i] < FIRST_FILE_INODE {
          assert live[nums[i] - 1] == nums[i];
        } else {
          var t :| 0 <= t < GRID && owner[t] == nums[i];
          assert live[5 + t] == nums[i];
        }
      }
      DistinctCount(nums, Members(live));
    }
  }

  // ---- get_inode -----------------------------------------------------------

  lemma FetchOk(fs: Fs, owner: Owner, num: nat)
    requires DiskOk(fs, owner) && Live(owner, num)
    ensures num < NR_INODES
    ensures var r := GetInode(fs.cache, fs.view.recs, num);
            && r.Fetched?
            && r.cache[r.slot].num == num && r.cache[r.slot].cnt == fs.cache[r.slot].cnt + 1 > 0
            && r.cache[ROOT_SLOT].disk == fs.cache[ROOT_SLOT].disk
            && (forall i :: 0 <= i < NR_INODE && i != r.slot ==> r.cache[i] == fs.cache[i])
            && DiskOk(fs.(cache := r.cache), owner)
  {
    InodeTableNeverFills(fs.cache, fs.view.recs, owner);
    assert num < NR_INODES by {
      if num in owner {
        var t :| 0 <= t < GRID && owner[t] == num;
      }
    }
    var r := GetInode(fs.cache, fs.view.recs, num);
    CachedOnce(fs.cache, fs.view.recs, owner, num, r);
  }

  lemma CachedOnce(cache: seq<CachedInode>, recs: seq<DiskInode>, owner: Owner, num: nat, r: Fetched)
    requires |cache| == NR_INODE && |recs| == NR_INODES && CacheOk(cache, recs, owner)
    requires Live(owner, num) && num < NR_INODES && r == GetInode(cache, recs, num) && r.Fetched?
    ensures CacheOk(r.cache, recs, owner)
    ensures r.cache[ROOT_SLOT].disk == cache[ROOT_SLOT].disk
  {
    if CachedAt(cache, num) == NR_INODE {
      assert cache[r.slot].cnt == 0 && num != ROOT_INODE;
    }
  }

  /** An inode that is dropped from the table and fetched again comes back as it was. */
  lemma EvictThenGet(fs: Fs, owner: Owner, i: nat)
    requires DiskOk(fs, owner) && i < NR_INODE && i != ROOT_SLOT && fs.cache[i].cnt != 0
    ensures fs.cache[i].num >= 1
    ensures var r := GetInode(fs.cache[i := fs.cache[i].(cnt := 0)], fs.view.recs, fs.cache[i].num);
            r.Fetched? && r.cache[r.slot] == CachedInode(fs.cache[i].disk, fs.cache[i].num, 1)
  {
    hide MapsOk, RecordsOk, DirOk, OwnerOk;
    var num := fs.cache[i].num;
    var evicted := fs.cache[i := fs.cache[i].(cnt := 0)];
    assert AgreesWith(fs.cache[i], fs.view.recs[num - 1]);
    forall j | 0 <= j < NR_INODE && j != i && fs.cache[j].cnt != 0
      ensures fs.cache[j].num != num
    {
    }
    assert evicted[i].cnt == 0 && FreeAt(evicted) <= i;
    assert CachedAt(evicted, num) == NR_INODE;
  }

  /** Changing reference counts keeps the cache consistent as long as no slot comes to life and
      the root stays in use. */
  lemma CountsOnly(cache: seq<CachedInode>, cache': seq<CachedInode>, recs: seq<DiskInode>, owner: Owner)
    requires |cache| == |cache'| == NR_INODE && |recs| == NR_INODES && CacheOk(cache, recs, owner)
    requires forall i :: 0 <= i < NR_INODE ==> cache'[i] == cache[i].(cnt := cache'[i].cnt)
    requires forall i :: 0 <= i < NR_INODE ==> cache'[i].cnt >= 0 && (cache[i].cnt == 0 ==> cache'[i].cnt == 0)
    requires cache'[ROOT_SLOT].cnt > 0
    ensures CacheOk(cache', recs, owner)
  {
  }

  // ---- search --------------------------------------------------------------

  lemma {:induction false} LookupWitness(slots: seq<Dirent>, name: Name) returns (e: nat)
    requires Lookup(slots, name) != 0
    ensures e < |slots| && slots[e].name == name && slots[e].inodeNr == Lookup(slots, name)
  {
    if slots[0].name == name {
      e := 0;
    } else {
      e := LookupWitness(slots[1..], name);
      e := e + 1;
    }
  }

  /** A path of a C string: no zero byte inside. */
  ghost predicate CString(path: seq<bv8>) {
    forall i :: 0 <= i < |path| ==> path[i] != 0
  }

  lemma NamePartFacts(path: seq<bv8>)
    requires CString(path)
    ensures CString(NamePart(path))
    ensures NamePart(path) != [] ==> Padded(NamePart(path))[0] != 0
  {
  }

  /** In a consistent directory the entries that search_file looks at are the live entries,
      holes, and one empty slot, which no name matches. */
  lemma ComparedSlots(fs: Fs, owner: Owner)
    requires DiskOk(fs, owner)
    ensures var n := Entries(fs);
            && Compared(RootSize(fs)) == n + 1 <= ENTRIES_PER_SECT
            && forall e :: 0 <= e < n + 1 && fs.view.slots[e].inodeNr == 0 ==> fs.view.slots[e] == EMPTY_SLOT
  {
  }

  lemma LiveEntry(fs: Fs, owner: Owner, e: nat)
    requires DiskOk(fs, owner) && e < Entries(fs) && fs.view.slots[e].inodeNr != 0
    ensures Live(owner, fs.view.slots[e].inodeNr)
  {
  }

  /** A name that is found belongs to a live inode, and has an entry unless it is the root path. */
  lemma SearchFinds(fs: Fs, owner: Owner, path: seq<bv8>)
    requires DiskOk(fs, owner) && CString(path) && Search(fs, path) != 0
    ensures Live(owner, Search(fs, path))
    ensures NamePart(path) != [] ==>
              exists e :: 0 <= e < Entries(fs) && fs.view.slots[e].inodeNr == Search(fs, path) &&
                          fs.view.slots[e].name == Padded(NamePart(path))
    ensures NamePart(path) == [] ==> Search(fs, path) == ROOT_INODE
  {
    ComparedSlots(fs, owner);
    NamePartFacts(path);
    if NamePart(path) != [] {
      var e := LookupWitness(Prefix(fs.view.slots, Compared(RootSize(fs))), Padded(NamePart(path)));
      assert e < Entries(fs);
      LiveEntry(fs, owner, e);
    }
  }

  /** A name that is not found is not the name of any live entry: the directory is a map from
      names to inodes, and search_file evaluates it. */
  lemma SearchMisses(fs: Fs, owner: Owner, path: seq<bv8>, e: nat)
    requires DiskOk(fs, owner) && CString(path) && SLASH !in NamePart(path) && NamePart(path) != []
    requires e < Entries(fs) && fs.view.slots[e].inodeNr != 0
    ensures fs.view.slots[e].name == Padded(NamePart(path)) <==> Search(fs, path) == fs.view.slots[e].inodeNr
  {
    ComparedSlots(fs, owner);
    NamePartFacts(path);
    var slots, name := Prefix(fs.view.slots, Compared(RootSize(fs))), Padded(NamePart(path));
    if slots[e].name == name {
      forall i | 0 <= i < e
        ensures slots[i].name != name
      {
        if slots[i].inodeNr != 0 {
          assert fs.view.slots[i].name != fs.view.slots[e].name;
        }
      }
      LookupFirst(slots, name, e);
    } else if Search(fs, path) == slots[e].inodeNr {
      var f := LookupWitness(slots, name);
    }
  }

  // ---- creating a file -----------------------------------------------------

  /** The first free run of the grid, or GRID. */
  function FreeRun(owner: Owner): (t: nat)
    ensures t <= |owner| && (forall u :: 0 <= u < t ==> owner[u] != 0) && (t < |owner| ==> owner[t] == 0)
  {
    if owner == [] then 0 else if owner[0] == 0 then 0 else 1 + FreeRun(owner[1..])
  }

  /** Fifteen inode numbers cannot all belong to fourteen files. */
  lemma SomeInodeFree(fs: Fs, owner: Owner)
    requires Shaped(fs) && OwnerOk(owner) && MapsOk(fs, owner)
    ensures FIRST_FILE_INODE <= Least(fs.view.inodeMap) <= LAST_FILE_INODE
    ensures !Live(owner, Least(fs.view.inodeMap))
  {
    var bits := fs.view.inodeMap;
    forall x | 0 <= x < FIRST_FILE_INODE
      ensures bits[x]
    {
    }
    if Least(bits) > FIRST_FILE_INODE + GRID {
      var nums := seq(GRID + 1, i requires 0 <= i <= GRID => FIRST_FILE_INODE + i);
      forall i | 0 <= i <= GRID
        ensures nums[i] in Members(owner)
      {
        assert bits[nums[i]];
        assert Live(owner, nums[i]);
      }
      DistinctCount(nums, Members(owner));
      MembersCount(owner);
    }
  }

  /** The least clear bit of the sector map is the start of the first free run, and that run is
      free; when no run is free, the bits after the grid run into cmd.tar. */
  lemma LeastIsFreeRun(fs: Fs, owner: Owner)
    requires Shaped(fs) && OwnerOk(owner) && MapsOk(fs, owner)
    ensures var t := FreeRun(owner); var b := Least(fs.view.sectMap);
            b == RunStart(t) && (Uniform(fs.view.sectMap, b, b + NR_DEFAULT_FILE_SECTS, false) <==> t < GRID)
  {
    var t, bits := FreeRun(owner), fs.view.sectMap;
    var b := RunStart(t);
    forall x | 0 <= x < b
      ensures bits[x]
    {
      if x >= GRID_START {
        var u := (x - GRID_START) / 2048;
        assert u < t;
      }
    }
    assert !bits[b] by {
      if t < GRID {
        assert (b - GRID_START) / 2048 == t;
      }
    }
    assert Least(bits) == b;
    if t < GRID {
      forall x | b <= x < b + NR_DEFAULT_FILE_SECTS
        ensures !bits[x]
      {
        assert (x - GRID_START) / 2048 == t;
      }
    } else {
      assert bits[TarStart(fs.n1)];
    }
  }

  lemma FreeInodeFacts(fs: Fs, owner: Owner)
    requires DiskOk(fs, owner)
    ensures Shaped(fs) && FIRST_FILE_INODE <= Least(fs.view.inodeMap) <= LAST_FILE_INODE
    ensures !Live(owner, Least(fs.view.inodeMap))
  {
    SomeInodeFree(fs, owner);
  }

  lemma FreeRunFacts(fs: Fs, owner: Owner)
    requires DiskOk(fs, owner)
    ensures Shaped(fs)
    ensures var t := FreeRun(owner); var b := Least(fs.view.sectMap);
            b == RunStart(t) && (Uniform(fs.view.sectMap, b, b + NR_DEFAULT_FILE_SECTS, false) <==> t < GRID)
  {
    hide Least, FreeRun, RunStart, Uniform;
    LeastIsFreeRun(fs, owner);
  }

  /** Fourteen entries cannot all be live while a run of the grid is free. */
  lemma SomeHole(slots: seq<Dirent>, owner: Owner, t: nat)
    requires |slots| >= FIXED_ENTRIES + GRID && |owner| == GRID && t < GRID && owner[t] == 0
    requires DistinctEntries(slots, FIXED_ENTRIES + GRID)
    requires forall e :: FIXED_ENTRIES <= e < FIXED_ENTRIES + GRID ==>
               slots[e].inodeNr == 0 || slots[e].inodeNr in owner
    ensures exists e :: FIXED_ENTRIES <= e < FIXED_ENTRIES + GRID && slots[e].inodeNr == 0
  {
    if forall e :: FIXED_ENTRIES <= e < FIXED_ENTRIES + GRID ==> slots[e].inodeNr != 0 {
      var others := owner[..t] + owner[t + 1..];
      var nums := seq(GRID, i requires 0 <= i < GRID => slots[FIXED_ENTRIES + i].inodeNr);
      MembersCount(others);
      forall i | 0 <= i < GRID
        ensures nums[i] in Members(others)
      {
        var u :| 0 <= u < GRID && owner[u] == slots[FIXED_ENTRIES + i].inodeNr;
        assert others[if u < t then u else u - 1] == nums[i];
      }
      DistinctCount(nums, Members(others));
    }
  }

  /** Where the new entry goes: a hole behind the fixed entries, or the end, which stays within
      the first sector while a run of the grid is free. */
  lemma NewSlot(slots: seq<Dirent>, n: nat, owner: Owner)
    requires |slots| == MAX_ENTRIES && OwnerOk(owner) && DirOk(slots, n, owner) && FreeRun(owner) < GRID
    ensures var e := FirstWith(Prefix(slots, n), 0);
            && FIXED_ENTRIES <= e <= n <= FIXED_ENTRIES + GRID && slots[e] == EMPTY_SLOT
            && (e == n ==> n < FIXED_ENTRIES + GRID)
  {
    var e := FirstWith(Prefix(slots, n), 0);
    var p := Prefix(slots, n);
    assert forall i :: 0 <= i < FIXED_ENTRIES ==> p[i].inodeNr == i + 1;
    if n == FIXED_ENTRIES + GRID {
      SomeHole(slots, owner, FreeRun(owner));
      var h :| FIXED_ENTRIES <= h < n && slots[h].inodeNr == 0;
      assert p[h].inodeNr == 0;
    }
    if e < n {
      assert p[e] == slots[e];
    }
  }

  /** The grid after a file with inode nr was created. */
  function Occupy(owner: Owner, nr: nat): (r: Owner)
    requires FreeRun(owner) < |owner|
    ensures |r| == |owner|
  {
    owner[FreeRun(owner) := nr]
  }

  lemma OccupyMembers(owner: Owner, nr: nat, x: nat)
    requires OwnerOk(owner) && FreeRun(owner) < GRID && FIRST_FILE_INODE <= nr <= LAST_FILE_INODE && nr !in owner
    ensures OwnerOk(Occupy(owner, nr))
    ensures Live(Occupy(owner, nr), x) <==> x == nr || Live(owner, x)
  {
    var owner', t := Occupy(owner, nr), FreeRun(owner);
    assert owner'[t] == nr;
    if x != 0 && x in owner {
      var u :| 0 <= u < GRID && owner[u] == x;
      assert owner'[u] == x;
    }
  }

  lemma CreateMaps(fs: Fs, owner: Owner, nr: nat, fs': Fs)
    requires Shaped(fs) && Shaped(fs') && OwnerOk(owner) && MapsOk(fs, owner) && FreeRun(owner) < GRID
    requires FIRST_FILE_INODE <= nr <= LAST_FILE_INODE && nr !in owner && fs'.n1 == fs.n1
    requires fs'.view.inodeMap == fs.view.inodeMap[nr := true]
    requires var b := RunStart(FreeRun(owner));
             fs'.view.sectMap == Fill(fs.view.sectMap, b, b + NR_DEFAULT_FILE_SECTS, true)
    ensures MapsOk(fs', Occupy(owner, nr))
  {
    var owner', t := Occupy(owner, nr), FreeRun(owner);
    forall x | 0 <= x < NR_INODES
      ensures fs'.view.inodeMap[x] <==> x == 0 || Live(owner', x)
    {
      OccupyMembers(owner, nr, x);
    }
    forall b | 0 <= b < |fs.view.sectMap|
      ensures fs'.view.sectMap[b] <==> BitTaken(fs.n1, owner', b)
    {
      assert fs.view.sectMap[b] <==> BitTaken(fs.n1, owner, b);
      if GRID_START <= b < RunStart(GRID) {
        assert (b - GRID_START) / 2048 == t <==> RunStart(t) <= b < RunStart(t) + 2048;
      }
    }
  }

  lemma CreateRecords(fs: Fs, owner: Owner, nr: nat, fs': Fs, root: DiskInode)
    requires Shaped(fs) && Shaped(fs') && OwnerOk(owner) && RecordsOk(fs, owner) && FreeRun(owner) < GRID
    requires FIRST_FILE_INODE <= nr <= LAST_FILE_INODE && nr !in owner && fs'.n1 == fs.n1 < 2048
    requires root == fs.view.recs[0].(size := root.size)
    requires fs'.view.recs == fs.view.recs[nr - 1 := NewInode(fs.n1, RunStart(FreeRun(owner)))][0 := root]
    ensures RecordsOk(fs', Occupy(owner, nr))
  {
    hide FreeRun;
    var owner' := Occupy(owner, nr);
    forall t | 0 <= t < GRID && owner'[t] != 0 && owner'[t] < NR_INODES
      ensures var r := fs'.view.recs[owner'[t] - 1];
              r.mode == I_REGULAR && r.start == fs.n1 - 1 + RunStart(t) && r.nrSects == NR_DEFAULT_FILE_SECTS
    {
      assert t != FreeRun(owner) ==> owner'[t] == owner[t] && owner[t] in owner;
    }
  }

  /** The name can be stored: it leaves room for its terminating zero, or the entry after it is
      empty anyway. */
  ghost predicate NameFits(fs: Fs, name: seq<bv8>)
    requires Shaped(fs)
  {
    var e := FirstWith(Prefix(fs.view.slots, Entries(fs)), 0);
    |name| < MAX_FILENAME_LEN ||
    (|name| == MAX_FILENAME_LEN && e + 1 < MAX_ENTRIES && fs.view.slots[e + 1].inodeNr == 0)
  }

  lemma StoredName(name: seq<bv8>)
    requires |name| <= MAX_FILENAME_LEN
    ensures Copied(name, NO_NAME) == Padded(name)
  {
  }

  lemma AddedEntry(slots: seq<Dirent>, n: nat, owner: Owner, nr: U32, name: seq<bv8>)
    requires |slots| == MAX_ENTRIES && OwnerOk(owner) && DirOk(slots, n, owner) && FreeRun(owner) < GRID
    requires |name| <= MAX_FILENAME_LEN
    requires var e := FirstWith(Prefix(slots, n), 0);
             e + 1 < MAX_ENTRIES && (|name| < MAX_FILENAME_LEN || slots[e + 1].inodeNr == 0)
    ensures var e := FirstWith(Prefix(slots, n), 0);
            AddEntry(slots, e, nr, name) == slots[e := Dirent(nr, Padded(name))]
  {
    hide FirstWith, Copied, Padded, Prefix, DirOk, OwnerOk, FreeRun;
    NewSlot(slots, n, owner);
    StoredName(name);
    var e := FirstWith(Prefix(slots, n), 0);
    var r := slots[e := Dirent(nr, Padded(name))];
    assert r[e + 1 := r[e + 1]] == r;
  }

  lemma CreateDir(slots: seq<Dirent>, n: nat, owner: Owner, nr: U32, name: Name)
    requires |slots| == MAX_ENTRIES && OwnerOk(owner) && DirOk(slots, n, owner) && FreeRun(owner) < GRID
    requires FIRST_FILE_INODE <= nr <= LAST_FILE_INODE && nr !in owner && name[0] != 0
    requires forall e :: 0 <= e < n && slots[e].inodeNr != 0 ==> slots[e].name != name
    ensures var e := FirstWith(Prefix(slots, n), 0);
            e < MAX_ENTRIES && DirOk(slots[e := Dirent(nr, name)], if e < n then n else n + 1, Occupy(owner, nr))
  {
    hide FirstWith, Prefix, Occupy;
    NewSlot(slots, n, owner);
    var e := FirstWith(Prefix(slots, n), 0);
    var n' := if e < n then n else n + 1;
    CreateLive(slots, n, owner, e, nr, name, n');
    CreateCovered(slots, n, owner, e, nr, name, n');
    EntriesDiffer(slots, n, owner, name);
    CreateDistinct(slots, n, owner, e, nr, name, n');
  }

  lemma EntriesDiffer(slots: seq<Dirent>, n: nat, owner: Owner, name: Name)
    requires |slots| == MAX_ENTRIES && |owner| == GRID && DirOk(slots, n, owner)
    requires forall e :: 0 <= e < n && slots[e].inodeNr != 0 ==> slots[e].name != name
    ensures forall f :: 0 <= f < n && slots[f].inodeNr != 0 ==>
              slots[f].name != name && (slots[f].inodeNr < FIRST_FILE_INODE || slots[f].inodeNr in owner)
  {
  }

  lemma CreateLive(slots: seq<Dirent>, n: nat, owner: Owner, e: nat, nr: U32, name: Name, n': nat)
    requires OwnerOk(owner) && FreeRun(owner) < GRID && FIRST_FILE_INODE <= nr <= LAST_FILE_INODE && nr !in owner
    requires n <= n' <= n + 1 && e < n' <= |slots| && (n' == n + 1 ==> e == n)
    requires forall f :: FIXED_ENTRIES <= f < n ==> slots[f] == EMPTY_SLOT || slots[f].inodeNr in owner
    requires forall f :: FIXED_ENTRIES <= f < n && slots[f] != EMPTY_SLOT ==> slots[f].inodeNr != 0
    ensures var slots' := slots[e := Dirent(nr, name)];
            && (forall f :: FIXED_ENTRIES <= f < n' ==>
                  slots'[f] == EMPTY_SLOT || slots'[f].inodeNr in Occupy(owner, nr))
            && (forall f :: FIXED_ENTRIES <= f < n' && slots'[f] != EMPTY_SLOT ==> slots'[f].inodeNr != 0)
  {
    var slots' := slots[e := Dirent(nr, name)];
    OccupyMembers(owner, nr, nr);
    forall f | FIXED_ENTRIES <= f < n'
      ensures slots'[f] == EMPTY_SLOT || slots'[f].inodeNr in Occupy(owner, nr)
    {
      if f != e && slots[f] != EMPTY_SLOT {
        var u :| 0 <= u < GRID && owner[u] == slots[f].inodeNr;
        assert Occupy(owner, nr)[u] == slots[f].inodeNr;
      } else if f == e {
        assert Occupy(owner, nr)[FreeRun(owner)] == nr;
      }
    }
  }

  lemma CreateCovered(slots: seq<Dirent>, n: nat, owner: Owner, e: nat, nr: U32, name: Name, n': nat)
    requires |owner| == GRID && FreeRun(owner) < GRID && FIXED_ENTRIES <= e < n' <= |slots| && n <= n'
    requires e < n ==> slots[e].inodeNr == 0
    requires forall t :: 0 <= t < GRID && owner[t] != 0 ==>
               exists f :: FIXED_ENTRIES <= f < n && slots[f].inodeNr == owner[t]
    ensures var slots', owner' := slots[e := Dirent(nr, name)], Occupy(owner, nr);
            forall t :: 0 <= t < GRID && owner'[t] != 0 ==>
              exists f :: FIXED_ENTRIES <= f < n' && slots'[f].inodeNr == owner'[t]
  {
    var slots', owner' := slots[e := Dirent(nr, name)], Occupy(owner, nr);
    forall t | 0 <= t < GRID && owner'[t] != 0
      ensures exists f :: FIXED_ENTRIES <= f < n' && slots'[f].inodeNr == owner'[t]
    {
      if t == FreeRun(owner) {
        assert slots'[e].inodeNr == nr;
      } else {
        var f :| FIXED_ENTRIES <= f < n && slots[f].inodeNr == owner[t];
        assert slots'[f].inodeNr == owner'[t];
      }
    }
  }

  lemma CreateDistinct(slots: seq<Dirent>, n: nat, owner: Owner, e: nat, nr: U32, name: Name, n': nat)
    requires n <= n' <= n + 1 && e < n' <= |slots| && (n' == n + 1 ==> e == n)
    requires DistinctEntries(slots, n) && name[0] != 0 && nr >= FIRST_FILE_INODE && nr !in owner
    requires forall f :: 0 <= f < n && slots[f].inodeNr != 0 ==>
               slots[f].name != name && (slots[f].inodeNr < FIRST_FILE_INODE || slots[f].inodeNr in owner)
    ensures DistinctEntries(slots[e := Dirent(nr, name)], n')
  {
  }

  lemma CreateCache(cache: seq<CachedInode>, recs: seq<DiskInode>, owner: Owner, nr: nat, inode: DiskInode,
                    slot: nat, root: DiskInode)
    requires |cache| == NR_INODE && |recs| == NR_INODES && OwnerOk(owner) && CacheOk(cache, recs, owner)
    requires FIRST_FILE_INODE <= nr <= LAST_FILE_INODE && nr !in owner && FreeRun(owner) < GRID
    requires slot < NR_INODE && cache[slot].cnt == 0
    requires root == cache[ROOT_SLOT].disk.(size := root.size)
    ensures slot != ROOT_SLOT
    ensures CacheOk(cache[slot := CachedInode(inode, nr, 1)][ROOT_SLOT := cache[ROOT_SLOT].(disk := root)],
                    recs[nr - 1 := inode][0 := root], Occupy(owner, nr))
  {
    var cache' := cache[slot := CachedInode(inode, nr, 1)][ROOT_SLOT := cache[ROOT_SLOT].(disk := root)];
    forall i | 0 <= i < NR_INODE && cache'[i].cnt != 0
      ensures 1 <= cache'[i].num < NR_INODES && Live(Occupy(owner, nr), cache'[i].num)
    {
      OccupyMembers(owner, nr, cache'[i].num);
    }
  }

  /** create_file on a consistent disk: it stops exactly when the fourteen runs are taken, and
      otherwise takes the first free run and keeps the disk consistent. */
  lemma CreateKeepsDisk(fs: Fs, owner: Owner, path: seq<bv8>)
    requires DiskOk(fs, owner) && CString(path)
    requires Search(fs, path) == 0 && SLASH !in NamePart(path) && NameFits(fs, NamePart(path))
    ensures CreateFile(fs, path).Created? <==> FreeRun(owner) < GRID
    ensures FreeRun(owner) < GRID ==>
              var nr := Least(fs.view.inodeMap);
              && DiskOk(CreateFile(fs, path).fs, Occupy(owner, nr))
              && CreateFile(fs, path).fs.cache[CreateFile(fs, path).slot] ==
                 CachedInode(NewInode(fs.n1, RunStart(FreeRun(owner))), nr, 1)
              && fs.cache[CreateFile(fs, path).slot].cnt == 0
  {
    SomeInodeFree(fs, owner);
    LeastIsFreeRun(fs, owner);
    if FreeRun(owner) < GRID {
      hide CreateFile, DiskOk, NewInode;
      CreateSucceeds(fs, owner, path);
    } else {
      CreateFails(fs, path);
    }
  }

  /** With a name that does not fit, the live entry behind the new one loses its inode number:
      create_file keeps the disk consistent exactly when the name fits. */
  lemma CreateConsistentExactly(fs: Fs, owner: Owner, path: seq<bv8>)
    requires DiskOk(fs, owner) && CString(path) && FreeRun(owner) < GRID
    requires Search(fs, path) == 0 && SLASH !in NamePart(path)
    ensures CreateFile(fs, path).Created?
    ensures (exists owner' :: DiskOk(CreateFile(fs, path).fs, owner')) <==> NameFits(fs, NamePart(path))
  {
    hide CreateFile, NameFits, Search, MapsOk, RecordsOk, DirOk, CacheOk;
    CreateSucceedsAnyName(fs, owner, path);
    if NameFits(fs, NamePart(path)) {
      CreateKeepsDisk(fs, owner, path);
    } else {
      forall owner'
        ensures !DiskOk(CreateFile(fs, path).fs, owner')
      {
        LongNameDamages(fs, owner, path, owner');
      }
    }
  }

  lemma CreateSucceedsAnyName(fs: Fs, owner: Owner, path: seq<bv8>)
    requires DiskOk(fs, owner) && FreeRun(owner) < GRID
    ensures CreateFile(fs, path).Created?
  {
    hide CreateFile;
    SomeInodeFree(fs, owner);
    LeastIsFreeRun(fs, owner);
    var slot, root := CreateShape(fs, owner, path);
  }

  lemma LongNameDamages(fs: Fs, owner: Owner, path: seq<bv8>, owner': Owner)
    requires DiskOk(fs, owner) && CString(path) && FreeRun(owner) < GRID && !NameFits(fs, NamePart(path))
    requires CreateFile(fs, path).Created?
    ensures !DiskOk(CreateFile(fs, path).fs, owner')
  {
    hide CreateFile, MapsOk, RecordsOk, CacheOk, DirOk, FirstWith, Fill, NewInode, AddEntry, Damaged;
    SomeInodeFree(fs, owner);
    LeastIsFreeRun(fs, owner);
    var slot, root := CreateShape(fs, owner, path);
    NewSlot(fs.view.slots, Entries(fs), owner);
    var x := DamagedSlot(fs.view.slots, Entries(fs), owner, Least(fs.view.inodeMap), NamePart(path));
    if DiskOk(CreateFile(fs, path).fs, owner') {
      NoBrokenSlot(CreateFile(fs, path).fs, owner', x);
    }
  }

  /** The inode numbers of files fit into the byte that a full-length name overwrites. */
  lemma SmallNumberIsLost(d: Dirent)
    requires d.inodeNr < 0x100
    ensures Damaged(d).inodeNr == 0 && Damaged(d).name == d.name
  {
  }

  lemma DamagedSlot(slots: seq<Dirent>, n: nat, owner: Owner, nr: U32, name: seq<bv8>) returns (x: nat)
    requires |slots| == MAX_ENTRIES && OwnerOk(owner) && DirOk(slots, n, owner) && FreeRun(owner) < GRID
    requires |name| == MAX_FILENAME_LEN && slots[FirstWith(Prefix(slots, n), 0) + 1].inodeNr != 0
    ensures x < ENTRIES_PER_SECT
    ensures var r := AddEntry(slots, FirstWith(Prefix(slots, n), 0), nr, name);
            r[x].inodeNr == 0 && r[x].name[0] != 0
  {
    hide FirstWith, Copied, Damaged;
    NewSlot(slots, n, owner);
    x := FirstWith(Prefix(slots, n), 0) + 1;
    assert slots[x].inodeNr in owner;
    SmallNumberIsLost(slots[x]);
  }

  lemma NoBrokenSlot(fs: Fs, owner: Owner, x: nat)
    requires DiskOk(fs, owner) && x < ENTRIES_PER_SECT
    ensures fs.view.slots[x].inodeNr == 0 ==> fs.view.slots[x].name[0] == 0
  {
  }

  lemma CreateFails(fs: Fs, path: seq<bv8>)
    requires Shaped(fs)
    requires var b := Least(fs.view.sectMap); !Uniform(fs.view.sectMap, b, b + NR_DEFAULT_FILE_SECTS, false)
    ensures !CreateFile(fs, path).Created?
  {
    hide Uniform, GetInode, AddEntry, Fill;
  }

  lemma CreateSucceeds(fs: Fs, owner: Owner, path: seq<bv8>)
    requires DiskOk(fs, owner) && CString(path)
    requires Search(fs, path) == 0 && SLASH !in NamePart(path) && NameFits(fs, NamePart(path))
    requires FreeRun(owner) < GRID
    requires FIRST_FILE_INODE <= Least(fs.view.inodeMap) <= LAST_FILE_INODE && !Live(owner, Least(fs.view.inodeMap))
    requires var b := Least(fs.view.sectMap);
             b == RunStart(FreeRun(owner)) && Uniform(fs.view.sectMap, b, b + NR_DEFAULT_FILE_SECTS, false)
    ensures CreateFile(fs, path).Created?
    ensures var nr := Least(fs.view.inodeMap);
            && DiskOk(CreateFile(fs, path).fs, Occupy(owner, nr))
            && CreateFile(fs, path).fs.cache[CreateFile(fs, path).slot] ==
               CachedInode(NewInode(fs.n1, RunStart(FreeRun(owner))), nr, 1)
            && fs.cache[CreateFile(fs, path).slot].cnt == 0
  {
    hide CreateFile, MapsOk, RecordsOk, DirOk, CacheOk, AddEntry, Fill, FirstWith, Least, Uniform, Search, NameFits;
    var v, nr, n := fs.view, Least(fs.view.inodeMap), Entries(fs);
    var slot, root := CreateShape(fs, owner, path);
    var r := CreateFile(fs, path);
    var b := RunStart(FreeRun(owner));
    CreateCache(fs.cache, v.recs, owner, nr, NewInode(fs.n1, b), slot, root);
    CreateMaps(fs, owner, nr, r.fs);
    CreateRecords(fs, owner, nr, r.fs, root);
    CreateNamed(fs, owner, path);
    OccupyMembers(owner, nr, nr);
  }

  /** The directory after the new entry, for a name that is not in it yet. */
  lemma CreateNamed(fs: Fs, owner: Owner, path: seq<bv8>)
    requires DiskOk(fs, owner) && CString(path) && FreeRun(owner) < GRID
    requires Search(fs, path) == 0 && SLASH !in NamePart(path) && NameFits(fs, NamePart(path))
    requires FIRST_FILE_INODE <= Least(fs.view.inodeMap) <= LAST_FILE_INODE && !Live(owner, Least(fs.view.inodeMap))
    ensures var nr, n := Least(fs.view.inodeMap), Entries(fs);
            var e := FirstWith(Prefix(fs.view.slots, n), 0);
            && e < MAX_ENTRIES
            && AddEntry(fs.view.slots, e, nr, NamePart(path)) == fs.view.slots[e := Dirent(nr, Padded(NamePart(path)))]
            && DirOk(AddEntry(fs.view.slots, e, nr, NamePart(path)), if e < n then n else n + 1, Occupy(owner, nr))
  {
    hide AddEntry, Search, Padded, DirOk, MapsOk, RecordsOk, CacheOk, Occupy, FirstWith, Prefix, Least, FreeRun;
    var slots, nr, n, name := fs.view.slots, Least(fs.view.inodeMap), Entries(fs), NamePart(path);
    NewSlot(slots, n, owner);
    NamePartFacts(path);
    NotRoot(fs, path);
    forall i | 0 <= i < n && slots[i].inodeNr != 0
      ensures slots[i].name != Padded(name)
    {
      SearchMisses(fs, owner, path, i);
    }
    AddedEntry(slots, n, owner, nr, name);
    CreateDir(slots, n, owner, nr, Padded(name));
  }

  lemma NotRoot(fs: Fs, path: seq<bv8>)
    requires Shaped(fs) && Search(fs, path) == 0 && SLASH !in NamePart(path)
    ensures NamePart(path) != []
  {
  }

  /** The state that create_file leaves, spelled out. */
  lemma CreateShape(fs: Fs, owner: Owner, path: seq<bv8>) returns (slot: nat, root: DiskInode)
    requires DiskOk(fs, owner) && FreeRun(owner) < GRID
    requires FIRST_FILE_INODE <= Least(fs.view.inodeMap) <= LAST_FILE_INODE && !Live(owner, Least(fs.view.inodeMap))
    requires var b := Least(fs.view.sectMap);
             b == RunStart(FreeRun(owner)) && Uniform(fs.view.sectMap, b, b + NR_DEFAULT_FILE_SECTS, false)
    ensures var v, nr, b, n := fs.view, Least(fs.view.inodeMap), RunStart(FreeRun(owner)), Entries(fs);
            var e := FirstWith(Prefix(v.slots, n), 0);
            var inode := NewInode(fs.n1, b);
            && slot == FreeAt(fs.cache) < NR_INODE && fs.cache[slot].cnt == 0 && slot != ROOT_SLOT && e < MAX_ENTRIES
            && root == fs.cache[ROOT_SLOT].disk.(size := root.size)
            && root.size == (if e < n then n else n + 1) * DIR_ENTRY_SIZE
            && root == v.recs[0].(size := root.size)
            && CreateFile(fs, path) == Created(
                 fs.(view := View(v.inodeMap[nr := true],
                                  Fill(v.sectMap, b, b + NR_DEFAULT_FILE_SECTS, true),
                                  v.recs[nr - 1 := inode][0 := root],
                                  AddEntry(v.slots, e, nr, NamePart(path))),
                     cache := fs.cache[slot := CachedInode(inode, nr, 1)]
                                      [ROOT_SLOT := fs.cache[ROOT_SLOT].(disk := root)]), slot)
  {
    hide AddEntry, Fill, NewInode, FirstWith, Uniform, RunStart, GetInode, DirOk, MapsOk, RecordsOk, Prefix, Least;
    var nr, n := Least(fs.view.inodeMap), Entries(fs);
    FreshFetch(fs, owner, nr, CachedInode(NewInode(fs.n1, RunStart(FreeRun(owner))), nr, 1));
    slot := FreeAt(fs.cache);
    NewSlot(fs.view.slots, n, owner);
    var e := FirstWith(Prefix(fs.view.slots, n), 0);
    root := fs.cache[ROOT_SLOT].disk.(size := (if e < n then n else n + 1) * DIR_ENTRY_SIZE);
    assert RootSize(fs) == n * DIR_ENTRY_SIZE;
  }

  lemma FreshFetch(fs: Fs, owner: Owner, nr: nat, c: CachedInode)
    requires DiskOk(fs, owner) && FIRST_FILE_INODE <= nr <= LAST_FILE_INODE && !Live(owner, nr)
    ensures var q := FreeAt(fs.cache); var r := GetInode(fs.cache, fs.view.recs, nr);
            && q < NR_INODE && q != ROOT_SLOT && fs.cache[q].cnt == 0
            && r.Fetched? && r.slot == q
            && r.cache[q := c] == fs.cache[q := c]
  {
    InodeTableNeverFills(fs.cache, fs.view.recs, owner);
    assert CachedAt(fs.cache, nr) == NR_INODE;
  }

  // ---- removing a file -----------------------------------------------------

  /** The run of the grid that inode nr occupies, or GRID. */
  function RunOf(owner: Owner, nr: nat): (t: nat)
    ensures t <= |owner| && (forall u :: 0 <= u < t ==> owner[u] != nr) && (t < |owner| ==> owner[t] == nr)
  {
    if owner == [] then 0 else if owner[0] == nr then 0 else 1 + RunOf(owner[1..], nr)
  }

  /** The grid after the file with inode nr was removed. */
  function Vacate(owner: Owner, nr: nat): (r: Owner)
    ensures |r| == |owner|
  {
    if RunOf(owner, nr) < |owner| then owner[RunOf(owner, nr) := 0] else owner
  }

  lemma VacateMembers(owner: Owner, nr: nat, x: nat)
    requires OwnerOk(owner) && nr in owner && nr != 0
    ensures OwnerOk(Vacate(owner, nr))
    ensures Live(Vacate(owner, nr), x) <==> x != nr && Live(owner, x)
  {
    var owner', t := Vacate(owner, nr), RunOf(owner, nr);
    if x != 0 && x != nr && x in owner {
      var u :| 0 <= u < GRID && owner[u] == x;
      assert owner'[u] == x;
    }
  }

  /** A regular file other than cmd.tar was created on the grid. */
  lemma RegularIsOnGrid(fs: Fs, owner: Owner, c: CachedInode)
    requires DiskOk(fs, owner) && Live(owner, c.num) && c.num < NR_INODES && c.num != CMD_TAR_INODE
    requires AgreesWith(c, fs.view.recs[c.num - 1]) && c.disk.mode == I_REGULAR
    ensures var t := RunOf(owner, c.num);
            && FIRST_FILE_INODE <= c.num && c.num in owner && t < GRID
            && FirstBit(fs, c.disk.start) == RunStart(t) && c.disk.nrSects == NR_DEFAULT_FILE_SECTS
  {
    assert c.num == 1 || c.num == 2 || c.num == 3 || c.num == 4 || c.num in owner;
  }

  /** Runs of the grid never start at a byte boundary, so unlink clears them exactly. */
  lemma GridIsUnaligned(t: nat)
    ensures RunStart(t) % 8 == 1
    ensures ClearedLength(RunStart(t), NR_DEFAULT_FILE_SECTS) == NR_DEFAULT_FILE_SECTS
  {
  }

  lemma RunIsTaken(fs: Fs, owner: Owner, t: nat)
    requires Shaped(fs) && OwnerOk(owner) && MapsOk(fs, owner) && t < GRID && owner[t] != 0
    ensures Uniform(fs.view.sectMap, RunStart(t), RunStart(t) + NR_DEFAULT_FILE_SECTS, true)
  {
    forall b | RunStart(t) <= b < RunStart(t) + NR_DEFAULT_FILE_SECTS
      ensures fs.view.sectMap[b]
    {
      assert (b - GRID_START) / 2048 == t;
    }
  }

  lemma RemoveMaps(fs: Fs, owner: Owner, nr: nat, fs': Fs)
    requires Shaped(fs) && Shaped(fs') && OwnerOk(owner) && MapsOk(fs, owner) && nr in owner && nr != 0
    requires fs'.n1 == fs.n1 && nr < NR_INODES && fs'.view.inodeMap == fs.view.inodeMap[nr := false]
    requires var s := RunStart(RunOf(owner, nr));
             fs'.view.sectMap == Fill(fs.view.sectMap, s, s + NR_DEFAULT_FILE_SECTS, false)
    ensures MapsOk(fs', Vacate(owner, nr))
  {
    var owner', t := Vacate(owner, nr), RunOf(owner, nr);
    forall x | 0 <= x < NR_INODES
      ensures fs'.view.inodeMap[x] <==> x == 0 || Live(owner', x)
    {
      VacateMembers(owner, nr, x);
    }
    forall b | 0 <= b < |fs.view.sectMap|
      ensures fs'.view.sectMap[b] <==> BitTaken(fs.n1, owner', b)
    {
      assert fs.view.sectMap[b] <==> BitTaken(fs.n1, owner, b);
      if GRID_START <= b < RunStart(GRID) {
        assert (b - GRID_START) / 2048 == t <==> RunStart(t) <= b < RunStart(t) + 2048;
      }
    }
  }

  lemma RemoveRecords(fs: Fs, owner: Owner, nr: nat, fs': Fs)
    requires Shaped(fs) && Shaped(fs') && OwnerOk(owner) && RecordsOk(fs, owner)
    requires nr in owner && FIRST_FILE_INODE <= nr <= LAST_FILE_INODE && fs'.n1 == fs.n1
    requires fs'.view.recs == fs.view.recs[nr - 1 := NO_RECORD]
    ensures RecordsOk(fs', Vacate(owner, nr))
  {
    hide RunOf;
    var owner' := Vacate(owner, nr);
    forall t | 0 <= t < GRID && owner'[t] != 0 && owner'[t] < NR_INODES
      ensures owner'[t] == owner[t] && owner[t] != nr
    {
      assert RunOf(owner, nr) < GRID;
    }
  }

  lemma RemoveCache(cache: seq<CachedInode>, recs: seq<DiskInode>, owner: Owner, slot: nat, nr: nat, root: CachedInode)
    requires |cache| == NR_INODE && |recs| == NR_INODES && OwnerOk(owner) && CacheOk(cache, recs, owner)
    requires slot < NR_INODE && cache[slot].num == nr && cache[slot].cnt == 1
    requires nr in owner && FIRST_FILE_INODE <= nr <= LAST_FILE_INODE
    requires root == cache[ROOT_SLOT].(disk := root.disk) && root.disk == cache[ROOT_SLOT].disk.(size := root.disk.size)
    requires root.disk.size <= cache[ROOT_SLOT].disk.size
    ensures slot != ROOT_SLOT
    ensures CacheOk(cache[slot := CachedInode(NO_RECORD, nr, 0)][ROOT_SLOT := root], recs[nr - 1 := NO_RECORD],
                    Vacate(owner, nr))
  {
    var cache' := cache[slot := CachedInode(NO_RECORD, nr, 0)][ROOT_SLOT := root];
    forall i | 0 <= i < NR_INODE && cache'[i].cnt != 0
      ensures Live(Vacate(owner, nr), cache'[i].num)
    {
      VacateMembers(owner, nr, cache'[i].num);
    }
  }

  /** The entry of a live file, and the directory without it. */
  lemma RemoveDir(slots: seq<Dirent>, n: nat, owner: Owner, nr: U32)
    requires |slots| == MAX_ENTRIES && OwnerOk(owner) && DirOk(slots, n, owner)
    requires nr in owner && FIRST_FILE_INODE <= nr <= LAST_FILE_INODE
    ensures var e := FirstWith(Prefix(slots, n), nr);
            && FIXED_ENTRIES <= e < n <= FIXED_ENTRIES + GRID
            && var n' := if e == n - 1 then LiveEnd(slots[..e]) else n;
               DirOk(slots[e := EMPTY_SLOT], n', Vacate(owner, nr))
  {
    hide FirstWith, LiveEnd, DirOk;
    var e := FirstWith(Prefix(slots, n), nr);
    EntryOf(slots, n, owner, nr);
    var n' := if e == n - 1 then LiveEnd(slots[..e]) else n;
    TrimmedEnd(slots, n, owner, e);
    RemoveAt(slots, n, owner, e, nr, n');
  }

  lemma RemoveAt(slots: seq<Dirent>, n: nat, owner: Owner, e: nat, nr: U32, n': nat)
    requires |slots| == MAX_ENTRIES && OwnerOk(owner) && DirOk(slots, n, owner)
    requires nr in owner && FIRST_FILE_INODE <= nr <= LAST_FILE_INODE
    requires FIXED_ENTRIES <= e < n && slots[e].inodeNr == nr && FIXED_ENTRIES <= n' <= n && n' - 1 != e
    requires slots[n' - 1].inodeNr != 0 && forall i :: n' <= i < n && i != e ==> slots[i].inodeNr == 0
    ensures DirOk(slots[e := EMPTY_SLOT], n', Vacate(owner, nr))
  {
    hide OwnerOk, Vacate;
    RemoveLive(slots, n, owner, e, nr, n');
    RemoveCovered(slots, n, owner, e, nr, n');
  }

  lemma EntryOf(slots: seq<Dirent>, n: nat, owner: Owner, nr: U32)
    requires |slots| == MAX_ENTRIES && |owner| == GRID && DirOk(slots, n, owner)
    requires nr in owner && FIRST_FILE_INODE <= nr <= LAST_FILE_INODE
    ensures var e := FirstWith(Prefix(slots, n), nr);
            FIXED_ENTRIES <= e < n <= FIXED_ENTRIES + GRID && slots[e].inodeNr == nr
  {
    hide FirstWith, DistinctEntries;
    var p := Prefix(slots, n);
    var t :| 0 <= t < GRID && owner[t] == nr;
    var f :| FIXED_ENTRIES <= f < n && slots[f].inodeNr == nr;
    assert p[f].inodeNr == nr;
    assert forall i :: 0 <= i < FIXED_ENTRIES ==> p[i].inodeNr == i + 1;
  }

  /** Behind the last entry that stays there are only holes. */
  lemma TrimmedEnd(slots: seq<Dirent>, n: nat, owner: Owner, e: nat)
    requires |slots| == MAX_ENTRIES && |owner| == GRID && DirOk(slots, n, owner) && FIXED_ENTRIES <= e < n
    ensures var n' := if e == n - 1 then LiveEnd(slots[..e]) else n;
            && FIXED_ENTRIES <= n' <= n && (forall i :: n' <= i < n && i != e ==> slots[i].inodeNr == 0)
            && n' - 1 != e && slots[n' - 1].inodeNr != 0
  {
    if e == n - 1 {
      var before := slots[..e];
      assert before[FIXED_ENTRIES - 1].inodeNr != 0;
      assert forall i :: 0 <= i < e ==> slots[i] == before[i];
    }
  }

  lemma RemoveLive(slots: seq<Dirent>, n: nat, owner: Owner, e: nat, nr: U32, n': nat)
    requires OwnerOk(owner) && FIRST_FILE_INODE <= nr <= LAST_FILE_INODE && nr in owner
    requires FIXED_ENTRIES <= n' <= n <= |slots| && FIXED_ENTRIES <= e < n && slots[e].inodeNr == nr
    requires DistinctEntries(slots, n)
    requires forall f :: FIXED_ENTRIES <= f < n ==> slots[f] == EMPTY_SLOT || slots[f].inodeNr in owner
    requires forall f :: FIXED_ENTRIES <= f < n && slots[f] != EMPTY_SLOT ==> slots[f].inodeNr != 0
    ensures var slots' := slots[e := EMPTY_SLOT];
            && DistinctEntries(slots', n')
            && (forall f :: FIXED_ENTRIES <= f < n' ==>
                  slots'[f] == EMPTY_SLOT || slots'[f].inodeNr in Vacate(owner, nr))
            && (forall f :: FIXED_ENTRIES <= f < n' && slots'[f] != EMPTY_SLOT ==> slots'[f].inodeNr != 0)
  {
    var slots' := slots[e := EMPTY_SLOT];
    forall f | FIXED_ENTRIES <= f < n'
      ensures slots'[f] == EMPTY_SLOT || slots'[f].inodeNr in Vacate(owner, nr)
    {
      if f != e && slots[f] != EMPTY_SLOT {
        var u :| 0 <= u < GRID && owner[u] == slots[f].inodeNr;
        assert slots[f].inodeNr != slots[e].inodeNr;
        assert Vacate(owner, nr)[u] == slots[f].inodeNr;
      }
    }
  }

  lemma RemoveCovered(slots: seq<Dirent>, n: nat, owner: Owner, e: nat, nr: U32, n': nat)
    requires OwnerOk(owner) && nr in owner && nr != 0
    requires FIXED_ENTRIES <= n' <= n <= |slots| && FIXED_ENTRIES <= e < n && slots[e].inodeNr == nr
    requires forall i :: n' <= i < n && i != e ==> slots[i].inodeNr == 0
    requires forall t :: 0 <= t < GRID && owner[t] != 0 ==>
               exists f :: FIXED_ENTRIES <= f < n && slots[f].inodeNr == owner[t]
    ensures var slots', owner' := slots[e := EMPTY_SLOT], Vacate(owner, nr);
            forall t :: 0 <= t < GRID && owner'[t] != 0 ==>
              exists f :: FIXED_ENTRIES <= f < n' && slots'[f].inodeNr == owner'[t]
  {
    var slots', owner' := slots[e := EMPTY_SLOT], Vacate(owner, nr);
    forall t | 0 <= t < GRID && owner'[t] != 0
      ensures exists f :: FIXED_ENTRIES <= f < n' && slots'[f].inodeNr == owner'[t]
    {
      var f :| FIXED_ENTRIES <= f < n && slots[f].inodeNr == owner[t];
      assert slots'[f].inodeNr == owner'[t];
    }
  }

  lemma FetchedRecord(fs: Fs, owner: Owner, slot: nat)
    requires DiskOk(fs, owner) && slot < NR_INODE && fs.cache[slot].cnt != 0
    ensures 1 <= fs.cache[slot].num < NR_INODES
    ensures AgreesWith(fs.cache[slot], fs.view.recs[fs.cache[slot].num - 1])
  {
  }

  /** A file that do_unlink does not refuse: regular, not open, and not cmd.tar. */
  ghost predicate Removable(fs: Fs, nr: U32, slot: nat)
    requires |fs.cache| == NR_INODE
  {
    && slot < NR_INODE && fs.cache[slot].num == nr && fs.cache[slot].cnt == 1
    && fs.cache[slot].disk.mode == I_REGULAR && nr != CMD_TAR_INODE
  }

  /** What do_unlink does on a consistent disk: none of its asserts fails. */
  lemma RemoveShape(fs: Fs, owner: Owner, nr: U32, slot: nat)
    requires DiskOk(fs, owner) && Removable(fs, nr, slot)
    ensures 1 <= nr < NR_INODES && slot != ROOT_SLOT && nr in owner && FIRST_FILE_INODE <= nr <= LAST_FILE_INODE
    ensures var inode, v, n := fs.cache[slot].disk, fs.view, Entries(fs);
            var s, e := FirstBit(fs, inode.start), FirstWith(Prefix(v.slots, n), nr);
            && s == RunStart(RunOf(owner, nr)) && ClearedLength(s, inode.nrSects) == NR_DEFAULT_FILE_SECTS
            && s >= 0 && inode.nrSects > 0 && s + ClearedLength(s, inode.nrSects) <= |v.sectMap|
            && v.inodeMap[nr] && Uniform(v.sectMap, s, s + ClearedLength(s, inode.nrSects), true)
            && e < n && RootSize(fs) % DIR_ENTRY_SIZE == 0
            && var root := fs.cache[ROOT_SLOT];
               var size' := if e == n - 1 then LiveEnd(v.slots[..e]) * DIR_ENTRY_SIZE else root.disk.size;
               var cache1 := fs.cache[slot := CachedInode(NO_RECORD, nr, 0)];
               Remove(fs, nr, slot) ==
               Reply(fs.(view := View(v.inodeMap[nr := false],
                                      Fill(v.sectMap, s, s + ClearedLength(s, inode.nrSects), false),
                                      v.recs[nr - 1 := NO_RECORD],
                                      v.slots[e := EMPTY_SLOT]),
                         cache := cache1[ROOT_SLOT := root.(disk := root.disk.(size := size'))]), 0)
  {
    hide FirstWith, LiveEnd, Fill, DirOk, RecordsOk, Uniform, Prefix, ClearedLength, RunOf, RunStart;
    FetchedRecord(fs, owner, slot);
    RegularIsOnGrid(fs, owner, fs.cache[slot]);
    NotTheRoot(fs, owner, slot);
    var t := RunOf(owner, nr);
    GridIsUnaligned(t);
    RunIsTaken(fs, owner, t);
    EntryOf(fs.view.slots, Entries(fs), owner, nr);
    UniformFits(fs.view.sectMap, RunStart(t), NR_DEFAULT_FILE_SECTS);
    assert Live(owner, nr) && fs.view.inodeMap[nr];
  }

  lemma NotTheRoot(fs: Fs, owner: Owner, slot: nat)
    requires DiskOk(fs, owner) && slot < NR_INODE && fs.cache[slot].cnt != 0 && fs.cache[slot].disk.mode == I_REGULAR
    ensures slot != ROOT_SLOT
  {
    assert AgreesWith(fs.cache[ROOT_SLOT], fs.view.recs[0]);
  }

  lemma UniformFits(bits: seq<bool>, s: int, n: int)
    requires Uniform(bits, s, s + n, true)
    ensures s + n <= |bits|
  {
  }

  /** do_unlink's removal of a regular file that nobody has open, other than cmd.tar: none of its
      asserts fails, and the disk stays consistent without the file. */
  lemma RemoveKeepsDisk(fs: Fs, owner: Owner, nr: nat, slot: nat)
    requires DiskOk(fs, owner) && slot < NR_INODE
    requires fs.cache[slot].num == nr && fs.cache[slot].cnt == 1 && fs.cache[slot].disk.mode == I_REGULAR
    requires nr != CMD_TAR_INODE
    ensures 1 <= nr < NR_INODES && Remove(fs, nr, slot).Reply? && nr in owner && slot != ROOT_SLOT
    ensures DiskOk(Remove(fs, nr, slot).fs, Vacate(owner, nr))
    ensures Remove(fs, nr, slot).fs.cache[slot].cnt == 0
    ensures forall i :: 0 <= i < NR_INODE && i != slot ==>
              Remove(fs, nr, slot).fs.cache[i].cnt == fs.cache[i].cnt
  {
    hide Remove, FirstWith, LiveEnd, Fill, DirOk, RecordsOk, MapsOk, CacheOk, Uniform, Prefix, RunOf, RunStart, Vacate;
    hide ClearedLength, OwnerOk;
    SmallNumber(fs, owner, slot);
    RemoveShape(fs, owner, nr, slot);
    RemoveDir(fs.view.slots, Entries(fs), owner, nr);
    var fs' := Remove(fs, nr, slot).fs;
    RemoveCache(fs.cache, fs.view.recs, owner, slot, nr, fs'.cache[ROOT_SLOT]);
    RemoveMaps(fs, owner, nr, fs');
    RemoveRecords(fs, owner, nr, fs');
    VacatedSize(fs, owner, nr);
  }

  lemma SmallNumber(fs: Fs, owner: Owner, slot: nat)
    requires DiskOk(fs, owner) && slot < NR_INODE && fs.cache[slot].cnt != 0
    ensures fs.cache[slot].num < NR_INODES
  {
  }

  lemma VacatedSize(fs: Fs, owner: Owner, nr: nat)
    requires DiskOk(fs, owner)
    ensures OwnerOk(Vacate(owner, nr)) && RootSize(fs) == Entries(fs) * DIR_ENTRY_SIZE
  {
  }
}
