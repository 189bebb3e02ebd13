/** The flat root directory: path stripping and search (fs/misc.c), adding and removing an
    entry (fs/opera.c), as loops over the directory's sectors. */
module Directory {
  import opened Bits
  import opened BlockDevice
  import opened Records

  const SLASH: bv8 := 0x2f

  function DirSects(size: nat): nat {
    (size + SECTOR_SIZE - 1) / SECTOR_SIZE
  }

  /** Entry e of the directory whose first sector is d0. */
  function Slot(sectors: seq<Sector>, d0: nat, e: nat): Dirent {
    if d0 + e / ENTRIES_PER_SECT < |sectors|
    then DirentAt(sectors[d0 + e / ENTRIES_PER_SECT], e % ENTRIES_PER_SECT)
    else EMPTY_SLOT
  }

  lemma SlotUpdate(sectors: seq<Sector>, d0: nat, i: nat, buf: Sector, x: nat)
    requires d0 + i < |sectors|
    ensures Slot(sectors[d0 + i := buf], d0, x) ==
            if x / ENTRIES_PER_SECT == i then DirentAt(buf, x % ENTRIES_PER_SECT) else Slot(sectors, d0, x)
  {
    hide DirentAt;
  }

  /** Entries of one sector are told apart by their place in it. */
  lemma SamePlace(e: nat, x: nat)
    ensures x == e <==> x / ENTRIES_PER_SECT == e / ENTRIES_PER_SECT && x % ENTRIES_PER_SECT == e % ENTRIES_PER_SECT
    ensures x == e + 1 && e % ENTRIES_PER_SECT != ENTRIES_PER_SECT - 1 <==>
            x / ENTRIES_PER_SECT == e / ENTRIES_PER_SECT && x % ENTRIES_PER_SECT == e % ENTRIES_PER_SECT + 1
  {
  }

  /** The first n entries. */
  function Slots(sectors: seq<Sector>, d0: nat, n: nat): (s: seq<Dirent>)
    ensures |s| == n && forall e :: 0 <= e < n ==> s[e] == Slot(sectors, d0, e)
  {
    seq(n, e requires 0 <= e < n => Slot(sectors, d0, e))
  }

  lemma EntryPosition(i: nat, j: nat)
    requires j < ENTRIES_PER_SECT
    ensures (ENTRIES_PER_SECT * i + j) / ENTRIES_PER_SECT == i
    ensures (ENTRIES_PER_SECT * i + j) % ENTRIES_PER_SECT == j
  {
  }

  lemma SlotInSector(sectors: seq<Sector>, d0: nat, i: nat, j: nat, buf: Sector)
    requires d0 + i < |sectors| && j < ENTRIES_PER_SECT && buf == sectors[d0 + i]
    ensures Slot(sectors, d0, ENTRIES_PER_SECT * i + j) == DirentAt(buf, j)
  {
    EntryPosition(i, j);
  }

  // ---- paths ---------------------------------------------------------------

  /** The name part of a path: what follows an optional leading slash, cut at 12 bytes. */
  function NamePart(path: seq<bv8>): (name: seq<bv8>)
    ensures |name| <= MAX_FILENAME_LEN
  {
    var rest := if path != [] && path[0] == SLASH then path[1..] else path;
    if |rest| <= MAX_FILENAME_LEN then rest else rest[..MAX_FILENAME_LEN]
  }

  /** The name field that search_file compares with: zero-filled. */
  function Padded(name: seq<bv8>): (r: Name)
    requires |name| <= MAX_FILENAME_LEN
  {
    name + seq(MAX_FILENAME_LEN - |name|, _ => 0)
  }

  /** Fails when the name contains a slash. */
  method StripPath(path: seq<bv8>) returns (ok: bool, name: seq<bv8>)
    ensures ok <==> SLASH !in NamePart(path)
    ensures ok ==> name == NamePart(path)
  {
    var s := 0;
    if |path| > 0 && path[0] == SLASH {
      s := 1;
    }
    ghost var rest := path[s..];
    name := [];
    while s < |path|
      invariant s <= |path| && |name| < MAX_FILENAME_LEN && s + |rest| == |path| + |name|
      invariant name == rest[..|name|] && path[s..] == rest[|name|..] && SLASH !in name
    {
      assert path[s] == rest[|name|];
      if path[s] == SLASH {
        assert SLASH in NamePart(path) by { assert NamePart(path)[|name|] == SLASH; }
        return false, name;
      }
      name := name + [path[s]];
      s := s + 1;
      if |name| >= MAX_FILENAME_LEN {
        break;
      }
    }
    ok := true;
  }

  // ---- search --------------------------------------------------------------

  /** search_file compares before it counts, so it also looks at the entry after the last,
      unless the directory ends at a sector boundary. */
  function Compared(size: nat): nat {
    size / DIR_ENTRY_SIZE + (if size % SECTOR_SIZE == 0 then 0 else 1)
  }

  lemma ComparedFits(size: nat)
    ensures Compared(size) == Min(size / DIR_ENTRY_SIZE + 1, ENTRIES_PER_SECT * DirSects(size))
    ensures size / DIR_ENTRY_SIZE <= ENTRIES_PER_SECT * DirSects(size)
  {
    var q, r := size / SECTOR_SIZE, size % SECTOR_SIZE;
    assert size == SECTOR_SIZE * q + r;
    assert size / DIR_ENTRY_SIZE == ENTRIES_PER_SECT * q + r / DIR_ENTRY_SIZE;
    assert DirSects(size) == q + (if r == 0 then 0 else 1);
  }

  /** The inode number of the first entry with that name, or 0. */
  function Lookup(slots: seq<Dirent>, name: Name): U32 {
    if slots == [] then 0
    else if slots[0].name == name then slots[0].inodeNr
    else Lookup(slots[1..], name)
  }

  lemma {:induction false} LookupFirst(slots: seq<Dirent>, name: Name, e: nat)
    requires e <= |slots| && forall i :: 0 <= i < e ==> slots[i].name != name
    ensures Lookup(slots, name) == Lookup(slots[e..], name)
    ensures e < |slots| && slots[e].name == name ==> Lookup(slots, name) == slots[e].inodeNr
    ensures e == |slots| ==> Lookup(slots, name) == 0
  {
    if e == 0 {
    } else {
      LookupFirst(slots[1..], name, e - 1);
      assert slots[1..][e - 1..] == slots[e..];
    }
  }

  /** The entry loop of search_file over one sector; m entries were compared before it. */
  method SearchSector(buf: Sector, m0: nat, n: nat, name: Name, ghost slots: seq<Dirent>)
    returns (found: bool, nr: U32, m: nat)
    requires m0 <= n && Min(m0 + ENTRIES_PER_SECT, n + 1) <= |slots|
    requires forall j: nat :: j < ENTRIES_PER_SECT && m0 + j < |slots| ==> slots[m0 + j] == DirentAt(buf, j)
    ensures m0 <= m <= |slots| && (forall e :: m0 <= e < m ==> slots[e].name != name)
    ensures found ==> m < |slots| && slots[m].name == name && nr == slots[m].inodeNr
    ensures !found ==> m == Min(m0 + ENTRIES_PER_SECT, n + 1)
  {
    m, nr := m0, 0;
    var j := 0;
    while j < ENTRIES_PER_SECT
      invariant 0 <= j <= ENTRIES_PER_SECT && m == m0 + j && m <= n
      invariant forall e :: m0 <= e < m ==> slots[e].name != name
    {
      if DirentAt(buf, j).name == name {
        return true, DirentAt(buf, j).inodeNr, m;
      }
      m := m + 1;
      if m > n {
        return false, 0, m;
      }
      j := j + 1;
    }
    found := false;
  }

  /** The sector loop of search_file. */
  method SearchSlots(dev: Device, d0: nat, sects: nat, n: nat, name: Name) returns (nr: U32)
    requires d0 + sects <= |dev.sectors| && n <= ENTRIES_PER_SECT * sects
    modifies dev`fsbuf
    ensures nr == Lookup(Slots(dev.sectors, d0, Min(n + 1, ENTRIES_PER_SECT * sects)), name)
  {
    ghost var slots := Slots(dev.sectors, d0, Min(n + 1, ENTRIES_PER_SECT * sects));
    var m, i := 0, 0;
    while i < sects && m <= n
      invariant 0 <= i <= sects && m == Min(ENTRIES_PER_SECT * i, n + 1)
      invariant forall e :: 0 <= e < m ==> slots[e].name != name
    {
      dev.RdSect(d0 + i);
      SectorSlots(dev.sectors, d0, i, m, dev.fsbuf, slots);
      var found;
      found, nr, m := SearchSector(dev.fsbuf, m, n, name, slots);
      if found {
        LookupFirst(slots, name, m);
        return;
      }
      i := i + 1;
    }
    LookupFirst(slots, name, m);
    nr := 0;
  }

  lemma SectorSlots(sectors: seq<Sector>, d0: nat, i: nat, m: nat, buf: Sector, slots: seq<Dirent>)
    requires d0 + i < |sectors| && buf == sectors[d0 + i] && m == ENTRIES_PER_SECT * i
    requires slots == Slots(sectors, d0, |slots|)
    ensures forall j: nat :: j < ENTRIES_PER_SECT && m + j < |slots| ==> slots[m + j] == DirentAt(buf, j)
  {
    forall j: nat | j < ENTRIES_PER_SECT && m + j < |slots|
      ensures slots[m + j] == DirentAt(buf, j)
    {
      SlotInSector(sectors, d0, i, j, buf);
    }
  }

  const ROOT_INODE := 1

  /** What search_file answers for a path, given the entries that it compares with. */
  function Resolve(path: seq<bv8>, slots: seq<Dirent>): U32 {
    var name := NamePart(path);
    if SLASH in name then 0
    else if name == [] then ROOT_INODE
    else Lookup(slots, Padded(name))
  }

  method SearchFile(dev: Device, d0: nat, size: nat, path: seq<bv8>) returns (nr: U32)
    requires d0 + DirSects(size) <= |dev.sectors|
    modifies dev`fsbuf
    ensures nr == Resolve(path, Slots(dev.sectors, d0, Compared(size)))
  {
    hide Slots, Lookup, DirSects, Compared;
    var ok, name := StripPath(path);
    if !ok {
      return 0;
    }
    if name == [] {
      return ROOT_INODE;
    }
    ComparedFits(size);
    nr := SearchSlots(dev, d0, DirSects(size), size / DIR_ENTRY_SIZE, Padded(name));
  }

  // ---- adding an entry -----------------------------------------------------

  /** The first entry with inode number nr, or the number of entries. */
  function FirstWith(slots: seq<Dirent>, nr: U32): (e: nat)
    ensures e <= |slots| && (forall i :: 0 <= i < e ==> slots[i].inodeNr != nr)
    ensures e < |slots| ==> slots[e].inodeNr == nr
  {
    if slots == [] then 0
    else if slots[0].inodeNr == nr then 0
    else 1 + FirstWith(slots[1..], nr)
  }

  ghost predicate IsFirstWith(slots: seq<Dirent>, nr: U32, e: nat) {
    && e <= |slots| && (forall i :: 0 <= i < e ==> slots[i].inodeNr != nr)
    && (e < |slots| ==> slots[e].inodeNr == nr)
  }

  /** k is the end of the last live entry among the first e. */
  ghost predicate IsLiveEnd(slots: seq<Dirent>, e: nat, k: nat) {
    && k <= e <= |slots| && (forall i :: k <= i < e ==> slots[i].inodeNr == 0)
    && (k > 0 ==> slots[k - 1].inodeNr != 0)
  }

  /** The entry loop over one sector that looks for inode number nr; m0 entries were seen
      before.  do_unlink also keeps the end of the last live entry so far. */
  method FindInSector(buf: Sector, m0: nat, n: nat, nr: U32, live0: nat, ghost slots: seq<Dirent>)
    returns (found: bool, j: nat, m: nat, live: nat)
    requires m0 <= n == |slots| && IsLiveEnd(slots, m0, live0)
    requires forall j: nat :: j < ENTRIES_PER_SECT && m0 + j < n ==> slots[m0 + j] == DirentAt(buf, j)
    ensures j <= ENTRIES_PER_SECT && m0 + j <= n && (forall e :: m0 <= e < m0 + j ==> slots[e].inodeNr != nr)
    ensures IsLiveEnd(slots, m0 + j, live)
    ensures found ==> m0 + j < n && j < ENTRIES_PER_SECT && slots[m0 + j].inodeNr == nr && m == m0 + j + 1
    ensures !found ==> if j < ENTRIES_PER_SECT then m0 + j == n && m == n + 1 else m == m0 + j
  {
    m, j, live := m0, 0, live0;
    while j < ENTRIES_PER_SECT
      invariant 0 <= j <= ENTRIES_PER_SECT && m == m0 + j && m <= n
      invariant forall e :: m0 <= e < m ==> slots[e].inodeNr != nr
      invariant IsLiveEnd(slots, m, live)
    {
      m := m + 1;
      if m > n {
        return false, j, m, live;
      }
      if DirentAt(buf, j).inodeNr == nr {
        return true, j, m, live;
      }
      if DirentAt(buf, j).inodeNr != 0 {
        live := m;
      }
      j := j + 1;
    }
    found := false;
  }

  /** The sector loop around it, for a directory of n entries in sects sectors.  It ends at an
      entry, at the place after the last entry, or past the last sector; the buffer holds the
      last sector that was read. */
  method FindEntry(dev: Device, d0: nat, sects: nat, n: nat, nr: U32)
    returns (found: bool, i: nat, j: nat, m: nat, live: nat, ghost e: nat)
    requires d0 + sects <= |dev.sectors| && ENTRIES_PER_SECT * (sects - 1) < n <= ENTRIES_PER_SECT * sects
    modifies dev`fsbuf
    ensures IsFirstWith(Slots(dev.sectors, d0, n), nr, e)
    ensures && (found <==> e < n)
            && (found ==> e == ENTRIES_PER_SECT * i + j && m == e + 1)
            && IsLiveEnd(Slots(dev.sectors, d0, n), e, live)
            && (!found && n < ENTRIES_PER_SECT * sects ==> n == ENTRIES_PER_SECT * i + j)
            && (if found || n < ENTRIES_PER_SECT * sects
                then i < sects && j < ENTRIES_PER_SECT && dev.fsbuf == dev.sectors[d0 + i]
                else i == sects && (i > 0 ==> j == ENTRIES_PER_SECT && dev.fsbuf == dev.sectors[d0 + i - 1]))
  {
    hide DirentAt;
    ghost var slots := Slots(dev.sectors, d0, n);
    m, i, j, live, e := 0, 0, 0, 0, n;
    while i < sects
      invariant 0 <= i <= sects && m == ENTRIES_PER_SECT * i && m <= n && IsLiveEnd(slots, m, live)
      invariant forall e :: 0 <= e < m ==> slots[e].inodeNr != nr
      invariant i > 0 ==> j == ENTRIES_PER_SECT && dev.fsbuf == dev.sectors[d0 + i - 1]
    {
      dev.RdSect(d0 + i);
      SectorSlots(dev.sectors, d0, i, m, dev.fsbuf, slots);
      found, j, m, live := FindInSector(dev.fsbuf, m, n, nr, live, slots);
      if found || m > n {
        e := ENTRIES_PER_SECT * i + j;
        return;
      }
      i := i + 1;
    }
    found := false;
  }

  /** What new_dir_entry does to the disk.  e is the first hole, or the entry count n. */
  function WithEntry(sectors: seq<Sector>, d0: nat, n: nat, e: nat, nr: U32, filename: seq<bv8>): (r: seq<Sector>)
    requires d0 + e / ENTRIES_PER_SECT < |sectors| && |filename| <= MAX_FILENAME_LEN
  {
    var s := d0 + e / ENTRIES_PER_SECT;
    if e < n || n % ENTRIES_PER_SECT != 0
    then sectors[s := PutDirent(sectors[s], e % ENTRIES_PER_SECT, nr, filename)]
    else if s > 0 then sectors[s := sectors[s - 1]] else sectors
  }

  /** new_dir_entry: fills the first hole, or appends.  When the directory is full to the end of
      its last sector, the new entry is built past the end of the buffer and lost, and the
      unchanged last sector is written one sector too far. */
  method NewDirEntry(dev: Device, d0: nat, n: nat, nr: U32, filename: seq<bv8>) returns (n': nat, ghost e: nat)
    requires n > 0 && d0 + n / ENTRIES_PER_SECT < |dev.sectors| && |filename| <= MAX_FILENAME_LEN
    modifies dev
    ensures IsFirstWith(Slots(old(dev.sectors), d0, n), 0, e)
    ensures n' == if e < n then n else n + 1
    ensures dev.sectors == WithEntry(old(dev.sectors), d0, n, e, nr, filename)
  {
    hide DirentAt, PutDirent;
    var sects := (n + ENTRIES_PER_SECT - 1) / ENTRIES_PER_SECT;
    var found, i, j, m, live;
    found, i, j, m, live, e := FindEntry(dev, d0, sects, n, 0);
    n' := n;
    if !found {
      n' := n + 1;
    }
    if j < ENTRIES_PER_SECT {
      EntryPosition(i, j);
      dev.fsbuf := PutDirent(dev.fsbuf, j, nr, filename);
    }
    dev.WrSect(d0 + i);
  }

  /** Away from a full last sector, and with a name that leaves room for its zero, the entry is
      stored and all others stay; a name of 12 bytes damages the following entry. */
  lemma WithEntrySlots(sectors: seq<Sector>, d0: nat, n: nat, e: nat, nr: U32, filename: seq<bv8>, x: nat)
    requires d0 + e / ENTRIES_PER_SECT < |sectors| && |filename| <= MAX_FILENAME_LEN
    requires e < n || n % ENTRIES_PER_SECT != 0
    ensures var was := Slot(sectors, d0, x);
            Slot(WithEntry(sectors, d0, n, e, nr, filename), d0, x) ==
            if x == e then Dirent(nr, Copied(filename, was.name))
            else if x == e + 1 && e % ENTRIES_PER_SECT != ENTRIES_PER_SECT - 1 && |filename| == MAX_FILENAME_LEN
            then Damaged(was)
            else was
  {
    hide DirentAt, PutDirent;
    var s, j := d0 + e / ENTRIES_PER_SECT, e % ENTRIES_PER_SECT;
    SlotUpdate(sectors, d0, e / ENTRIES_PER_SECT, PutDirent(sectors[s], j, nr, filename), x);
    SamePlace(e, x);
    if x == e {
      PutDirentSelf(sectors[s], j, nr, filename);
    } else if x / ENTRIES_PER_SECT == e / ENTRIES_PER_SECT {
      PutDirentOther(sectors[s], j, nr, filename, x % ENTRIES_PER_SECT);
    }
  }

  /** When the directory ends at a sector boundary and has no hole, the new entry is lost. */
  lemma FullSectorLosesEntry(sectors: seq<Sector>, d0: nat, n: nat, nr: U32, filename: seq<bv8>)
    requires n > 0 && n % ENTRIES_PER_SECT == 0 && d0 + n / ENTRIES_PER_SECT < |sectors|
    requires |filename| <= MAX_FILENAME_LEN
    ensures var r := WithEntry(sectors, d0, n, n, nr, filename);
            Slot(r, d0, n) == Slot(sectors, d0, n - ENTRIES_PER_SECT)
  {
  }

  // ---- removing an entry ---------------------------------------------------

  function WithoutEntry(sectors: seq<Sector>, d0: nat, e: nat): (r: seq<Sector>)
    requires d0 + e / ENTRIES_PER_SECT < |sectors|
  {
    var s := d0 + e / ENTRIES_PER_SECT;
    sectors[s := ClearDirent(sectors[s], e % ENTRIES_PER_SECT)]
  }

  lemma WithoutEntrySlots(sectors: seq<Sector>, d0: nat, e: nat, x: nat)
    requires d0 + e / ENTRIES_PER_SECT < |sectors|
    ensures Slot(WithoutEntry(sectors, d0, e), d0, x) == if x == e then EMPTY_SLOT else Slot(sectors, d0, x)
  {
    hide DirentAt, ClearDirent;
    var s, j := d0 + e / ENTRIES_PER_SECT, e % ENTRIES_PER_SECT;
    SlotUpdate(sectors, d0, e / ENTRIES_PER_SECT, ClearDirent(sectors[s], j), x);
    SamePlace(e, x);
    if x / ENTRIES_PER_SECT == e / ENTRIES_PER_SECT {
      ClearedDirent(sectors[s], j, x % ENTRIES_PER_SECT);
    }
  }

  /** The directory part of do_unlink: zeroes the first entry for nr and, if it was the last
      one, trims the directory behind the last live entry.  Not ok is a failed assert. */
  method RemoveDirEntry(dev: Device, d0: nat, n: nat, nr: U32) returns (ok: bool, n': nat, ghost e: nat)
    requires d0 + (n + ENTRIES_PER_SECT - 1) / ENTRIES_PER_SECT <= |dev.sectors| && nr != 0
    modifies dev
    ensures IsFirstWith(Slots(old(dev.sectors), d0, n), nr, e)
    ensures ok <==> e < n
    ensures dev.sectors == if ok then WithoutEntry(old(dev.sectors), d0, e) else old(dev.sectors)
    ensures ok ==> if e == n - 1 then IsLiveEnd(Slots(old(dev.sectors), d0, n), e, n') else n' == n
  {
    var sects := (n + ENTRIES_PER_SECT - 1) / ENTRIES_PER_SECT;
    var i, j, m, live;
    ok, i, j, m, live, e := FindEntry(dev, d0, sects, n, nr);
    n' := n;
    if ok {
      EntryPosition(i, j);
      dev.fsbuf := ClearDirent(dev.fsbuf, j);
      dev.WrSect(d0 + i);
      if m == n {
        n' := live;
      }
    }
  }
}
