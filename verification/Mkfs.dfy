/** mkfs (fs/main.c): the maps, the first inode records and the root directory of a new disk. */
module Mkfs {
  import opened Bits
  import opened BlockDevice
  import opened Records
  import opened Directory
  import opened SectorMap
  import opened FsModel
  import opened FsInvariant
  import opened FsRun
  import opened FsLayout

  const ZERO_SECTOR: Sector := seq(SECTOR_SIZE, _ => 0)

  lemma ZeroBits()
    ensures forall x :: 0 <= x < BITS_PER_SECT ==> !BitOf(ZERO_SECTOR, x)
  {
    forall x | 0 <= x < BITS_PER_SECT
      ensures !BitOf(ZERO_SECTOR, x)
    {
      NoBitInZero(x % 8);
    }
  }

  /** fsbuf[b / 8] |= 1 << (b % 8) */
  function OrBit(buf: Sector, b: nat): (r: Sector)
    requires b < BITS_PER_SECT
  {
    buf[b / 8 := buf[b / 8] | Mask(b % 8)]
  }

  lemma OrBitSets(before: Sector, buf: Sector, lo: nat, b: nat)
    requires lo <= b < BITS_PER_SECT && SetsRange(before, buf, lo, b)
    ensures SetsRange(before, OrBit(buf, b), lo, b + 1)
  {
    var byte := buf[b / 8] | Mask(b % 8);
    forall i: nat | i < 8
      ensures Bit(byte, i) <==> Bit(buf[b / 8], i) || b % 8 <= i < b % 8 + 1
    {
      SetMask(buf[b / 8], b % 8, i);
    }
    ExtendSet(before, buf, lo, b / 8, b % 8, 1, byte);
  }

  /** The inode map: bit 0, the root, three ttys and cmd.tar. */
  method WriteInodeMap(dev: Device)
    requires IMAP < |dev.sectors|
    modifies dev
    ensures SameOutside(old(dev.sectors), dev.sectors, IMAP, IMAP + 1)
    ensures forall x :: 0 <= x < BITS_PER_SECT ==> (BitAt(dev.sectors, IMAP, x) <==> x < NR_CONSOLE + 3)
  {
    ZeroBits();
    dev.fsbuf := ZERO_SECTOR;
    var i := 0;
    while i < NR_CONSOLE + 3
      invariant 0 <= i <= NR_CONSOLE + 3 && dev.sectors == old(dev.sectors)
      invariant SetsRange(ZERO_SECTOR, dev.fsbuf, 0, i)
    {
      OrBitSets(ZERO_SECTOR, dev.fsbuf, 0, i);
      dev.fsbuf := OrBit(dev.fsbuf, i);
      i := i + 1;
    }
    dev.WrSect(IMAP);
  }

  /** The first sector of the sector map: bit 0 and the root directory's run. */
  method RootBits() returns (buf: Sector)
    ensures SetsRange(ZERO_SECTOR, buf, 0, NR_DEFAULT_FILE_SECTS + 1)
  {
    buf := ZERO_SECTOR;
    var nrSects := NR_DEFAULT_FILE_SECTS + 1;
    var i := 0;
    while i < nrSects / 8
      invariant 0 <= i <= nrSects / 8 && SetsRange(ZERO_SECTOR, buf, 0, 8 * i)
    {
      AllOnes(0xff);
      ExtendSet(ZERO_SECTOR, buf, 0, i, 0, 8, 0xff);
      buf := buf[i := 0xff];
      i := i + 1;
    }
    var j := 0;
    while j < nrSects % 8
      invariant 0 <= j <= nrSects % 8 && SetsRange(ZERO_SECTOR, buf, 0, 8 * i + j)
    {
      OrBitSets(ZERO_SECTOR, buf, 0, 8 * i + j);
      buf := OrBit(buf, 8 * i + j);
      j := j + 1;
    }
  }

  /** Sets the map bits of cmd.tar, sector after sector. */
  method WriteTarBits(dev: Device, k: nat)
    requires BigEnough(dev.sectors, k)
    modifies dev
    ensures MapSets(old(dev.sectors), dev.sectors, SMAP, k, TarStart(FirstSect(k)),
                    TarStart(FirstSect(k)) + INSTALL_NR_SECTS)
  {
    hide BitAt, BitOf, Bit, OrBit;
    ghost var before := dev.sectors;
    var first := TarStart(FirstSect(k));
    var offset, left, cur := first % BITS_PER_SECT, INSTALL_NR_SECTS, first / BITS_PER_SECT;
    dev.RdSect(SMAP + cur);
    assert dev.sectors[SMAP + cur := dev.fsbuf] == before;
    while left > 0
      invariant 0 <= left <= INSTALL_NR_SECTS && 0 <= offset < BITS_PER_SECT && cur < k
      invariant |dev.sectors| == |before|
      invariant cur * BITS_PER_SECT + offset == first + (INSTALL_NR_SECTS - left)
      invariant MapSets(before, dev.sectors[SMAP + cur := dev.fsbuf], SMAP, k, first, first + (INSTALL_NR_SECTS - left))
    {
      ghost var now := dev.sectors[SMAP + cur := dev.fsbuf];
      ghost var buf := dev.fsbuf;
      assert SetsRange(buf, buf, offset, offset);
      OrBitSets(buf, buf, offset, offset);
      dev.fsbuf := OrBit(dev.fsbuf, offset);
      ExtendMapSet(before, now, SMAP, k, cur, first, cur * BITS_PER_SECT + offset, 1, dev.fsbuf);
      assert now[SMAP + cur := dev.fsbuf] == dev.sectors[SMAP + cur := dev.fsbuf];
      left := left - 1;
      offset := offset + 1;
      if offset == BITS_PER_SECT {
        dev.WrSect(SMAP + cur);
        ghost var written := dev.sectors;
        cur := cur + 1;
        dev.RdSect(SMAP + cur);
        assert dev.sectors[SMAP + cur := dev.fsbuf] == written;
        offset := 0;
      }
    }
    dev.WrSect(SMAP + cur);
  }

  /** Bit 0, the root directory, and cmd.tar. */
  predicate InitiallyTaken(n1: nat, b: int) {
    b < NR_DEFAULT_FILE_SECTS + 1 || TarStart(n1) <= b < TarStart(n1) + INSTALL_NR_SECTS
  }

  /** The sector map: the root directory's run, zeroes, and cmd.tar. */
  method WriteSectMap(dev: Device, k: nat)
    requires BigEnough(dev.sectors, k)
    modifies dev
    ensures SameOutside(old(dev.sectors), dev.sectors, SMAP, SMAP + k)
    ensures forall b :: 0 <= b < k * BITS_PER_SECT ==>
              (BitAt(dev.sectors, SMAP, b) <==> InitiallyTaken(FirstSect(k), b))
  {
    ghost var before := dev.sectors;
    dev.fsbuf := RootBits();
    ghost var first := dev.fsbuf;
    dev.WrSect(SMAP);
    dev.fsbuf := ZERO_SECTOR;
    var i := 1;
    while i < k
      invariant 1 <= i <= k && dev.fsbuf == ZERO_SECTOR && SameOutside(before, dev.sectors, SMAP, SMAP + k)
      invariant dev.sectors[SMAP] == first && forall s :: SMAP < s < SMAP + i ==> dev.sectors[s] == ZERO_SECTOR
    {
      dev.WrSect(SMAP + i);
      i := i + 1;
    }
    ghost var now := dev.sectors;
    RootOnly(now, k, first);
    WriteTarBits(dev, k);
    forall b | 0 <= b < k * BITS_PER_SECT
      ensures BitAt(dev.sectors, SMAP, b) <==> InitiallyTaken(FirstSect(k), b)
    {
      assert BitAt(now, SMAP, b) <==> b < NR_DEFAULT_FILE_SECTS + 1;
    }
  }

  lemma RootOnly(sectors: seq<Sector>, k: nat, first: Sector)
    requires SMAP + k <= |sectors| && k > 0 && sectors[SMAP] == first
    requires SetsRange(ZERO_SECTOR, first, 0, NR_DEFAULT_FILE_SECTS + 1)
    requires forall s :: SMAP < s < SMAP + k ==> sectors[s] == ZERO_SECTOR
    ensures forall b :: 0 <= b < k * BITS_PER_SECT ==>
              (BitAt(sectors, SMAP, b) <==> b < NR_DEFAULT_FILE_SECTS + 1)
  {
    ZeroBits();
    forall b | 0 <= b < k * BITS_PER_SECT
      ensures BitAt(sectors, SMAP, b) <==> b < NR_DEFAULT_FILE_SECTS + 1
    {
      var j, y := b / BITS_PER_SECT, b % BITS_PER_SECT;
      if j == 0 {
        assert BitOf(first, y) <==> BitOf(ZERO_SECTOR, y) || 0 <= y < NR_DEFAULT_FILE_SECTS + 1;
      } else {
        assert sectors[SMAP + j] == ZERO_SECTOR;
      }
    }
  }

  // ---- inodes and the root directory ---------------------------------------

  /** The records of the root, the ttys and cmd.tar. */
  function FixedInode(n1: nat, i: nat): DiskInode
    requires i < FIXED_ENTRIES
  {
    if i == 0 then DiskInode(I_DIRECTORY, DIR_ENTRY_SIZE * 5, n1 % 0x1_0000_0000, NR_DEFAULT_FILE_SECTS)
    else if i == 4 then DiskInode(I_REGULAR, INSTALL_NR_SECTS * SECTOR_SIZE, INSTALL_START_SECT, INSTALL_NR_SECTS)
    else DiskInode(I_CHAR_SPECIAL, 0, DEV_CHAR_TTY * 0x100 + (i - 1), 0)
  }

  method WriteInodes(dev: Device, k: nat)
    requires BigEnough(dev.sectors, k)
    modifies dev
    ensures SameOutside(old(dev.sectors), dev.sectors, Table(k), Table(k) + 1)
    ensures forall i: nat :: i < FIXED_ENTRIES ==> Record(dev.sectors, Table(k), i) == FixedInode(FirstSect(k), i)
  {
    hide InodeAt, PutInode;
    dev.fsbuf := ZERO_SECTOR;
    var i := 0;
    while i < FIXED_ENTRIES
      invariant 0 <= i <= FIXED_ENTRIES && dev.sectors == old(dev.sectors)
      invariant forall j: nat :: j < i ==> InodeAt(dev.fsbuf, j) == FixedInode(FirstSect(k), j)
    {
      forall j: nat | j <= i
        ensures InodeAt(PutInode(dev.fsbuf, i, FixedInode(FirstSect(k), i)), j) == FixedInode(FirstSect(k), j)
      {
        InodeRoundTrip(dev.fsbuf, i, FixedInode(FirstSect(k), i), j);
      }
      dev.fsbuf := PutInode(dev.fsbuf, i, FixedInode(FirstSect(k), i));
      i := i + 1;
    }
    dev.WrSect(Table(k));
  }

  lemma ZeroSlot(e: nat)
    requires e < ENTRIES_PER_SECT
    ensures DirentAt(ZERO_SECTOR, e) == EMPTY_SLOT
  {
    ZeroByte();
    assert ZERO_SECTOR[e * DIR_ENTRY_SIZE + 4..e * DIR_ENTRY_SIZE + 16] == NO_NAME;
  }

  /** Entry e of the new directory after the first i were written. */
  function FixedEntry(i: nat, e: nat): Dirent
    requires i <= FIXED_ENTRIES
  {
    if e < i then Dirent(e + 1, FixedName(e)) else EMPTY_SLOT
  }

  method WriteRootDir(dev: Device, d0: nat)
    requires d0 < |dev.sectors|
    modifies dev
    ensures SameOutside(old(dev.sectors), dev.sectors, d0, d0 + 1)
    ensures forall e: nat :: e < ENTRIES_PER_SECT ==> Slot(dev.sectors, d0, e) == FixedEntry(FIXED_ENTRIES, e)
  {
    hide DirentAt, PutDirent, Copied, Padded, FixedString;
    forall e: nat | e < ENTRIES_PER_SECT
      ensures DirentAt(ZERO_SECTOR, e) == FixedEntry(0, e)
    {
      ZeroSlot(e);
    }
    dev.fsbuf := ZERO_SECTOR;
    var i: nat := 0;
    while i < FIXED_ENTRIES
      invariant i <= FIXED_ENTRIES && dev.sectors == old(dev.sectors)
      invariant forall e: nat :: e < ENTRIES_PER_SECT ==> DirentAt(dev.fsbuf, e) == FixedEntry(i, e)
    {
      ghost var buf := dev.fsbuf;
      dev.fsbuf := PutDirent(dev.fsbuf, i, i + 1, FixedString(i));
      forall e: nat | e < ENTRIES_PER_SECT
        ensures DirentAt(dev.fsbuf, e) == FixedEntry(i + 1, e)
      {
        if e == i {
          PutDirentSelf(buf, i, i + 1, FixedString(i));
          StoredName(FixedString(i));
        } else {
          PutDirentOther(buf, i, i + 1, FixedString(i), e);
        }
      }
      i := i + 1;
    }
    dev.WrSect(d0);
  }

  /** The whole of mkfs on a disk of the given size. */
  method Format(dev: Device, k: nat)
    requires BigEnough(dev.sectors, k)
    modifies dev
    ensures BigEnough(dev.sectors, k) && Formatted(FirstSect(k), ViewOf(dev.sectors, k))
  {
    hide BitAt, Record, Slot, FixedName, TarStart;
    ghost var s0 := dev.sectors;
    WriteInodeMap(dev);
    ghost var s1 := dev.sectors;
    WriteSectMap(dev, k);
    ghost var s2 := dev.sectors;
    WriteInodes(dev, k);
    ghost var s3 := dev.sectors;
    WriteRootDir(dev, FirstSect(k));
    ghost var s4 := dev.sectors;
    MapFrame(s1, s4, IMAP, 1);
    MapFrame(s2, s4, SMAP, k);
    RecordFrame(s3, s4, Table(k));
    FormattedFrom(s1, s2, s3, s4, k);
  }

  lemma FormattedFrom(s1: seq<Sector>, s2: seq<Sector>, s3: seq<Sector>, s4: seq<Sector>, k: nat)
    requires BigEnough(s1, k) && BigEnough(s2, k) && BigEnough(s3, k) && BigEnough(s4, k)
    requires MapView(s4, IMAP, 1) == MapView(s1, IMAP, 1) && MapView(s4, SMAP, k) == MapView(s2, SMAP, k)
    requires RecordView(s4, Table(k)) == RecordView(s3, Table(k))
    requires forall x :: 0 <= x < BITS_PER_SECT ==> (BitAt(s1, IMAP, x) <==> x < NR_CONSOLE + 3)
    requires forall b :: 0 <= b < k * BITS_PER_SECT ==>
               (BitAt(s2, SMAP, b) <==> InitiallyTaken(FirstSect(k), b))
    requires forall i: nat :: i < FIXED_ENTRIES ==> Record(s3, Table(k), i) == FixedInode(FirstSect(k), i)
    requires forall e: nat :: e < ENTRIES_PER_SECT ==> Slot(s4, FirstSect(k), e) == FixedEntry(FIXED_ENTRIES, e)
    ensures Formatted(FirstSect(k), ViewOf(s4, k))
  {
    hide BitAt, Record, Slot, FixedName, TarStart;
    var v := ViewOf(s4, k);
    assert v.recs[0] == FixedInode(FirstSect(k), 0) && v.recs[1] == FixedInode(FirstSect(k), 1);
    assert v.recs[2] == FixedInode(FirstSect(k), 2) && v.recs[3] == FixedInode(FirstSect(k), 3);
    assert v.recs[4] == FixedInode(FirstSect(k), 4);
    forall e: nat | e < ENTRIES_PER_SECT
      ensures v.slots[e] == FixedEntry(FIXED_ENTRIES, e)
    {
    }
  }
}
