/** Where mkfs puts things on the disk, and how writes to one region show in the view. */
module FsLayout {
  import opened Bits
  import opened Records
  import opened Directory
  import opened SectorMap
  import opened FsModel

  const IMAP := 2
  const SMAP := 3
  const INODE_SECTS := 256

  /** The first inode sector, for a sector map of k sectors. */
  function Table(k: nat): nat {
    SMAP + k
  }

  /** The first data sector, where the root directory starts. */
  function FirstSect(k: nat): nat {
    Table(k) + INODE_SECTS
  }

  /** The disk reaches at least to the end of cmd.tar. */
  ghost predicate BigEnough(sectors: seq<Sector>, k: nat) {
    9 <= k && FirstSect(k) < 2048 && |sectors| > INSTALL_START_SECT + INSTALL_NR_SECTS
  }

  ghost function MapView(sectors: seq<Sector>, lo: nat, n: nat): (bits: seq<bool>)
    requires lo + n <= |sectors|
    ensures |bits| == n * BITS_PER_SECT
    ensures forall x :: 0 <= x < n * BITS_PER_SECT ==> bits[x] == BitAt(sectors, lo, x)
  {
    seq(n * BITS_PER_SECT, x requires 0 <= x < n * BITS_PER_SECT => BitAt(sectors, lo, x))
  }

  function Record(sectors: seq<Sector>, t: nat, i: nat): DiskInode
    requires t + i / INODES_PER_SECT < |sectors|
  {
    InodeAt(sectors[t + i / INODES_PER_SECT], i % INODES_PER_SECT)
  }

  ghost function RecordView(sectors: seq<Sector>, t: nat): (recs: seq<DiskInode>)
    requires t + INODE_SECTS <= |sectors|
    ensures |recs| == NR_INODES
    ensures forall i :: 0 <= i < NR_INODES ==> recs[i] == Record(sectors, t, i)
  {
    seq(NR_INODES, i requires 0 <= i < NR_INODES => Record(sectors, t, i))
  }

  ghost function ViewOf(sectors: seq<Sector>, k: nat): View
    requires BigEnough(sectors, k)
  {
    View(MapView(sectors, IMAP, 1), MapView(sectors, SMAP, k), RecordView(sectors, Table(k)),
         Slots(sectors, FirstSect(k), MAX_ENTRIES))
  }

  /** Only maps, records and the root directory were written: the sectors of files are as before. */
  ghost predicate DataKept(before: seq<Sector>, after: seq<Sector>, k: nat) {
    SameOutside(before, after, IMAP, FirstSect(k) + 2048)
  }

  lemma RecordsKeepData(before: seq<Sector>, mid: seq<Sector>, after: seq<Sector>, k: nat)
    requires DataKept(before, mid, k) && SameOutside(mid, after, Table(k), FirstSect(k))
    ensures DataKept(before, after, k)
  {
  }

  // ---- frames --------------------------------------------------------------

  lemma MapFrame(before: seq<Sector>, after: seq<Sector>, lo: nat, n: nat)
    requires lo + n <= |before| == |after| && forall s :: lo <= s < lo + n ==> after[s] == before[s]
    ensures MapView(after, lo, n) == MapView(before, lo, n)
  {
    hide BitOf;
    forall x | 0 <= x < n * BITS_PER_SECT
      ensures BitAt(after, lo, x) == BitAt(before, lo, x)
    {
      assert after[lo + x / BITS_PER_SECT] == before[lo + x / BITS_PER_SECT];
    }
  }

  lemma RecordFrame(before: seq<Sector>, after: seq<Sector>, t: nat)
    requires t + INODE_SECTS <= |before| == |after| && forall s :: t <= s < t + INODE_SECTS ==> after[s] == before[s]
    ensures RecordView(after, t) == RecordView(before, t)
  {
    hide InodeAt;
    forall i | 0 <= i < NR_INODES
      ensures Record(after, t, i) == Record(before, t, i)
    {
      assert after[t + i / INODES_PER_SECT] == before[t + i / INODES_PER_SECT];
    }
  }

  lemma SlotFrame(before: seq<Sector>, after: seq<Sector>, d0: nat)
    requires |before| == |after| && forall s :: d0 <= s < |before| && s < d0 + 2048 ==> after[s] == before[s]
    ensures Slots(after, d0, MAX_ENTRIES) == Slots(before, d0, MAX_ENTRIES)
  {
    hide DirentAt;
    forall e | 0 <= e < MAX_ENTRIES
      ensures Slot(after, d0, e) == Slot(before, d0, e)
    {
      assert e / ENTRIES_PER_SECT < 2048;
    }
  }

  // ---- writes to one region ------------------------------------------------

  lemma SetInodeMap(before: seq<Sector>, after: seq<Sector>, k: nat, nr: nat, v: bool)
    requires BigEnough(before, k) && nr < NR_INODES
    requires if v then MapSets(before, after, IMAP, 1, nr, nr + 1) else MapClears(before, after, IMAP, 1, nr, nr + 1)
    ensures BigEnough(after, k)
    ensures ViewOf(after, k) == ViewOf(before, k).(inodeMap := ViewOf(before, k).inodeMap[nr := v])
  {
    hide BitAt, Record, Slot;
    MapFrame(before, after, SMAP, k);
    RecordFrame(before, after, Table(k));
    SlotFrame(before, after, FirstSect(k));
    assert MapView(after, IMAP, 1) == MapView(before, IMAP, 1)[nr := v];
  }

  lemma SetSectMap(before: seq<Sector>, after: seq<Sector>, k: nat, a: nat, b: nat, v: bool)
    requires BigEnough(before, k)
    requires if v then MapSets(before, after, SMAP, k, a, b) else MapClears(before, after, SMAP, k, a, b)
    ensures BigEnough(after, k)
    ensures ViewOf(after, k) == ViewOf(before, k).(sectMap := Fill(ViewOf(before, k).sectMap, a, b, v))
  {
    hide BitAt, Record, Slot;
    MapFrame(before, after, IMAP, 1);
    RecordFrame(before, after, Table(k));
    SlotFrame(before, after, FirstSect(k));
    assert MapView(after, SMAP, k) == Fill(MapView(before, SMAP, k), a, b, v);
  }

  /** The record of inode num in its sector. */
  function RecordSect(k: nat, num: nat): nat
    requires num >= 1
  {
    Table(k) + (num - 1) / INODES_PER_SECT
  }

  lemma SetRecord(before: seq<Sector>, k: nat, num: nat, d: DiskInode)
    requires BigEnough(before, k) && 1 <= num <= NR_INODES
    ensures var s := RecordSect(k, num);
            var after := before[s := PutInode(before[s], (num - 1) % INODES_PER_SECT, d)];
            && BigEnough(after, k)
            && ViewOf(after, k) == ViewOf(before, k).(recs := ViewOf(before, k).recs[num - 1 := d])
  {
    hide BitAt, Slot, PutInode, InodeAt;
    var s := RecordSect(k, num);
    var after := before[s := PutInode(before[s], (num - 1) % INODES_PER_SECT, d)];
    MapFrame(before, after, IMAP, 1);
    MapFrame(before, after, SMAP, k);
    SlotFrame(before, after, FirstSect(k));
    forall i | 0 <= i < NR_INODES
      ensures Record(after, Table(k), i) == if i == num - 1 then d else Record(before, Table(k), i)
    {
      RecordPlace(i, num - 1);
      if i / INODES_PER_SECT == (num - 1) / INODES_PER_SECT {
        InodeRoundTrip(before[s], (num - 1) % INODES_PER_SECT, d, i % INODES_PER_SECT);
      }
    }
    assert RecordView(after, Table(k)) == RecordView(before, Table(k))[num - 1 := d];
  }

  lemma RecordPlace(i: nat, j: nat)
    ensures i == j <==> i / INODES_PER_SECT == j / INODES_PER_SECT && i % INODES_PER_SECT == j % INODES_PER_SECT
  {
  }

  /** A write to sector s of the root directory. */
  lemma SetSlots(before: seq<Sector>, after: seq<Sector>, k: nat, slots: seq<Dirent>)
    requires BigEnough(before, k) && |slots| == MAX_ENTRIES
    requires SameOutside(before, after, FirstSect(k), FirstSect(k) + 2048)
    requires forall e :: 0 <= e < MAX_ENTRIES ==> Slot(after, FirstSect(k), e) == slots[e]
    ensures BigEnough(after, k)
    ensures ViewOf(after, k) == ViewOf(before, k).(slots := slots)
  {
    hide BitAt, Record, Slot;
    MapFrame(before, after, IMAP, 1);
    MapFrame(before, after, SMAP, k);
    RecordFrame(before, after, Table(k));
    assert Slots(after, FirstSect(k), MAX_ENTRIES) == slots;
  }

  lemma StoreEntry(before: seq<Sector>, k: nat, n: nat, e: nat, nr: U32, name: seq<bv8>)
    requires BigEnough(before, k) && e <= n < ENTRIES_PER_SECT && 0 < n && |name| <= MAX_FILENAME_LEN
    ensures var after := WithEntry(before, FirstSect(k), n, e, nr, name);
            && BigEnough(after, k) && DataKept(before, after, k)
            && ViewOf(after, k) == ViewOf(before, k).(slots := AddEntry(ViewOf(before, k).slots, e, nr, name))
  {
    hide Slot, WithEntry, AddEntry, Copied, Damaged;
    var after := WithEntry(before, FirstSect(k), n, e, nr, name);
    var slots := Slots(before, FirstSect(k), MAX_ENTRIES);
    WithEntrySize(before, FirstSect(k), n, e, nr, name);
    forall x | 0 <= x < MAX_ENTRIES
      ensures Slot(after, FirstSect(k), x) == AddEntry(slots, e, nr, name)[x]
    {
      WithEntrySlots(before, FirstSect(k), n, e, nr, name, x);
      AddEntryAt(slots, e, nr, name, x);
    }
    SetSlots(before, after, k, AddEntry(slots, e, nr, name));
  }

  lemma WithEntrySize(before: seq<Sector>, d0: nat, n: nat, e: nat, nr: U32, name: seq<bv8>)
    requires e <= n < ENTRIES_PER_SECT && 0 < n && d0 < |before| && |name| <= MAX_FILENAME_LEN
    ensures SameOutside(before, WithEntry(before, d0, n, e, nr, name), d0, d0 + 2048)
  {
    hide PutDirent;
  }

  lemma AddEntryAt(slots: seq<Dirent>, e: nat, nr: U32, name: seq<bv8>, x: nat)
    requires |slots| == MAX_ENTRIES && e < ENTRIES_PER_SECT && x < MAX_ENTRIES && |name| <= MAX_FILENAME_LEN
    ensures AddEntry(slots, e, nr, name)[x] ==
            if x == e then Dirent(nr, Copied(name, slots[x].name))
            else if x == e + 1 && e % ENTRIES_PER_SECT != ENTRIES_PER_SECT - 1 && |name| == MAX_FILENAME_LEN
            then Damaged(slots[x])
            else slots[x]
  {
    hide Copied, Damaged;
  }

  lemma EraseEntry(before: seq<Sector>, k: nat, e: nat)
    requires BigEnough(before, k) && e < ENTRIES_PER_SECT
    ensures var after := WithoutEntry(before, FirstSect(k), e);
            && BigEnough(after, k) && DataKept(before, after, k)
            && ViewOf(after, k) == ViewOf(before, k).(slots := ViewOf(before, k).slots[e := EMPTY_SLOT])
  {
    hide Slot, ClearDirent;
    var after := WithoutEntry(before, FirstSect(k), e);
    var slots := Slots(before, FirstSect(k), MAX_ENTRIES);
    forall x | 0 <= x < MAX_ENTRIES
      ensures Slot(after, FirstSect(k), x) == slots[e := EMPTY_SLOT][x]
    {
      WithoutEntrySlots(before, FirstSect(k), e, x);
    }
    SetSlots(before, after, k, slots[e := EMPTY_SLOT]);
  }

  /** Sectors behind the root directory hold file contents and do not show in the view. */
  lemma DataOutsideView(before: seq<Sector>, after: seq<Sector>, k: nat)
    requires BigEnough(before, k) && SameOutside(before, after, FirstSect(k) + 2048, |before|)
    ensures BigEnough(after, k) && ViewOf(after, k) == ViewOf(before, k)
  {
    hide BitAt, Record, Slot;
    MapFrame(before, after, IMAP, 1);
    MapFrame(before, after, SMAP, k);
    RecordFrame(before, after, Table(k));
    SlotFrame(before, after, FirstSect(k));
  }
}
