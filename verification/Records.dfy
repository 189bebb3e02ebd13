/** The structures that the file system keeps in sectors: 32-byte inode records and 16-byte
    directory entries (include/fs.h), as little-endian bytes. */
module Records {
  import opened Bits

  const INODE_SIZE := 32
  const INODES_PER_SECT := 16
  const DIR_ENTRY_SIZE := 16
  const ENTRIES_PER_SECT := 32
  const MAX_FILENAME_LEN := 12

  type U32 = x: int | 0 <= x < 0x1_0000_0000

  type Name = s: seq<bv8> | |s| == MAX_FILENAME_LEN witness seq(MAX_FILENAME_LEN, _ => 0)

  /** The four fields of struct inode that are stored on disk. */
  datatype DiskInode = DiskInode(mode: U32, size: U32, start: U32, nrSects: U32)

  datatype Dirent = Dirent(inodeNr: U32, name: Name)

  const NO_NAME: Name := [0, 0, 0, 0, 0, 0, 0, 0, 0, 0, 0, 0]
  const EMPTY_SLOT := Dirent(0, NO_NAME)

  // ---- 32-bit words --------------------------------------------------------

  /** Bit k of a byte as a digit. */
  function Digit(b: bv8, k: nat): (d: nat)
    requires k < 8
    ensures d <= 1
  {
    if Bit(b, k) then 1 else 0
  }

  /** The number that a byte stands for, by its bits. */
  function Value(b: bv8): (v: int)
    ensures 0 <= v < 0x100
  {
    Digit(b, 0) + 2 * Digit(b, 1) + 4 * Digit(b, 2) + 8 * Digit(b, 3) +
    16 * Digit(b, 4) + 32 * Digit(b, 5) + 64 * Digit(b, 6) + 128 * Digit(b, 7)
  }

  function Low(n: nat): nat {
    n % 2
  }

  function Half(n: nat): (h: nat)
    ensures n == 2 * h + Low(n)
  {
    n / 2
  }

  /** The low eight bits of a number as a byte. */
  function ByteOf(n: nat): bv8 {
    var n1 := Half(n);
    var n2 := Half(n1);
    var n3 := Half(n2);
    var n4 := Half(n3);
    var n5 := Half(n4);
    var n6 := Half(n5);
    FromDigits(Low(n), Low(n1), Low(n2), Low(n3), Low(n4), Low(n5), Low(n6), Low(Half(n6)))
  }

  function FromDigits(d0: nat, d1: nat, d2: nat, d3: nat, d4: nat, d5: nat, d6: nat, d7: nat): bv8 {
    (if d0 == 1 then 1 else 0) | (if d1 == 1 then 2 else 0) | (if d2 == 1 then 4 else 0) |
    (if d3 == 1 then 8 else 0) | (if d4 == 1 then 16 else 0) | (if d5 == 1 then 32 else 0) |
    (if d6 == 1 then 64 else 0) | (if d7 == 1 then 128 else 0)
  }

  lemma ZeroByte()
    ensures Value(0) == 0
  {
  }

  function Word(b0: bv8, b1: bv8, b2: bv8, b3: bv8): (v: U32) {
    Value(b0) + 0x100 * Value(b1) + 0x1_0000 * Value(b2) + 0x100_0000 * Value(b3)
  }

  function WordAt(buf: seq<bv8>, off: nat): U32
    requires off + 4 <= |buf|
  {
    Word(buf[off], buf[off + 1], buf[off + 2], buf[off + 3])
  }

  function Bytes(v: U32): (b: seq<bv8>)
    ensures |b| == 4
  {
    [ByteOf(v % 0x100), ByteOf(v / 0x100 % 0x100), ByteOf(v / 0x1_0000 % 0x100), ByteOf(v / 0x100_0000 % 0x100)]
  }

  lemma DigitsBack(d0: nat, d1: nat, d2: nat, d3: nat, d4: nat, d5: nat, d6: nat, d7: nat)
    requires d0 <= 1 && d1 <= 1 && d2 <= 1 && d3 <= 1 && d4 <= 1 && d5 <= 1 && d6 <= 1 && d7 <= 1
    ensures var b := FromDigits(d0, d1, d2, d3, d4, d5, d6, d7);
            Digit(b, 0) == d0 && Digit(b, 1) == d1 && Digit(b, 2) == d2 && Digit(b, 3) == d3 &&
            Digit(b, 4) == d4 && Digit(b, 5) == d5 && Digit(b, 6) == d6 && Digit(b, 7) == d7
  {
  }

  /** Eight halvings take a number below 256 apart. */
  lemma BinaryExpansion(n: nat, n1: nat, n2: nat, n3: nat, n4: nat, n5: nat, n6: nat, n7: nat)
    requires n < 0x100 && n1 == Half(n) && n2 == Half(n1) && n3 == Half(n2) && n4 == Half(n3)
    requires n5 == Half(n4) && n6 == Half(n5) && n7 == Half(n6)
    ensures n == Low(n) + 2 * Low(n1) + 4 * Low(n2) + 8 * Low(n3) +
                 16 * Low(n4) + 32 * Low(n5) + 64 * Low(n6) + 128 * Low(n7)
  {
    hide Low, Half;
    assert n1 < 128 && n2 < 64 && n3 < 32;
    assert n4 < 16 && n5 < 8 && n6 < 4;
    assert n7 < 2;
    assert Half(n7) == 0;
    assert n7 == Low(n7);
    assert n6 == Low(n6) + 2 * Low(n7);
    assert n5 == Low(n5) + 2 * Low(n6) + 4 * Low(n7);
  }

  lemma ByteOfInt(n: nat)
    requires n < 0x100
    ensures Value(ByteOf(n)) == n
  {
    hide FromDigits, Digit;
    var n1 := Half(n);
    var n2 := Half(n1);
    var n3 := Half(n2);
    var n4 := Half(n3);
    var n5 := Half(n4);
    var n6 := Half(n5);
    var n7 := Half(n6);
    DigitsBack(Low(n), Low(n1), Low(n2), Low(n3), Low(n4), Low(n5), Low(n6), Low(n7));
    hide *;
    BinaryExpansion(n, n1, n2, n3, n4, n5, n6, n7);
    ValueByDigits(n, ByteOf(n), Low(n), Low(n1), Low(n2), Low(n3), Low(n4), Low(n5), Low(n6), Low(n7));
  }

  lemma ValueByDigits(n: nat, b: bv8, d0: nat, d1: nat, d2: nat, d3: nat, d4: nat, d5: nat, d6: nat, d7: nat)
    requires Digit(b, 0) == d0 && Digit(b, 1) == d1 && Digit(b, 2) == d2 && Digit(b, 3) == d3
    requires Digit(b, 4) == d4 && Digit(b, 5) == d5 && Digit(b, 6) == d6 && Digit(b, 7) == d7
    requires n == d0 + 2 * d1 + 4 * d2 + 8 * d3 + 16 * d4 + 32 * d5 + 64 * d6 + 128 * d7
    ensures Value(b) == n
  {
    hide Digit;
  }

  lemma Digits(v: U32)
    ensures v == v % 0x100 + 0x100 * (v / 0x100 % 0x100) + 0x1_0000 * (v / 0x1_0000 % 0x100)
                 + 0x100_0000 * (v / 0x100_0000 % 0x100)
  {
  }

  lemma WordOfBytes(v: U32)
    ensures WordAt(Bytes(v), 0) == v
  {
    hide Value, ByteOf;
    Digits(v);
    ByteOfInt(v % 0x100);
    ByteOfInt(v / 0x100 % 0x100);
    ByteOfInt(v / 0x1_0000 % 0x100);
    ByteOfInt(v / 0x100_0000 % 0x100);
  }

  /** buf with the bytes data stored from off on. */
  function Overwrite(buf: seq<bv8>, off: nat, data: seq<bv8>): (r: seq<bv8>)
    requires off + |data| <= |buf|
    ensures |r| == |buf|
    ensures forall i :: 0 <= i < |buf| ==> r[i] == if off <= i < off + |data| then data[i - off] else buf[i]
  {
    buf[..off] + data + buf[off + |data|..]
  }

  lemma WordSame(a: seq<bv8>, b: seq<bv8>, off: nat, at: nat)
    requires off + 4 <= |a| && at + 4 <= |b| && a[off..off + 4] == b[at..at + 4]
    ensures WordAt(a, off) == WordAt(b, at)
  {
    assert a[off..off + 4][0] == b[at..at + 4][0];
    assert a[off..off + 4][1] == b[at..at + 4][1];
    assert a[off..off + 4][2] == b[at..at + 4][2];
    assert a[off..off + 4][3] == b[at..at + 4][3];
  }

  // ---- inode records -------------------------------------------------------

  function InodeAt(buf: Sector, k: nat): DiskInode
    requires k < INODES_PER_SECT
  {
    var o := k * INODE_SIZE;
    DiskInode(WordAt(buf, o), WordAt(buf, o + 4), WordAt(buf, o + 8), WordAt(buf, o + 12))
  }

  function InodeBytes(d: DiskInode): (b: seq<bv8>)
    ensures |b| == 16
  {
    Bytes(d.mode) + Bytes(d.size) + Bytes(d.start) + Bytes(d.nrSects)
  }

  /** sync_inode's four assignments into the sector buffer. */
  function PutInode(buf: Sector, k: nat, d: DiskInode): (r: Sector)
    requires k < INODES_PER_SECT
  {
    Overwrite(buf, k * INODE_SIZE, InodeBytes(d))
  }

  lemma SliceWord(buf: seq<bv8>, o: nat, b: seq<bv8>, i: nat, v: U32)
    requires o + |b| <= |buf| && buf[o..o + |b|] == b && i + 4 <= |b| && b[i..i + 4] == Bytes(v)
    ensures WordAt(buf, o + i) == v
  {
    forall j | 0 <= j < 4
      ensures buf[o + i + j] == Bytes(v)[j]
    {
      assert buf[o..o + |b|][i + j] == b[i + j] == b[i..i + 4][j];
    }
    assert buf[o + i..o + i + 4] == Bytes(v)[0..4];
    WordSame(buf, Bytes(v), o + i, 0);
    WordOfBytes(v);
  }

  lemma FourWords(buf: seq<bv8>, o: nat, d: DiskInode)
    requires o + 16 <= |buf| && buf[o..o + 16] == InodeBytes(d)
    ensures WordAt(buf, o) == d.mode && WordAt(buf, o + 4) == d.size
    ensures WordAt(buf, o + 8) == d.start && WordAt(buf, o + 12) == d.nrSects
  {
    hide Word, Bytes;
    var b := InodeBytes(d);
    assert b[0..4] == Bytes(d.mode);
    assert b[4..8] == Bytes(d.size);
    assert b[8..12] == Bytes(d.start);
    assert b[12..16] == Bytes(d.nrSects);
    SliceWord(buf, o, b, 0, d.mode);
    SliceWord(buf, o, b, 4, d.size);
    SliceWord(buf, o, b, 8, d.start);
    SliceWord(buf, o, b, 12, d.nrSects);
  }

  /** A record that was written is read back, and the other records of the sector stay. */
  lemma InodeRoundTrip(buf: Sector, k: nat, d: DiskInode, j: nat)
    requires k < INODES_PER_SECT && j < INODES_PER_SECT
    ensures InodeAt(PutInode(buf, k, d), j) == if j == k then d else InodeAt(buf, j)
  {
    hide Word, InodeBytes;
    var r := PutInode(buf, k, d);
    if j == k {
      assert r[k * INODE_SIZE..k * INODE_SIZE + 16] == InodeBytes(d);
      FourWords(r, k * INODE_SIZE, d);
    }
  }

  // ---- directory entries ---------------------------------------------------

  function DirentAt(buf: Sector, j: nat): Dirent
    requires j < ENTRIES_PER_SECT
  {
    var o := j * DIR_ENTRY_SIZE;
    Dirent(WordAt(buf, o), buf[o + 4..o + 16])
  }

  /** memset(pde, 0, DIR_ENTRY_SIZE) */
  function ClearDirent(buf: Sector, j: nat): (r: Sector)
    requires j < ENTRIES_PER_SECT
  {
    Overwrite(buf, j * DIR_ENTRY_SIZE, seq(DIR_ENTRY_SIZE, _ => 0))
  }

  lemma ClearedDirent(buf: Sector, j: nat, k: nat)
    requires j < ENTRIES_PER_SECT && k < ENTRIES_PER_SECT
    ensures DirentAt(ClearDirent(buf, j), k) == if k == j then EMPTY_SLOT else DirentAt(buf, k)
  {
  }

  /** inode_nr = nr; strcpy(name, filename): the name is stored with its terminating zero, the
      bytes after it stay, and the zero of a 12-byte name lands in the next entry. */
  function PutDirent(buf: Sector, j: nat, nr: U32, filename: seq<bv8>): (r: Sector)
    requires j < ENTRIES_PER_SECT && |filename| <= MAX_FILENAME_LEN
    ensures var o := j * DIR_ENTRY_SIZE;
            forall i :: 0 <= i < SECTOR_SIZE ==>
              r[i] == if o <= i < o + 4 then Bytes(nr)[i - o]
                      else if o + 4 <= i < o + 4 + |filename| then filename[i - o - 4]
                      else if i == o + 4 + |filename| then 0
                      else buf[i]
  {
    var o := j * DIR_ENTRY_SIZE;
    var r := Overwrite(Overwrite(buf, o, Bytes(nr)), o + 4, filename);
    if o + 4 + |filename| < SECTOR_SIZE then r[o + 4 + |filename| := 0] else r
  }

  /** The name field after strcpy over an old one. */
  function Copied(filename: seq<bv8>, old_: Name): (r: Name)
    requires |filename| <= MAX_FILENAME_LEN
    ensures forall i :: 0 <= i < MAX_FILENAME_LEN ==>
      r[i] == if i < |filename| then filename[i] else if i == |filename| then 0 else old_[i]
  {
    if |filename| == MAX_FILENAME_LEN then filename else filename + [0] + old_[|filename| + 1..]
  }

  lemma PutDirentSelf(buf: Sector, j: nat, nr: U32, filename: seq<bv8>)
    requires j < ENTRIES_PER_SECT && |filename| <= MAX_FILENAME_LEN
    ensures DirentAt(PutDirent(buf, j, nr, filename), j) == Dirent(nr, Copied(filename, DirentAt(buf, j).name))
  {
    hide Word, Bytes, PutDirent, Copied;
    var o := j * DIR_ENTRY_SIZE;
    var r := PutDirent(buf, j, nr, filename);
    PutDirentBytes(buf, j, nr, filename);
    assert r[o..o + 4] == Bytes(nr)[0..4];
    WordSame(r, Bytes(nr), o, 0);
    WordOfBytes(nr);
  }

  lemma PutDirentBytes(buf: Sector, j: nat, nr: U32, filename: seq<bv8>)
    requires j < ENTRIES_PER_SECT && |filename| <= MAX_FILENAME_LEN
    ensures var o := j * DIR_ENTRY_SIZE; var r := PutDirent(buf, j, nr, filename);
            r[o..o + 4] == Bytes(nr) && r[o + 4..o + 16] == Copied(filename, buf[o + 4..o + 16])
  {
    hide Bytes, PutDirent, Copied;
  }

  /** An entry whose inode number lost its low byte. */
  function Damaged(d: Dirent): Dirent {
    d.(inodeNr := d.inodeNr - d.inodeNr % 0x100)
  }

  /** The entries of the sector other than j: the one after j loses the low byte of its inode
      number when the name fills the field, the rest stay. */
  lemma PutDirentOther(buf: Sector, j: nat, nr: U32, filename: seq<bv8>, k: nat)
    requires j < ENTRIES_PER_SECT && k < ENTRIES_PER_SECT && k != j && |filename| <= MAX_FILENAME_LEN
    ensures DirentAt(PutDirent(buf, j, nr, filename), k) ==
            if k == j + 1 && |filename| == MAX_FILENAME_LEN then Damaged(DirentAt(buf, k)) else DirentAt(buf, k)
  {
    hide Word, Bytes;
    var o := k * DIR_ENTRY_SIZE;
    var r := PutDirent(buf, j, nr, filename);
    assert r[o + 4..o + 16] == buf[o + 4..o + 16];
    if k == j + 1 && |filename| == MAX_FILENAME_LEN {
      assert r[o] == 0 && r[o + 1] == buf[o + 1] && r[o + 2] == buf[o + 2] && r[o + 3] == buf[o + 3];
      LowByte(buf[o], buf[o + 1], buf[o + 2], buf[o + 3]);
    } else {
      assert r[o..o + 4] == buf[o..o + 4];
      WordSame(r, buf, o, o);
    }
  }

  lemma LowByte(b0: bv8, b1: bv8, b2: bv8, b3: bv8)
    ensures Word(0, b1, b2, b3) == Word(b0, b1, b2, b3) - Word(b0, b1, b2, b3) % 0x100
  {
    hide Value;
    ZeroByte();
  }
}
