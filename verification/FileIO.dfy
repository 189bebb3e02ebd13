/** The sector loop of do_rw (fs/opera.c), against the disk seen as one array of bytes. */
module FileIO {
  import opened Bits
  import opened BlockDevice
  import opened SectorMap

  /** FSBUF_SIZE in sectors. */
  const BUFFER_SECTS := 2048

  function DiskByte(sectors: seq<Sector>, x: nat): bv8
    requires x < |sectors| * SECTOR_SIZE
  {
    sectors[x / SECTOR_SIZE][x % SECTOR_SIZE]
  }

  predicate ByteIs(sectors: seq<Sector>, x: nat, byte: bv8) {
    x < |sectors| * SECTOR_SIZE && DiskByte(sectors, x) == byte
  }

  /** The bytes of the disk from base on. */
  ghost predicate Holds(sectors: seq<Sector>, base: nat, bytes: seq<bv8>) {
    forall y :: 0 <= y < |bytes| ==> ByteIs(sectors, base + y, bytes[y])
  }

  /** The bytes were stored at base, and no other byte of the disk changed. */
  ghost predicate Stored(before: seq<Sector>, after: seq<Sector>, base: nat, bytes: seq<bv8>) {
    && |after| == |before|
    && forall x :: 0 <= x < |before| * SECTOR_SIZE ==>
         DiskByte(after, x) == if base <= x < base + |bytes| then bytes[x - base] else DiskByte(before, x)
  }

  /** Above the sector lo, the bytes were stored at base and nothing else changed. */
  ghost predicate StoredAbove(before: seq<Sector>, after: seq<Sector>, lo: nat, base: nat, bytes: seq<bv8>) {
    && |after| == |before|
    && forall x :: lo * SECTOR_SIZE <= x < |before| * SECTOR_SIZE ==>
         DiskByte(after, x) == if base <= x < base + |bytes| then bytes[x - base] else DiskByte(before, x)
  }

  lemma StoredEverywhere(before: seq<Sector>, after: seq<Sector>, lo: nat, base: nat, bytes: seq<bv8>)
    requires Stored(before, after, base, bytes)
    ensures StoredAbove(before, after, lo, base, bytes)
  {
    hide DiskByte;
  }

  /** Reading back what was written. */
  lemma WriteThenRead(before: seq<Sector>, after: seq<Sector>, lo: nat, base: nat, bytes: seq<bv8>, out: seq<bv8>)
    requires StoredAbove(before, after, lo, base, bytes) && lo * SECTOR_SIZE <= base
    requires Holds(after, base, out) && |out| == |bytes|
    ensures out == bytes
  {
    hide DiskByte;
    forall y | 0 <= y < |out|
      ensures out[y] == bytes[y]
    {
      assert ByteIs(after, base + y, out[y]);
    }
  }

  lemma OtherBytesStay(before: seq<Sector>, after: seq<Sector>, lo: nat, base: nat, bytes: seq<bv8>,
                       elsewhere: nat, contents: seq<bv8>)
    requires StoredAbove(before, after, lo, base, bytes) && lo * SECTOR_SIZE <= elsewhere
    requires Holds(before, elsewhere, contents)
    requires elsewhere + |contents| <= base || base + |bytes| <= elsewhere
    ensures Holds(after, elsewhere, contents)
  {
    hide DiskByte;
    forall y | 0 <= y < |contents|
      ensures ByteIs(after, elsewhere + y, contents[y])
    {
      assert ByteIs(before, elsewhere + y, contents[y]);
    }
  }

  // ---- how much is moved ---------------------------------------------------

  /** rw_sect_end - rw_sect_start + 1 */
  function Sects(pos: nat, end: nat): int {
    end / SECTOR_SIZE - pos / SECTOR_SIZE + 1
  }

  /** All the sectors that the loop reads: whole chunks, so possibly more than Sects. */
  function Span(n: int): nat {
    if n <= 0 then 0
    else if n <= BUFFER_SECTS then n
    else (n + 2047) / 2048 * 2048
  }

  /** What do_rw transfers of len bytes at pos when the limit is the file's size (READ) or its
      capacity (WRITE). */
  function Moved(pos: nat, len: nat, limit: nat): nat {
    var s := Span(Sects(pos, Min(pos + len, limit)));
    if s == 0 then 0 else Min(len, s * SECTOR_SIZE - pos % SECTOR_SIZE)
  }

  /** Within the limit, everything is transferred. */
  lemma MovesAll(pos: nat, len: nat, limit: nat)
    requires pos + len <= limit
    ensures Moved(pos, len, limit) == len
  {
    SpanCovers(Sects(pos, pos + len));
  }

  lemma SpanCovers(n: int)
    ensures n <= Span(n) && (n > 0 ==> Span(n) < n + 2048)
  {
  }

  /** The length that was meant is the part up to the limit.  The loop counts down from the whole
      length instead, which moves more, unless the limit lies in an earlier sector. */
  lemma MovesClippedExactly(pos: nat, len: nat, limit: nat)
    ensures Moved(pos, len, limit) == Max(0, Min(pos + len, limit) - pos) <==>
            len == 0 || pos + len <= limit || limit / SECTOR_SIZE < pos / SECTOR_SIZE
  {
    var end := Min(pos + len, limit);
    SpanCovers(Sects(pos, end));
  }

  /** A read that asks for more than the rest of the file makes the file longer. */
  lemma ReadGrowsExactly(pos: nat, len: nat, size: nat)
    requires pos <= size
    ensures pos + Moved(pos, len, size) > size <==> pos + len > size
  {
    SpanCovers(Sects(pos, Min(pos + len, size)));
  }

  // ---- the device, several sectors at a time -------------------------------

  method RdSects(dev: Device, i: nat, n: nat) returns (w: seq<bv8>)
    requires i + n <= |dev.sectors|
    ensures |w| == n * SECTOR_SIZE && Holds(dev.sectors, i * SECTOR_SIZE, w)
  {
    w := [];
    var j := 0;
    while j < n
      invariant 0 <= j <= n && |w| == j * SECTOR_SIZE && Holds(dev.sectors, i * SECTOR_SIZE, w)
    {
      w := w + dev.sectors[i + j];
      j := j + 1;
    }
  }

  lemma StoreSector(before: seq<Sector>, now: seq<Sector>, i: nat, j: nat, w: seq<bv8>)
    requires i + j < |before| && (j + 1) * SECTOR_SIZE <= |w|
    requires Stored(before, now, i * SECTOR_SIZE, w[..j * SECTOR_SIZE])
    ensures Stored(before, now[i + j := w[j * SECTOR_SIZE..(j + 1) * SECTOR_SIZE]], i * SECTOR_SIZE,
                   w[..(j + 1) * SECTOR_SIZE])
  {
    var buf: Sector := w[j * SECTOR_SIZE..(j + 1) * SECTOR_SIZE];
    var after := now[i + j := buf];
    forall x | 0 <= x < |before| * SECTOR_SIZE
      ensures DiskByte(after, x) == if i * SECTOR_SIZE <= x < (i + j + 1) * SECTOR_SIZE then w[x - i * SECTOR_SIZE]
                                    else DiskByte(before, x)
    {
      assert DiskByte(now, x) == if i * SECTOR_SIZE <= x < (i + j) * SECTOR_SIZE then w[x - i * SECTOR_SIZE]
                                 else DiskByte(before, x);
    }
  }

  method WrSects(dev: Device, i: nat, n: nat, w: seq<bv8>)
    requires i + n <= |dev.sectors| && |w| == n * SECTOR_SIZE
    modifies dev`sectors
    ensures Stored(old(dev.sectors), dev.sectors, i * SECTOR_SIZE, w)
    ensures SameOutside(old(dev.sectors), dev.sectors, i, |old(dev.sectors)|)
  {
    hide DiskByte;
    var j := 0;
    while j < n
      invariant 0 <= j <= n && Stored(old(dev.sectors), dev.sectors, i * SECTOR_SIZE, w[..j * SECTOR_SIZE])
      invariant SameOutside(old(dev.sectors), dev.sectors, i, |old(dev.sectors)|)
    {
      StoreSector(old(dev.sectors), dev.sectors, i, j, w);
      dev.sectors := dev.sectors[i + j := w[j * SECTOR_SIZE..(j + 1) * SECTOR_SIZE]];
      j := j + 1;
    }
    assert w[..n * SECTOR_SIZE] == w;
  }

  // ---- the loop ------------------------------------------------------------

  /** The loop has covered j sectors of the window of n. */
  predicate AtChunk(n: int, j: nat) {
    if n <= BUFFER_SECTS then j == 0 || j == n else j % 2048 == 0 && j <= Span(n)
  }

  lemma ChunkStep(n: int, j: nat)
    requires n > 0 && AtChunk(n, j)
    ensures j < n ==> j + Min(n, BUFFER_SECTS) <= Span(n) && AtChunk(n, j + Min(n, BUFFER_SECTS))
    ensures j >= n ==> j == Span(n)
  {
  }

  /** bytes_rw after j sectors. */
  function MovedBy(j: nat, off: nat, len: nat): nat
    requires off < SECTOR_SIZE
  {
    if j == 0 then 0 else Min(len, j * SECTOR_SIZE - off)
  }

  /** Writing a window back with some of its bytes replaced stores just those bytes. */
  lemma WriteBack(before: seq<Sector>, now: seq<Sector>, after: seq<Sector>, base: nat, done: seq<bv8>,
                  at: nat, off: nat, w: seq<bv8>, part: seq<bv8>)
    requires Stored(before, now, base, done) && Holds(now, at, w) && off + |part| <= |w|
    requires |part| > 0 ==> base + |done| == at + off
    requires Stored(now, after, at, w[..off] + part + w[off + |part|..])
    ensures Stored(before, after, base, done + part)
  {
    hide DiskByte;
    var w' := w[..off] + part + w[off + |part|..];
    forall x | 0 <= x < |before| * SECTOR_SIZE
      ensures DiskByte(after, x) == if base <= x < base + |done + part| then (done + part)[x - base]
                                    else DiskByte(before, x)
    {
      if at <= x < at + |w| {
        assert w[x - at] == DiskByte(now, at + (x - at));
        assert DiskByte(after, x) == w'[x - at];
      }
    }
  }

  /** One round of the loop, for a write. */
  method WriteChunk(dev: Device, ghost before: seq<Sector>, ghost base: nat, i: nat, chunk: nat, off: nat, bytes: nat,
                    data: seq<bv8>, moved: nat)
    requires i + chunk <= |dev.sectors| && off + bytes <= chunk * SECTOR_SIZE && moved + bytes <= |data|
    requires Stored(before, dev.sectors, base, data[..moved])
    requires bytes > 0 ==> base + moved == i * SECTOR_SIZE + off
    modifies dev`sectors
    ensures Stored(before, dev.sectors, base, data[..moved + bytes])
    ensures SameOutside(old(dev.sectors), dev.sectors, i, |old(dev.sectors)|)
  {
    hide DiskByte, Stored, Holds;
    var w := RdSects(dev, i, chunk);
    ghost var now, part := dev.sectors, data[moved..moved + bytes];
    WrSects(dev, i, chunk, w[..off] + data[moved..moved + bytes] + w[off + bytes..]);
    WriteBack(before, now, dev.sectors, base, data[..moved], i * SECTOR_SIZE, off, w, part);
    assert data[..moved] + part == data[..moved + bytes];
  }

  /** Bytes off, off + 1, ... of a window continue what was read so far. */
  lemma ReadOn(sectors: seq<Sector>, base: nat, out: seq<bv8>, at: nat, w: seq<bv8>, off: nat, bytes: nat)
    requires Holds(sectors, base, out) && Holds(sectors, at, w) && off + bytes <= |w|
    requires bytes > 0 ==> base + |out| == at + off
    ensures Holds(sectors, base, out + w[off..off + bytes])
  {
    hide DiskByte;
    var out' := out + w[off..off + bytes];
    forall y | 0 <= y < |out'|
      ensures ByteIs(sectors, base + y, out'[y])
    {
      if y < |out| {
        assert out'[y] == out[y];
      } else {
        var z := off + (y - |out|);
        assert out'[y] == w[z];
        assert at + z == base + y;
      }
    }
  }

  /** One round of the loop, for a read. */
  method ReadChunk(dev: Device, ghost base: nat, i: nat, chunk: nat, off: nat, bytes: nat, out: seq<bv8>)
    returns (out': seq<bv8>)
    requires i + chunk <= |dev.sectors| && off + bytes <= chunk * SECTOR_SIZE
    requires Holds(dev.sectors, base, out)
    requires bytes > 0 ==> base + |out| == i * SECTOR_SIZE + off
    ensures |out'| == |out| + bytes && Holds(dev.sectors, base, out')
  {
    hide DiskByte;
    var w := RdSects(dev, i, chunk);
    out' := out + w[off..off + bytes];
    ReadOn(dev.sectors, base, out, i * SECTOR_SIZE, w, off, bytes);
  }

  /** The loop of do_rw over the file that starts at sector `start`, for every position, length
      and limit for which its windows are on the disk.  A read returns the file's bytes; a write
      stores its data and leaves every other byte as it was, also where the windows reach into
      the next file.  Reading leaves the disk alone. */
  method Transfer(dev: Device, read: bool, start: nat, pos: nat, len: nat, limit: nat, data: seq<bv8>)
    returns (moved: nat, out: seq<bv8>)
    requires !read ==> |data| == len
    requires start + pos / SECTOR_SIZE + Span(Sects(pos, Min(pos + len, limit))) <= |dev.sectors|
    modifies dev`sectors
    ensures moved == Moved(pos, len, limit) <= len
    ensures read ==> dev.sectors == old(dev.sectors)
    ensures read ==> |out| == moved && Holds(dev.sectors, start * SECTOR_SIZE + pos, out)
    ensures !read ==> Stored(old(dev.sectors), dev.sectors, start * SECTOR_SIZE + pos, data[..moved])
    ensures SameOutside(old(dev.sectors), dev.sectors, start + pos / SECTOR_SIZE, |old(dev.sectors)|)
  {
    hide Stored, Holds, DiskByte, Span, AtChunk, Moved;
    ghost var before, base := dev.sectors, start * SECTOR_SIZE + pos;
    NothingMoved(before, base);
    var end := Min(pos + len, limit);
    var n := Sects(pos, end);
    var off0 := pos % SECTOR_SIZE;
    var first := start + pos / SECTOR_SIZE;
    var chunk := Min(n, BUFFER_SECTS);
    var i, off, left := first, off0, len;
    moved, out := 0, [];
    FirstChunk(n);
    while i < first + n
      invariant first <= i && (n > 0 ==> AtChunk(n, i - first)) && (n <= 0 ==> i == first)
      invariant off == (if i == first then off0 else 0) && left == len - moved
      invariant moved == MovedBy(i - first, off0, len)
      invariant read ==> dev.sectors == before && |out| == moved && Holds(before, base, out)
      invariant !read ==> Stored(before, dev.sectors, base, data[..moved])
      invariant SameOutside(before, dev.sectors, first, |before|)
      decreases first + n - i
    {
      ChunkStep(n, i - first);
      var bytes := Min(left, chunk * SECTOR_SIZE - off);
      if read {
        out := ReadChunk(dev, base, i, chunk, off, bytes, out);
      } else {
        WriteChunk(dev, before, base, i, chunk, off, bytes, data, moved);
      }
      off := 0;
      moved := moved + bytes;
      left := left - bytes;
      i := i + chunk;
    }
    AllMoved(pos, len, limit, i - first);
  }

  lemma NothingMoved(sectors: seq<Sector>, base: nat)
    ensures Holds(sectors, base, []) && Stored(sectors, sectors, base, [])
  {
  }

  lemma FirstChunk(n: int)
    ensures n > 0 ==> AtChunk(n, 0)
  {
  }

  lemma AllMoved(pos: nat, len: nat, limit: nat, j: nat)
    requires var n := Sects(pos, Min(pos + len, limit)); j >= n && if n > 0 then AtChunk(n, j) else j == 0
    ensures MovedBy(j, pos % SECTOR_SIZE, len) == Moved(pos, len, limit)
  {
    hide AtChunk;
    var n := Sects(pos, Min(pos + len, limit));
    if n > 0 {
      ChunkStep(n, j);
    }
  }
}
