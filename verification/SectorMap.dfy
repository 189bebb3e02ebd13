/** The disk as an array of sectors, and the allocation maps of fs/opera.c on it. */
module BlockDevice {
  import opened Bits

  /** rw_sector on the root device, with the shared sector buffer fsbuf. */
  class Device {
    var sectors: seq<Sector>
    var fsbuf: Sector

    constructor (contents: seq<Sector>)
      ensures sectors == contents
    {
      sectors := contents;
      fsbuf := seq(SECTOR_SIZE, _ => 0);
    }

    method RdSect(n: nat)
      requires n < |sectors|
      modifies this`fsbuf
      ensures fsbuf == sectors[n]
    {
      fsbuf := sectors[n];
    }

    method WrSect(n: nat)
      requires n < |sectors|
      modifies this`sectors
      ensures sectors == old(sectors)[n := fsbuf]
    {
      sectors := sectors[n := fsbuf];
    }
  }
}

module SectorMap {
  import opened Bits
  import opened BlockDevice

  /** The map occupies n sectors from lo on. */
  ghost predicate InDisk(sectors: seq<Sector>, lo: nat, n: nat) {
    lo + n <= |sectors|
  }

  ghost predicate MapClear(sectors: seq<Sector>, lo: nat, n: nat, a: int, b: int)
    requires InDisk(sectors, lo, n)
  {
    forall x :: 0 <= a <= x < b <= n * BITS_PER_SECT ==> !BitAt(sectors, lo, x)
  }

  ghost predicate MapSet(sectors: seq<Sector>, lo: nat, n: nat, a: int, b: int)
    requires InDisk(sectors, lo, n)
  {
    forall x :: 0 <= a <= x < b <= n * BITS_PER_SECT ==> BitAt(sectors, lo, x)
  }

  ghost predicate SameOutside(before: seq<Sector>, after: seq<Sector>, lo: nat, hi: nat) {
    && |before| == |after|
    && forall s :: 0 <= s < |before| && !(lo <= s < hi) ==> after[s] == before[s]
  }

  ghost predicate MapSets(before: seq<Sector>, after: seq<Sector>, lo: nat, n: nat, a: int, b: int) {
    && InDisk(before, lo, n) && SameOutside(before, after, lo, lo + n)
    && forall x :: 0 <= x < n * BITS_PER_SECT ==>
         (BitAt(after, lo, x) <==> BitAt(before, lo, x) || a <= x < b)
  }

  ghost predicate MapClears(before: seq<Sector>, after: seq<Sector>, lo: nat, n: nat, a: int, b: int) {
    && InDisk(before, lo, n) && SameOutside(before, after, lo, lo + n)
    && forall x :: 0 <= x < n * BITS_PER_SECT ==>
         (BitAt(after, lo, x) <==> BitAt(before, lo, x) && !(a <= x < b))
  }

  /** b is the first clear bit of the map, or the number of its bits. */
  ghost predicate LeastClear(sectors: seq<Sector>, lo: nat, n: nat, b: int)
    requires InDisk(sectors, lo, n)
  {
    && 0 <= b <= n * BITS_PER_SECT
    && MapSet(sectors, lo, n, 0, b)
    && (b < n * BITS_PER_SECT ==> !BitAt(sectors, lo, b))
  }

  lemma ExtendMapSet(before: seq<Sector>, now: seq<Sector>, lo: nat, n: nat, i: nat, a: int, hi: int, c: int, r: Sector)
    requires i < n && MapSets(before, now, lo, n, a, hi)
    requires 0 <= a <= hi && i * BITS_PER_SECT <= hi && 0 <= c && hi + c <= (i + 1) * BITS_PER_SECT
    requires SetsRange(now[lo + i], r, hi - i * BITS_PER_SECT, hi - i * BITS_PER_SECT + c)
    ensures MapSets(before, now[lo + i := r], lo, n, a, hi + c)
  {
    var after := now[lo + i := r];
    forall x | 0 <= x < n * BITS_PER_SECT
      ensures BitAt(after, lo, x) <==> BitAt(before, lo, x) || a <= x < hi + c
    {
      assert BitAt(now, lo, x) <==> BitAt(before, lo, x) || a <= x < hi;
      if x / BITS_PER_SECT == i {
        var y := x % BITS_PER_SECT;
        assert BitOf(r, y) <==> BitOf(now[lo + i], y) || hi - i * BITS_PER_SECT <= y < hi - i * BITS_PER_SECT + c;
      }
    }
  }

  lemma BitInSector(sectors: seq<Sector>, lo: nat, i: nat, buf: Sector, y: nat)
    requires lo + i < |sectors| && buf == sectors[lo + i] && y < BITS_PER_SECT
    ensures BitAt(sectors, lo, i * BITS_PER_SECT + y) == BitOf(buf, y)
  {
  }

  /** A range inside sector i of the map, seen from the sector and from the map. */
  lemma SectorClear(sectors: seq<Sector>, lo: nat, n: nat, i: nat, buf: Sector, a: int, b: int)
    requires InDisk(sectors, lo, n) && i < n && 0 <= a <= b <= BITS_PER_SECT && buf == sectors[lo + i]
    ensures AllClear(buf, a, b) <==> MapClear(sectors, lo, n, i * BITS_PER_SECT + a, i * BITS_PER_SECT + b)
  {
    if MapClear(sectors, lo, n, i * BITS_PER_SECT + a, i * BITS_PER_SECT + b) {
      forall y | a <= y < b
        ensures !BitOf(buf, y)
      {
        BitInSector(sectors, lo, i, buf, y);
      }
    }
  }

  lemma SectorSet(sectors: seq<Sector>, lo: nat, n: nat, i: nat, buf: Sector, a: int, b: int)
    requires InDisk(sectors, lo, n) && i < n && 0 <= a <= b <= BITS_PER_SECT && buf == sectors[lo + i]
    ensures AllSet(buf, a, b) <==> MapSet(sectors, lo, n, i * BITS_PER_SECT + a, i * BITS_PER_SECT + b)
  {
    if MapSet(sectors, lo, n, i * BITS_PER_SECT + a, i * BITS_PER_SECT + b) {
      forall y | a <= y < b
        ensures BitOf(buf, y)
      {
        BitInSector(sectors, lo, i, buf, y);
      }
    }
  }

  lemma MapSetJoin(sectors: seq<Sector>, lo: nat, n: nat, a: int, b: int, c: int)
    requires InDisk(sectors, lo, n) && 0 <= a <= b <= c <= n * BITS_PER_SECT
    ensures MapSet(sectors, lo, n, a, b) && MapSet(sectors, lo, n, b, c) <==> MapSet(sectors, lo, n, a, c)
    ensures MapClear(sectors, lo, n, a, b) && MapClear(sectors, lo, n, b, c) <==> MapClear(sectors, lo, n, a, c)
  {
    assert MapSet(sectors, lo, n, a, b) && MapSet(sectors, lo, n, b, c) ==> MapSet(sectors, lo, n, a, c) by {
      forall x | 0 <= a <= x < c && MapSet(sectors, lo, n, a, b) && MapSet(sectors, lo, n, b, c)
        ensures BitAt(sectors, lo, x)
      {
        if x < b {} else {}
      }
    }
  }

  lemma ExtendLeastClear(sectors: seq<Sector>, lo: nat, n: nat, i: nat, buf: Sector, b: nat)
    requires InDisk(sectors, lo, n) && i < n && buf == sectors[lo + i]
    requires MapSet(sectors, lo, n, 0, i * BITS_PER_SECT) && IsFirstClear(buf, b)
    ensures MapSet(sectors, lo, n, 0, i * BITS_PER_SECT + b)
    ensures b < BITS_PER_SECT ==> LeastClear(sectors, lo, n, i * BITS_PER_SECT + b)
  {
    assert AllSet(buf, 0, b);
    SectorSet(sectors, lo, n, i, buf, 0, b);
    MapSetJoin(sectors, lo, n, 0, i * BITS_PER_SECT, i * BITS_PER_SECT + b);
    if b < BITS_PER_SECT {
      BitInSector(sectors, lo, i, buf, b);
    }
  }

  lemma UntouchedSector(before: seq<Sector>, now: seq<Sector>, lo: nat, n: nat, i: nat, was: Sector, buf: Sector,
                        a: int)
    requires i < n && MapSets(before, now, lo, n, a, i * BITS_PER_SECT) && was == before[lo + i] && buf == now[lo + i]
    ensures forall y :: 0 <= y < BITS_PER_SECT ==> BitOf(buf, y) == BitOf(was, y)
  {
    forall y | 0 <= y < BITS_PER_SECT
      ensures BitOf(buf, y) == BitOf(was, y)
    {
      BitInSector(before, lo, i, was, y);
      BitInSector(now, lo, i, buf, y);
    }
  }

  /** State of alloc_smap_bit before sector i: the map so far was full, or [b, ...) is being taken. */
  ghost predicate Allocating(before: seq<Sector>, now: seq<Sector>, lo: nat, n: nat, n1: nat, i: nat,
                             want0: nat, want: nat, start: nat, b: nat) {
    && InDisk(before, lo, n) && i <= n && 0 < want <= want0
    && b <= i * BITS_PER_SECT
    && (if start == 0 then
          b == i * BITS_PER_SECT && want == want0 && now == before && MapSet(before, lo, n, 0, b)
        else
          b < i * BITS_PER_SECT && start == b - 1 + n1 && LeastClear(before, lo, n, b) &&
          want == want0 - (i * BITS_PER_SECT - b))
    && MapSets(before, now, lo, n, b, i * BITS_PER_SECT)
    && MapClear(before, lo, n, b, i * BITS_PER_SECT)
  }

  /** What AllocInSector found in sector i, in terms of the whole map. */
  lemma SectorFound(before: seq<Sector>, now: seq<Sector>, lo: nat, n: nat, n1: nat, i: nat,
                    want0: nat, want: nat, start: nat, b: nat, buf: Sector, sb: nat)
    requires Allocating(before, now, lo, n, n1, i, want0, want, start, b) && i < n && buf == now[lo + i]
    requires if start > 0 then sb == 0 else IsFirstClear(buf, sb)
    requires sb <= BITS_PER_SECT
    ensures var b' := if start > 0 then b else i * BITS_PER_SECT + sb;
            var hi := i * BITS_PER_SECT + sb + Min(BITS_PER_SECT - sb, want);
            && (AllClear(buf, sb, sb + Min(BITS_PER_SECT - sb, want)) <==> MapClear(before, lo, n, b', hi))
            && (start > 0 || sb < BITS_PER_SECT ==> LeastClear(before, lo, n, b'))
            && MapSet(before, lo, n, 0, b')
            && hi <= b' + want0 && (hi < b' + want0 ==> hi == (i + 1) * BITS_PER_SECT)
  {
    var c := Min(BITS_PER_SECT - sb, want);
    var was := before[lo + i];
    UntouchedSector(before, now, lo, n, i, was, buf, b);
    SectorClear(before, lo, n, i, was, sb, sb + c);
    if start == 0 {
      ExtendLeastClear(before, lo, n, i, buf, sb);
    } else {
      MapSetJoin(before, lo, n, b, i * BITS_PER_SECT, i * BITS_PER_SECT + c);
    }
  }

  /** The run [b, b + want0) was free and has been taken. */
  ghost predicate Allocated(before: seq<Sector>, now: seq<Sector>, lo: nat, n: nat, n1: nat,
                            want0: nat, start: nat, b: nat) {
    && InDisk(before, lo, n) && b + want0 <= n * BITS_PER_SECT
    && LeastClear(before, lo, n, b) && MapClear(before, lo, n, b, b + want0)
    && start == b - 1 + n1 && MapSets(before, now, lo, n, b, b + want0)
  }

  ghost predicate CannotAllocate(before: seq<Sector>, lo: nat, n: nat, want0: nat, b: nat) {
    && InDisk(before, lo, n) && LeastClear(before, lo, n, b)
    && !(b + want0 <= n * BITS_PER_SECT && MapClear(before, lo, n, b, b + want0))
  }

  /** One sector of the walk. */
  method AllocStep(dev: Device, lo: nat, n: nat, n1: nat, i: nat, want: nat, start: nat,
                   ghost before: seq<Sector>, ghost want0: nat, ghost b: nat)
    returns (ok: bool, start': nat, want': nat, ghost b': nat)
    requires Allocating(before, dev.sectors, lo, n, n1, i, want0, want, start, b) && i < n && n1 > 1
    modifies dev
    ensures |dev.sectors| == |old(dev.sectors)|
    ensures !ok ==> CannotAllocate(before, lo, n, want0, b')
    ensures ok && want' == 0 ==> Allocated(before, dev.sectors, lo, n, n1, want0, start', b')
    ensures ok && want' > 0 ==> Allocating(before, dev.sectors, lo, n, n1, i + 1, want0, want', start', b')
  {
    dev.RdSect(lo + i);
    ghost var now, buf := dev.sectors, dev.fsbuf;
    var r;
    ghost var sb;
    ok, r, start', want', sb := AllocInSector(dev.fsbuf, i, n1, start, want);
    SectorFound(before, now, lo, n, n1, i, want0, want, start, b, buf, sb);
    b' := if start == 0 then i * BITS_PER_SECT + sb else b;
    if !ok {
      PartNotClear(before, lo, n, b', i * BITS_PER_SECT + sb + Min(BITS_PER_SECT - sb, want), b' + want0);
      return;
    }
    dev.fsbuf := r;
    if start' > 0 {
      dev.WrSect(lo + i);
      StepMapSet(before, now, lo, n, i, b', sb, want, buf, r);
    }
  }

  /** alloc_smap_bit: takes the run of want0 bits at the least clear bit of the map, and stops
      at a failed assert if one of them is set already or the map ends first. */
  method AllocSmapBit(dev: Device, lo: nat, n: nat, n1: nat, want0: nat)
    returns (ok: bool, start: nat, ghost b: nat)
    requires InDisk(dev.sectors, lo, n) && n1 > 1 && want0 > 0
    modifies dev
    ensures |dev.sectors| == |old(dev.sectors)|
    ensures LeastClear(old(dev.sectors), lo, n, b)
    ensures ok <==> b + want0 <= n * BITS_PER_SECT && MapClear(old(dev.sectors), lo, n, b, b + want0)
    ensures ok ==> start == b - 1 + n1 && MapSets(old(dev.sectors), dev.sectors, lo, n, b, b + want0)
  {
    start, b := 0, 0;
    var want := want0;
    var i := 0;
    while i < n
      invariant |dev.sectors| == |old(dev.sectors)|
      invariant Allocating(old(dev.sectors), dev.sectors, lo, n, n1, i, want0, want, start, b)
    {
      ok, start, want, b := AllocStep(dev, lo, n, n1, i, want, start, old(dev.sectors), want0, b);
      if !ok || want == 0 {
        return;
      }
      i := i + 1;
    }
    ok := false;
  }

  lemma PartNotClear(sectors: seq<Sector>, lo: nat, n: nat, a: int, b: int, c: int)
    requires InDisk(sectors, lo, n) && b <= c && !MapClear(sectors, lo, n, a, b)
    ensures c <= n * BITS_PER_SECT ==> !MapClear(sectors, lo, n, a, c)
  {
  }

  lemma StepMapSet(before: seq<Sector>, now: seq<Sector>, lo: nat, n: nat, i: nat, b: nat, sb: nat, want: nat,
                   buf: Sector, r: Sector)
    requires i < n && sb <= BITS_PER_SECT && b <= i * BITS_PER_SECT + sb
    requires MapSets(before, now, lo, n, b, i * BITS_PER_SECT + sb) && buf == now[lo + i]
    requires SetsRange(buf, r, sb, sb + Min(BITS_PER_SECT - sb, want))
    ensures MapSets(before, now[lo + i := r], lo, n, b, i * BITS_PER_SECT + sb + Min(BITS_PER_SECT - sb, want))
  {
    ExtendMapSet(before, now, lo, n, i, b, i * BITS_PER_SECT + sb, Min(BITS_PER_SECT - sb, want), r);
  }

  // ---- clearing a file's run (do_unlink) ----------------------------------

  /** The number of bits do_unlink clears for a run of cnt bits at s.  When the run starts at
      a byte boundary, the first byte is counted twice and one byte too many is cleared. */
  function ClearedLength(s: nat, cnt: nat): nat {
    if s % 8 == 0 && cnt >= 8 then 8 + 8 * (cnt / 8) else cnt
  }

  lemma ClearsExactlyWhen(s: nat, cnt: nat)
    ensures ClearedLength(s, cnt) == cnt <==> s % 8 != 0 || cnt < 8
  {
  }

  /** The walk has cleared [s, hi); sector sect is in fsbuf and not yet written back. */
  ghost predicate Clearing(before: seq<Sector>, sectors: seq<Sector>, fsbuf: Sector, lo: nat, n: nat,
                           sect: nat, s: nat, hi: nat) {
    && InDisk(before, lo, n) && lo + n < |before| == |sectors| && lo <= sect <= lo + n
    && s <= hi <= n * BITS_PER_SECT
    && MapClears(before, sectors[sect := fsbuf], lo, n, s, hi)
    && MapSet(before, lo, n, s, hi)
  }

  /** Position of bit k of byte i of sector sect in the map. */
  function Position(lo: nat, sect: nat, i: nat, k: nat): nat
    requires lo <= sect
  {
    (sect - lo) * BITS_PER_SECT + 8 * i + k
  }

  lemma BitOfByte(sectors: seq<Sector>, lo: nat, sect: nat, buf: Sector, i: nat, k: nat)
    requires lo <= sect < |sectors| && buf == sectors[sect] && i < SECTOR_SIZE && k < 8
    ensures BitAt(sectors, lo, Position(lo, sect, i, k)) == Bit(buf[i], k)
  {
    BitInSector(sectors, lo, sect - lo, buf, 8 * i + k);
    ByteBits(buf, i, k);
  }

  /** From the clearing position on, the buffer still has the original bits. */
  lemma BitAhead(before: seq<Sector>, sectors: seq<Sector>, fsbuf: Sector, lo: nat, n: nat, sect: nat, s: nat,
                 hi: nat, i: nat, j: nat)
    requires sect < lo + n && lo <= sect && i < SECTOR_SIZE && j < 8 && hi <= Position(lo, sect, i, j)
    requires Clearing(before, sectors, fsbuf, lo, n, sect, s, hi)
    ensures Bit(fsbuf[i], j) == BitAt(before, lo, Position(lo, sect, i, j))
  {
    var x := Position(lo, sect, i, j);
    BitOfByte(sectors[sect := fsbuf], lo, sect, fsbuf, i, j);
    assert BitAt(sectors[sect := fsbuf], lo, x) <==> BitAt(before, lo, x) && !(s <= x < hi);
  }

  lemma BitsAhead(before: seq<Sector>, sectors: seq<Sector>, fsbuf: Sector, lo: nat, n: nat, sect: nat, s: nat,
                  i: nat, k: nat, c: nat)
    requires sect < lo + n && lo <= sect && i < SECTOR_SIZE && k + c <= 8
    requires Clearing(before, sectors, fsbuf, lo, n, sect, s, Position(lo, sect, i, k))
    ensures (forall j: nat | k <= j < k + c :: Bit(fsbuf[i], j)) <==>
            MapSet(before, lo, n, Position(lo, sect, i, k), Position(lo, sect, i, k) + c)
  {
    var hi := Position(lo, sect, i, k);
    forall j: nat | k <= j < k + c
      ensures Bit(fsbuf[i], j) == BitAt(before, lo, hi - k + j)
    {
      BitAhead(before, sectors, fsbuf, lo, n, sect, s, hi, i, j);
    }
    BitsAsRange(before, lo, n, hi, k, c, fsbuf[i]);
  }

  lemma BitsAsRange(sectors: seq<Sector>, lo: nat, n: nat, hi: nat, k: nat, c: nat, byte: bv8)
    requires InDisk(sectors, lo, n) && k <= hi && k + c <= 8 && hi + c <= n * BITS_PER_SECT
    requires forall j: nat | k <= j < k + c :: Bit(byte, j) == BitAt(sectors, lo, hi - k + j)
    ensures (forall j: nat | k <= j < k + c :: Bit(byte, j)) <==> MapSet(sectors, lo, n, hi, hi + c)
  {
    if forall j: nat | k <= j < k + c :: Bit(byte, j) {
      forall x | hi <= x < hi + c
        ensures BitAt(sectors, lo, x)
      {
        assert Bit(byte, x - hi + k);
      }
    }
  }

  /** Replacing byte i of sector sect changes just the eight bits of that byte. */
  lemma ByteUpdate(sectors: seq<Sector>, lo: nat, sect: nat, buf: Sector, i: nat, byte: bv8, x: nat)
    requires lo <= sect < |sectors| && buf == sectors[sect] && i < SECTOR_SIZE
    requires lo + x / BITS_PER_SECT < |sectors|
    ensures var p := Position(lo, sect, i, 0);
            BitAt(sectors[sect := buf[i := byte]], lo, x) ==
            if p <= x < p + 8 then Bit(byte, x - p) else BitAt(sectors, lo, x)
  {
    var p := Position(lo, sect, i, 0);
    if p <= x < p + 8 {
      assert x / BITS_PER_SECT == sect - lo && x % BITS_PER_SECT == 8 * i + (x - p);
    } else if x / BITS_PER_SECT == sect - lo {
      assert x % BITS_PER_SECT / 8 != i;
    }
  }

  /** Writing a byte with bits k .. k+c cleared moves the clearing position by c. */
  lemma ByteCleared(before: seq<Sector>, sectors: seq<Sector>, fsbuf: Sector, lo: nat, n: nat, sect: nat, s: nat,
                    i: nat, k: nat, c: nat, byte: bv8)
    requires sect < lo + n && lo <= sect && i < SECTOR_SIZE && k + c <= 8
    requires Clearing(before, sectors, fsbuf, lo, n, sect, s, Position(lo, sect, i, k))
    requires MapSet(before, lo, n, Position(lo, sect, i, k), Position(lo, sect, i, k) + c)
    requires forall j: nat | j < 8 :: Bit(byte, j) <==> Bit(fsbuf[i], j) && !(k <= j < k + c)
    ensures Clearing(before, sectors, fsbuf[i := byte], lo, n, sect, s, Position(lo, sect, i, k) + c)
  {
    var cur := sectors[sect := fsbuf];
    var after := sectors[sect := fsbuf[i := byte]];
    assert after == cur[sect := fsbuf[i := byte]];
    var hi := Position(lo, sect, i, k);
    forall x | 0 <= x < n * BITS_PER_SECT
      ensures BitAt(after, lo, x) <==> BitAt(before, lo, x) && !(s <= x < hi + c)
    {
      BitCleared(before, cur, after, lo, n, sect, fsbuf, s, i, k, c, byte, x);
    }
    MapSetJoin(before, lo, n, s, hi, hi + c);
  }

  lemma BitCleared(before: seq<Sector>, cur: seq<Sector>, after: seq<Sector>, lo: nat, n: nat, sect: nat, fsbuf: Sector,
                   s: nat, i: nat, k: nat, c: nat, byte: bv8, x: nat)
    requires lo <= sect < lo + n && lo + n < |before| == |cur| && i < SECTOR_SIZE && k + c <= 8 && x < n * BITS_PER_SECT
    requires fsbuf == cur[sect] && after == cur[sect := fsbuf[i := byte]]
    requires s <= Position(lo, sect, i, k)
    requires BitAt(cur, lo, x) <==> BitAt(before, lo, x) && !(s <= x < Position(lo, sect, i, k))
    requires forall j: nat | j < 8 :: Bit(byte, j) <==> Bit(fsbuf[i], j) && !(k <= j < k + c)
    ensures BitAt(after, lo, x) <==> BitAt(before, lo, x) && !(s <= x < Position(lo, sect, i, k) + c)
  {
    ByteUpdate(cur, lo, sect, fsbuf, i, byte, x);
    var p := Position(lo, sect, i, 0);
    if p <= x < p + 8 {
      var j: nat := x - p;
      BitOfByte(cur, lo, sect, fsbuf, i, j);
      assert Bit(byte, j) <==> Bit(fsbuf[i], j) && !(k <= j < k + c);
    }
  }

  /** Clears bits k, k+1, ... of byte i of the buffer, up to want of them. */
  method ClearByte(dev: Device, ghost before: seq<Sector>, ghost lo: nat, ghost n: nat, ghost sect: nat, ghost s: nat,
                   i: nat, k: nat, want: nat)
    returns (ok: bool, left: nat)
    requires lo <= sect < lo + n && i < SECTOR_SIZE && k < 8
    requires Clearing(before, dev.sectors, dev.fsbuf, lo, n, sect, s, Position(lo, sect, i, k))
    modifies dev`fsbuf
    ensures var hi := Position(lo, sect, i, k); var c := Min(8 - k, want);
            && (ok <==> MapSet(before, lo, n, hi, hi + c))
            && (ok ==> left == want - c && Clearing(before, dev.sectors, dev.fsbuf, lo, n, sect, s, hi + c))
  {
    ghost var c := Min(8 - k, want);
    BitsAhead(before, dev.sectors, dev.fsbuf, lo, n, sect, s, i, k, c);
    var byte;
    ok, byte, left := ClearFrom(dev.fsbuf[i], k, want);
    if ok {
      ByteCleared(before, dev.sectors, dev.fsbuf, lo, n, sect, s, i, k, c, byte);
      dev.fsbuf := dev.fsbuf[i := byte];
    }
  }

  /** A whole byte: it must be all ones, and becomes zero. */
  method ClearFullByte(dev: Device, ghost before: seq<Sector>, ghost lo: nat, ghost n: nat, ghost sect: nat,
                       ghost s: nat, i: nat)
    returns (ok: bool)
    requires lo <= sect < lo + n && i < SECTOR_SIZE
    requires Clearing(before, dev.sectors, dev.fsbuf, lo, n, sect, s, Position(lo, sect, i, 0))
    modifies dev`fsbuf
    ensures var hi := Position(lo, sect, i, 0);
            && (ok <==> MapSet(before, lo, n, hi, hi + 8))
            && (ok ==> Clearing(before, dev.sectors, dev.fsbuf, lo, n, sect, s, hi + 8))
  {
    BitsAhead(before, dev.sectors, dev.fsbuf, lo, n, sect, s, i, 0, 8);
    AllOnes(dev.fsbuf[i]);
    ok := dev.fsbuf[i] == 0xff;
    if ok {
      forall j: nat | j < 8 { NoBitInZero(j); }
      ByteCleared(before, dev.sectors, dev.fsbuf, lo, n, sect, s, i, 0, 8, 0);
      dev.fsbuf := dev.fsbuf[i := 0];
    }
  }

  /** At the end of a sector the buffer is written back and the next sector is read. */
  method NextSector(dev: Device, ghost before: seq<Sector>, ghost lo: nat, ghost n: nat, sect: nat, ghost s: nat,
                    i: nat)
    returns (sect': nat, i': nat)
    requires lo <= sect < lo + n && i <= SECTOR_SIZE
    requires exists hi: nat :: hi <= Position(lo, sect, i, 0) &&
                               Clearing(before, dev.sectors, dev.fsbuf, lo, n, sect, s, hi)
    modifies dev
    ensures i' < SECTOR_SIZE && lo <= sect' <= lo + n && |dev.sectors| == |old(dev.sectors)|
    ensures Position(lo, sect', i', 0) == Position(lo, sect, i, 0)
    ensures forall hi: nat :: old(Clearing(before, dev.sectors, dev.fsbuf, lo, n, sect, s, hi)) ==>
                         Clearing(before, dev.sectors, dev.fsbuf, lo, n, sect', s, hi)
  {
    sect', i' := sect, i;
    if i == SECTOR_SIZE {
      i' := 0;
      dev.WrSect(sect);
      sect' := sect + 1;
      dev.RdSect(sect');
      assert dev.sectors[sect' := dev.fsbuf] == old(dev.sectors)[sect := old(dev.fsbuf)];
    }
  }

  /** C's integer division, which truncates toward zero. */
  function TruncDiv8(x: int): int {
    if x >= 0 then x / 8 else -((-x) / 8)
  }

  /** The number of whole bytes that do_unlink clears after the first one. */
  function BytesToClear(s: nat, cnt: nat): int {
    if s % 8 != 0 then TruncDiv8(cnt - (8 - s % 8)) else cnt / 8
  }

  /** The three parts of the walk add up to ClearedLength; nothing is left for the last byte
      when the run started at a byte boundary. */
  lemma PartsAddUp(s: nat, cnt: nat)
    ensures var first := Min(8 - s % 8, cnt); var bytes := BytesToClear(s, cnt);
            var rest := cnt - first - 8 * bytes;
            && bytes >= 0 && rest < 8 && (rest > 0 || bytes > 0 ==> first == 8 - s % 8)
            && first + 8 * bytes + (if rest > 0 then rest else 0) == ClearedLength(s, cnt)
  {
  }

  lemma PartNotSet(sectors: seq<Sector>, lo: nat, n: nat, s: nat, a: nat, b: nat, e: nat)
    requires InDisk(sectors, lo, n) && s <= a && b <= e <= n * BITS_PER_SECT && !MapSet(sectors, lo, n, a, b)
    ensures !MapSet(sectors, lo, n, s, e)
  {
  }

  /** The middle loop of the walk: whole bytes from byte i of sector sect. */
  method ClearBytes(dev: Device, ghost before: seq<Sector>, lo: nat, ghost n: nat, sect0: nat, ghost s: nat, i0: nat,
                    bytes: nat)
    returns (ok: bool, sect: nat, i: nat)
    requires lo <= sect0 < lo + n && 1 <= i0 <= SECTOR_SIZE
    requires bytes > 0 ==> Clearing(before, dev.sectors, dev.fsbuf, lo, n, sect0, s, Position(lo, sect0, i0, 0))
    requires Position(lo, sect0, i0, 0) + 8 * bytes <= n * BITS_PER_SECT
    modifies dev
    ensures var hi := Position(lo, sect0, i0, 0);
            && (ok <==> bytes == 0 || MapSet(before, lo, n, hi, hi + 8 * bytes))
            && (ok ==> lo <= sect < lo + n && 1 <= i <= SECTOR_SIZE && Position(lo, sect, i, 0) == hi + 8 * bytes)
            && (ok && bytes > 0 ==> Clearing(before, dev.sectors, dev.fsbuf, lo, n, sect, s, hi + 8 * bytes))
            && (bytes == 0 ==> dev.sectors == old(dev.sectors) && dev.fsbuf == old(dev.fsbuf) && sect == sect0)
    ensures |dev.sectors| == |old(dev.sectors)|
  {
    hide BitAt, Bit;
    sect, i := sect0, i0;
    ghost var hi := Position(lo, sect0, i0, 0);
    var j := 0;
    while j < bytes
      invariant 0 <= j <= bytes && lo <= sect < lo + n && 1 <= i <= SECTOR_SIZE && |dev.sectors| == |old(dev.sectors)|
      invariant Position(lo, sect, i, 0) == hi + 8 * j
      invariant bytes > 0 ==> Clearing(before, dev.sectors, dev.fsbuf, lo, n, sect, s, hi + 8 * j)
      invariant bytes > 0 ==> MapSet(before, lo, n, hi, hi + 8 * j)
      invariant j == 0 ==> dev.sectors == old(dev.sectors) && dev.fsbuf == old(dev.fsbuf) && sect == sect0
    {
      sect, i := NextSector(dev, before, lo, n, sect, s, i);
      ok := ClearFullByte(dev, before, lo, n, sect, s, i);
      if !ok {
        PartNotSet(before, lo, n, hi, hi + 8 * j, hi + 8 * j + 8, hi + 8 * bytes);
        return;
      }
      MapSetJoin(before, lo, n, hi, hi + 8 * j, hi + 8 * j + 8);
      i := i + 1;
      j := j + 1;
    }
    ok := true;
  }

  lemma StartClearing(before: seq<Sector>, fsbuf: Sector, lo: nat, n: nat, sect: nat, s: nat)
    requires lo <= sect < lo + n < |before| && s <= n * BITS_PER_SECT && fsbuf == before[sect]
    ensures Clearing(before, before, fsbuf, lo, n, sect, s, s)
  {
    assert before[sect := fsbuf] == before;
  }

  lemma EndClearing(before: seq<Sector>, sectors: seq<Sector>, fsbuf: Sector, lo: nat, n: nat, sect: nat, s: nat,
                    hi: nat)
    requires Clearing(before, sectors, fsbuf, lo, n, sect, s, hi)
    ensures sect < |sectors| && |sectors| == |before| && InDisk(before, lo, n)
    ensures MapSet(before, lo, n, s, hi) && MapClears(before, sectors[sect := fsbuf], lo, n, s, hi)
  {
  }

  /** The sector-map part of do_unlink, for a run of cnt bits at s.  It succeeds when all the
      bits it visits are set, and then clears exactly those. */
  method ClearSmapRun(dev: Device, lo: nat, n: nat, s: nat, cnt: nat) returns (ok: bool)
    requires lo + n < |dev.sectors| && s < n * BITS_PER_SECT
    requires s + ClearedLength(s, cnt) <= n * BITS_PER_SECT
    modifies dev
    ensures |dev.sectors| == |old(dev.sectors)|
    ensures ok <==> MapSet(old(dev.sectors), lo, n, s, s + ClearedLength(s, cnt))
    ensures ok ==> MapClears(old(dev.sectors), dev.sectors, lo, n, s, s + ClearedLength(s, cnt))
  {
    hide BitAt, Bit, Clearing, MapSet, MapClears;
    ghost var before, end := dev.sectors, s + ClearedLength(s, cnt);
    var byteStart, bit := s / 8, s % 8;
    var sect, i := lo + byteStart / SECTOR_SIZE, byteStart % SECTOR_SIZE;
    var bytes := BytesToClear(s, cnt);
    PartsAddUp(s, cnt);
    assert Position(lo, sect, i, bit) == s;
    dev.RdSect(sect);
    StartClearing(before, dev.fsbuf, lo, n, sect, s);
    ghost var first := Min(8 - bit, cnt);
    var left;
    ok, left := ClearByte(dev, before, lo, n, sect, s, i, bit, cnt);
    if !ok {
      PartNotSet(before, lo, n, s, s, s + first, end);
      return;
    }
    ok, sect, i := ClearBytes(dev, before, lo, n, sect, s, i + 1, bytes);
    ghost var hi := s + first + 8 * bytes;
    if !ok {
      PartNotSet(before, lo, n, s, s + first, hi, end);
      return;
    }
    assert Clearing(before, dev.sectors, dev.fsbuf, lo, n, sect, s, hi);
    var rest := left - 8 * bytes;
    sect, i := NextSector(dev, before, lo, n, sect, s, i);
    if rest > 0 {
      ok, left := ClearByte(dev, before, lo, n, sect, s, i, 0, rest);
      if !ok {
        PartNotSet(before, lo, n, s, hi, end, end);
        return;
      }
    }
    EndClearing(before, dev.sectors, dev.fsbuf, lo, n, sect, s, end);
    dev.WrSect(sect);
  }

  // ---- allocate, then clear ------------------------------------------------

  lemma BytesFromBits(a: bv8, b: bv8)
    requires forall k: nat | k < 8 :: Bit(a, k) == Bit(b, k)
    ensures a == b
  {
    assert Bit(a, 0) == Bit(b, 0) && Bit(a, 1) == Bit(b, 1) && Bit(a, 2) == Bit(b, 2) && Bit(a, 3) == Bit(b, 3);
    assert Bit(a, 4) == Bit(b, 4) && Bit(a, 5) == Bit(b, 5) && Bit(a, 6) == Bit(b, 6) && Bit(a, 7) == Bit(b, 7);
  }

  lemma SectorsFromBits(before: seq<Sector>, after: seq<Sector>, lo: nat, n: nat)
    requires InDisk(before, lo, n) && SameOutside(before, after, lo, lo + n)
    requires forall x :: 0 <= x < n * BITS_PER_SECT ==> BitAt(after, lo, x) == BitAt(before, lo, x)
    ensures after == before
  {
    forall s | 0 <= s < |before|
      ensures after[s] == before[s]
    {
      if lo <= s < lo + n {
        var a, b := after[s], before[s];
        forall i | 0 <= i < SECTOR_SIZE
          ensures a[i] == b[i]
        {
          forall k: nat | k < 8
            ensures Bit(a[i], k) == Bit(b[i], k)
          {
            BitOfByte(after, lo, s, a, i, k);
            BitOfByte(before, lo, s, b, i, k);
          }
          BytesFromBits(a[i], b[i]);
        }
      }
    }
  }

  /** Creating a file and unlinking it again restores the whole map, byte for byte, unless the
      run started at a byte boundary: then the walk does not clear what was allocated. */
  lemma AllocateThenClear(before: seq<Sector>, mid: seq<Sector>, after: seq<Sector>, lo: nat, n: nat, b: nat, cnt: nat)
    requires InDisk(before, lo, n) && b + ClearedLength(b, cnt) <= n * BITS_PER_SECT
    requires MapClear(before, lo, n, b, b + cnt) && MapSets(before, mid, lo, n, b, b + cnt)
    requires MapSet(mid, lo, n, b, b + ClearedLength(b, cnt))
    requires MapClears(mid, after, lo, n, b, b + ClearedLength(b, cnt))
    ensures after == before <==> b % 8 != 0 || cnt < 8
  {
    ClearsExactlyWhen(b, cnt);
    if ClearedLength(b, cnt) == cnt {
      forall x | 0 <= x < n * BITS_PER_SECT
        ensures BitAt(after, lo, x) == BitAt(before, lo, x)
      {
      }
      SectorsFromBits(before, after, lo, n);
    } else {
      var x := b + cnt;
      assert BitAt(mid, lo, x) <==> BitAt(before, lo, x) || b <= x < b + cnt;
      assert BitAt(after, lo, x) <==> BitAt(mid, lo, x) && !(b <= x < b + ClearedLength(b, cnt));
    }
  }

  // ---- the inode map -------------------------------------------------------

  lemma NothingSet(sectors: seq<Sector>, lo: nat, buf: Sector)
    requires lo < |sectors|
    ensures forall b: int :: MapSets(sectors, sectors, lo, 1, b, b)
    ensures forall x :: SetsRange(buf, buf, x, x)
  {
  }

  /** alloc_imap_bit looks at the first map sector only and returns 0 when that is full. */
  method AllocImapBit(dev: Device, lo: nat) returns (nr: nat, ghost b: nat)
    requires lo < |dev.sectors|
    modifies dev
    ensures LeastClear(old(dev.sectors), lo, 1, b)
    ensures nr == if b < BITS_PER_SECT then b else 0
    ensures MapSets(old(dev.sectors), dev.sectors, lo, 1, b, if b < BITS_PER_SECT then b + 1 else b)
  {
    hide SetsRange, MapSets, BitAt, Bit;
    ghost var before := dev.sectors;
    dev.RdSect(lo);
    ghost var buf := dev.fsbuf;
    NothingSet(before, lo, buf);
    var j := SkipFull(dev.fsbuf);
    nr := 0;
    if j < SECTOR_SIZE {
      var k := FirstClear(dev.fsbuf[j]);
      nr := j * 8 + k;
      FirstClearBit(buf, j, k);
      ExtendLeastClear(before, lo, 1, 0, buf, nr);
      var byte := dev.fsbuf[j] | Mask(k);
      forall i: nat | i < 8
        ensures Bit(byte, i) <==> Bit(buf[j], i) || k <= i < k + 1
      {
        SetMask(buf[j], k, i);
      }
      ExtendSet(buf, buf, 8 * j + k, j, k, 1, byte);
      dev.fsbuf := dev.fsbuf[j := byte];
      dev.WrSect(lo);
      ExtendMapSet(before, before, lo, 1, 0, nr, nr, 1, dev.fsbuf);
      b := nr;
    } else {
      assert IsFirstClear(buf, BITS_PER_SECT);
      ExtendLeastClear(before, lo, 1, 0, buf, BITS_PER_SECT);
      b := BITS_PER_SECT;
    }
  }

  lemma OneBitSet(sectors: seq<Sector>, lo: nat, x: nat)
    requires lo + 1 < |sectors| && x < BITS_PER_SECT && BitAt(sectors, lo, x)
    ensures MapSet(sectors, lo, 1, x, x + 1)
  {
  }

  /** The inode-map part of do_unlink. */
  method ClearImapBit(dev: Device, lo: nat, nr: nat) returns (ok: bool)
    requires lo + 1 < |dev.sectors| && nr < BITS_PER_SECT
    modifies dev
    ensures |dev.sectors| == |old(dev.sectors)|
    ensures ok <==> BitAt(old(dev.sectors), lo, nr)
    ensures ok ==> MapClears(old(dev.sectors), dev.sectors, lo, 1, nr, nr + 1)
  {
    hide Clearing, MapSet, MapClears, BitAt;
    ghost var before := dev.sectors;
    dev.RdSect(lo);
    ghost var buf := dev.fsbuf;
    var byteIndex, bitIndex := nr / 8, nr % 8;
    BitOfByte(before, lo, lo, buf, byteIndex, bitIndex);
    ok := dev.fsbuf[byteIndex] & Mask(bitIndex) != 0;
    if ok {
      var byte := dev.fsbuf[byteIndex] & !Mask(bitIndex);
      forall j: nat | j < 8
        ensures Bit(byte, j) <==> Bit(buf[byteIndex], j) && !(bitIndex <= j < bitIndex + 1)
      {
        ClearMask(buf[byteIndex], bitIndex, j);
      }
      StartClearing(before, buf, lo, 1, lo, nr);
      OneBitSet(before, lo, nr);
      ByteCleared(before, before, buf, lo, 1, lo, nr, byteIndex, bitIndex, 1, byte);
      dev.fsbuf := dev.fsbuf[byteIndex := byte];
      EndClearing(before, before, dev.fsbuf, lo, 1, lo, nr, nr + 1);
      dev.WrSect(lo);
    }
  }
}
