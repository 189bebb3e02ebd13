/** Bytes as bits, and a byte sequence as a flat bit array.  The loops below are the
    per-byte and per-sector parts of the bitmap walks in fs/opera.c. */
module Bits {

  const SECTOR_SIZE := 512
  const BITS_PER_SECT := 4096

  type Sector = s: seq<bv8> | |s| == SECTOR_SIZE witness seq(SECTOR_SIZE, _ => 0)

  /** 1 << k */
  function Mask(k: nat): bv8
    requires k < 8
  {
    match k
    case 0 => 1 case 1 => 2 case 2 => 4 case 3 => 8
    case 4 => 16 case 5 => 32 case 6 => 64 case 7 => 128
  }

  predicate Bit(b: bv8, k: nat)
    requires k < 8
  {
    b & Mask(k) != 0
  }

  lemma SetMask(b: bv8, k: nat, j: nat)
    requires k < 8 && j < 8
    ensures Bit(b | Mask(k), j) <==> j == k || Bit(b, j)
  {
  }

  lemma ClearMask(b: bv8, k: nat, j: nat)
    requires k < 8 && j < 8
    ensures Bit(b & !Mask(k), j) <==> j != k && Bit(b, j)
  {
  }

  lemma AllOnes(b: bv8)
    ensures b == 0xff <==> forall k: nat | k < 8 :: Bit(b, k)
  {
    assert b == 0xff <== Bit(b, 0) && Bit(b, 1) && Bit(b, 2) && Bit(b, 3) &&
                         Bit(b, 4) && Bit(b, 5) && Bit(b, 6) && Bit(b, 7);
  }

  lemma NoBitInZero(k: nat)
    requires k < 8
    ensures !Bit(0, k)
  {
  }

  /** Bit b of a byte sequence. */
  predicate BitOf(bytes: seq<bv8>, b: int)
    requires 0 <= b < 8 * |bytes|
  {
    Bit(bytes[b / 8], b % 8)
  }

  /** Bit b of the bitmap whose first sector is lo. */
  predicate BitAt(sectors: seq<Sector>, lo: nat, b: int)
    requires 0 <= b && lo + b / BITS_PER_SECT < |sectors|
  {
    BitOf(sectors[lo + b / BITS_PER_SECT], b % BITS_PER_SECT)
  }

  function Min(a: int, b: int): int {
    if a < b then a else b
  }

  function Max(a: int, b: int): int {
    if a < b then b else a
  }

  /** The loop that skips the ones of a byte. */
  method FirstClear(byte: bv8) returns (k: nat)
    requires byte != 0xff
    ensures k < 8 && !Bit(byte, k)
    ensures forall j: nat | j < k :: Bit(byte, j)
  {
    AllOnes(byte);
    k := 0;
    while k < 8 && byte & Mask(k) != 0
      invariant k <= 8 && forall j: nat | j < k :: Bit(byte, j)
    {
      k := k + 1;
    }
  }

  /** Sets bits k0, k0+1, ... of a byte until the byte or the wanted number is used up; not ok
      when one of them is set already. */
  method SetFrom(byte: bv8, k0: nat, want: nat) returns (ok: bool, r: bv8, left: nat)
    requires k0 < 8 && want > 0
    ensures var c := Min(8 - k0, want);
            && (ok <==> forall k: nat | k0 <= k < k0 + c :: !Bit(byte, k))
            && (ok ==> left == want - c && forall k: nat | k < 8 :: Bit(r, k) <==> Bit(byte, k) || k0 <= k < k0 + c)
  {
    r, left := byte, want;
    var k := k0;
    while k < 8
      invariant k0 <= k <= 8 && left == want - (k - k0) && left > 0
      invariant forall j: nat | k0 <= j < k :: !Bit(byte, j)
      invariant forall j: nat | j < 8 :: Bit(r, j) <==> Bit(byte, j) || k0 <= j < k
    {
      if r & Mask(k) != 0 {
        assert Bit(r, k);
        return false, r, left;
      }
      assert !Bit(r, k);
      ghost var before := r;
      r := r | Mask(k);
      forall j: nat | j < 8
        ensures Bit(r, j) <==> Bit(byte, j) || k0 <= j < k + 1
      {
        SetMask(before, k, j);
      }
      left := left - 1;
      if left == 0 {
        break;
      }
      k := k + 1;
    }
    return true, r, left;
  }

  /** Clears bits k0, k0+1, ... below 8 until `want` are cleared; not ok when one is clear already. */
  method ClearFrom(byte: bv8, k0: nat, want: nat) returns (ok: bool, r: bv8, left: nat)
    requires k0 < 8
    ensures var c := Min(8 - k0, want);
            && (ok <==> forall k: nat | k0 <= k < k0 + c :: Bit(byte, k))
            && (ok ==> left == want - c && forall k: nat | k < 8 :: Bit(r, k) <==> Bit(byte, k) && !(k0 <= k < k0 + c))
  {
    r, left := byte, want;
    var k := k0;
    while k < 8 && left > 0
      invariant k0 <= k <= 8 && left == want - (k - k0) && left >= 0
      invariant forall j: nat | k0 <= j < k :: Bit(byte, j)
      invariant forall j: nat | j < 8 :: Bit(r, j) <==> Bit(byte, j) && !(k0 <= j < k)
    {
      if r & Mask(k) == 0 {
        assert !Bit(r, k);
        return false, r, left;
      }
      assert Bit(r, k);
      ghost var before := r;
      r := r & !Mask(k);
      forall j: nat | j < 8
        ensures Bit(r, j) <==> Bit(byte, j) && !(k0 <= j < k + 1)
      {
        ClearMask(before, k, j);
      }
      left := left - 1;
      k := k + 1;
    }
    return true, r, left;
  }

  /** b is the first clear bit, or the number of bits if there is none. */
  ghost predicate IsFirstClear(buf: seq<bv8>, b: int) {
    && 0 <= b <= 8 * |buf|
    && (forall c :: 0 <= c < b ==> BitOf(buf, c))
    && (b < 8 * |buf| ==> !BitOf(buf, b))
  }

  ghost predicate AllClear(buf: seq<bv8>, lo: int, hi: int)
    requires 0 <= lo && hi <= 8 * |buf|
  {
    forall x :: lo <= x < hi ==> !BitOf(buf, x)
  }

  ghost predicate AllSet(buf: seq<bv8>, lo: int, hi: int)
    requires 0 <= lo && hi <= 8 * |buf|
  {
    forall x :: lo <= x < hi ==> BitOf(buf, x)
  }

  /** after is before with [lo, hi) set. */
  ghost predicate SetsRange(before: seq<bv8>, after: seq<bv8>, lo: int, hi: int) {
    && |after| == |before|
    && forall x :: 0 <= x < 8 * |before| ==> (BitOf(after, x) <==> BitOf(before, x) || lo <= x < hi)
  }

  /** Writing one byte: setting bits k..k+c of byte j extends the range that is set. */
  lemma ExtendSet(before: seq<bv8>, buf: seq<bv8>, lo: int, j: nat, k: nat, c: nat, byte: bv8)
    requires j < |before| && k + c <= 8
    requires SetsRange(before, buf, lo, 8 * j + k) && lo <= 8 * j + k
    requires forall i: nat | i < 8 :: Bit(byte, i) <==> Bit(buf[j], i) || k <= i < k + c
    ensures SetsRange(before, buf[j := byte], lo, 8 * j + k + c)
  {
    var after := buf[j := byte];
    forall x | 0 <= x < 8 * |before|
      ensures BitOf(after, x) <==> BitOf(before, x) || lo <= x < 8 * j + k + c
    {
      assert BitOf(buf, x) <==> BitOf(before, x) || lo <= x < 8 * j + k;
      if x / 8 == j {
        var i: nat := x % 8;
        assert Bit(byte, i) <==> Bit(buf[j], i) || k <= i < k + c;
      }
    }
  }

  /** Bits of one byte against bits of the sequence. */
  lemma ByteBits(buf: seq<bv8>, j: nat, k: nat)
    requires j < |buf| && k < 8
    ensures BitOf(buf, 8 * j + k) == Bit(buf[j], k)
  {
  }

  lemma ByteClear(buf: seq<bv8>, j: nat, k: nat, c: nat)
    requires j < |buf| && k + c <= 8
    ensures AllClear(buf, 8 * j + k, 8 * j + k + c) <==> forall i: nat | k <= i < k + c :: !Bit(buf[j], i)
  {
    forall i: nat | k <= i < k + c { ByteBits(buf, j, i); }
    forall x | 8 * j + k <= x < 8 * j + k + c ensures BitOf(buf, x) == Bit(buf[j], x - 8 * j) {}
  }

  lemma ByteSet(buf: seq<bv8>, j: nat, k: nat, c: nat)
    requires j < |buf| && k + c <= 8
    ensures AllSet(buf, 8 * j + k, 8 * j + k + c) <==> forall i: nat | k <= i < k + c :: Bit(buf[j], i)
  {
    forall i: nat | k <= i < k + c { ByteBits(buf, j, i); }
    forall x | 8 * j + k <= x < 8 * j + k + c ensures BitOf(buf, x) == Bit(buf[j], x - 8 * j) {}
  }

  /** The map so far: [b, hi) was clear in buf, and r is buf with it set. */
  ghost predicate Filled(buf: seq<bv8>, r: seq<bv8>, b: int, hi: int) {
    && 0 <= b <= hi <= 8 * |buf|
    && AllClear(buf, b, hi)
    && SetsRange(buf, r, b, hi)
  }

  /** One byte of the walk: sets its bits from k on. */
  method FillByte(ghost buf: Sector, r0: Sector, ghost b: int, j: nat, k: nat, want0: nat)
    returns (ok: bool, r: Sector, want: nat)
    requires j < SECTOR_SIZE && k < 8 && want0 > 0 && Filled(buf, r0, b, 8 * j + k)
    ensures ok <==> AllClear(buf, b, 8 * j + k + Min(8 - k, want0))
    ensures ok ==> Filled(buf, r, b, 8 * j + k + Min(8 - k, want0)) && want == want0 - Min(8 - k, want0)
  {
    ghost var c := Min(8 - k, want0);
    var byte;
    ok, byte, want := SetFrom(r0[j], k, want0);
    SameByte(buf, r0, b, 8 * j + k, j, k, c);
    ByteClear(buf, j, k, c);
    r := r0[j := byte];
    if ok {
      ExtendSet(buf, r0, b, j, k, c, byte);
    } else {
      assert !AllClear(buf, 8 * j + k, 8 * j + k + c);
    }
  }

  /** The byte loop of alloc_smap_bit over sector i of the map.  start0 is the sector number
      found so far (0 if none yet), want0 the number of bits still to set.  b is the first bit
      of this sector that is taken. */
  method AllocInSector(buf: Sector, i: nat, n1: nat, start0: nat, want0: nat)
    returns (ok: bool, r: Sector, start: nat, want: nat, ghost b: nat)
    requires n1 > 1 && want0 > 0
    ensures if start0 > 0 then b == 0 && start == start0
            else IsFirstClear(buf, b) && start == if b < BITS_PER_SECT then i * BITS_PER_SECT + b - 1 + n1 else 0
    ensures b <= BITS_PER_SECT && (ok <==> AllClear(buf, b, b + Min(BITS_PER_SECT - b, want0)))
    ensures ok ==> want == want0 - Min(BITS_PER_SECT - b, want0)
    ensures ok ==> SetsRange(buf, r, b, b + Min(BITS_PER_SECT - b, want0))
  {
    r, start, want := buf, start0, want0;
    b := 0;
    var j := 0;
    if start == 0 {
      j := SkipFull(buf);
      if j == SECTOR_SIZE {
        b := BITS_PER_SECT;
        return true, r, start, want, b;
      }
      var k := FirstClear(r[j]);
      FirstClearBit(buf, j, k);
      b := 8 * j + k;
      start := (i * SECTOR_SIZE + j) * 8 + k - 1 + n1;
      ok, r, want := FillByte(buf, r, b, j, k, want);
      if !ok {
        return;
      }
      j := j + 1;
    }
    while j < SECTOR_SIZE && want > 0
      invariant j <= SECTOR_SIZE && b <= 8 * j
      invariant want == want0 - Min(8 * j - b, want0) && Filled(buf, r, b, b + (want0 - want))
    {
      ok, r, want := FillByte(buf, r, b, j, 0, want);
      if !ok {
        return;
      }
      j := j + 1;
    }
    ok := true;
  }

  /** The part of the walk that skips full bytes. */
  method SkipFull(buf: Sector) returns (j: nat)
    ensures j <= SECTOR_SIZE && AllSet(buf, 0, 8 * j) && (j < SECTOR_SIZE ==> buf[j] != 0xff)
  {
    j := 0;
    while j < SECTOR_SIZE && buf[j] == 0xff
      invariant j <= SECTOR_SIZE && AllSet(buf, 0, 8 * j)
    {
      AllOnes(buf[j]);
      ByteSet(buf, j, 0, 8);
      assert forall x :: 0 <= x < 8 * j + 8 && !(x < 8 * j) ==> BitOf(buf, x);
      j := j + 1;
    }
  }

  lemma FirstClearBit(buf: Sector, j: nat, k: nat)
    requires j < SECTOR_SIZE && k < 8 && AllSet(buf, 0, 8 * j)
    requires !Bit(buf[j], k) && forall i: nat | i < k :: Bit(buf[j], i)
    ensures IsFirstClear(buf, 8 * j + k)
  {
    ByteSet(buf, j, 0, k);
    ByteBits(buf, j, k);
    assert forall x :: 0 <= x < 8 * j + k && !(x < 8 * j) ==> BitOf(buf, x);
  }

  /** Bits at or after the end of the range set so far are still those of the original. */
  lemma SameByte(before: seq<bv8>, buf: seq<bv8>, lo: int, hi: int, j: nat, k: nat, c: nat)
    requires j < |before| && k + c <= 8 && hi == 8 * j + k && SetsRange(before, buf, lo, hi)
    ensures forall i: nat | k <= i < k + c :: Bit(buf[j], i) == Bit(before[j], i)
  {
    forall i: nat | k <= i < k + c
      ensures Bit(buf[j], i) == Bit(before[j], i)
    {
      ByteBits(before, j, i);
      ByteBits(buf, j, i);
    }
  }
}
