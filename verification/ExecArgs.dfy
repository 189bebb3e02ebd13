/** Arguments across exec: execv packs them into a block in the caller's memory (lib/unistd.c),
    and do_exec copies the block to the top of the new image and moves its pointers (mm/exec.c). */
module ExecArgs {
  import opened Records

  const PROC_IMAGE_SIZE := 0x100000
  const PROC_ORIGIN_STACK := 0x400
  /** PROC_IMAGE_SIZE_DEFAULT - PROC_ORIGIN_STACK */
  const ORIG_STACK: U32 := 0xFFC00
  const WORD := 4

  /** The bytes of a C string without its terminating zero. */
  ghost predicate CStrings(argv: seq<seq<bv8>>) {
    forall i :: 0 <= i < |argv| ==> 0 !in argv[i]
  }

  // ---- the packed block ----------------------------------------------------

  /** Where string i starts: behind the pointers, the null pointer, and the strings before it. */
  function Offset(argv: seq<seq<bv8>>, i: nat): (o: nat)
    requires i <= |argv|
    ensures o >= WORD * |argv| + WORD + i
  {
    if i == 0 then WORD * |argv| + WORD else Offset(argv, i - 1) + |argv[i - 1]| + 1
  }

  /** The length of the block. */
  function Total(argv: seq<seq<bv8>>): nat {
    Offset(argv, |argv|)
  }

  lemma {:induction false} OffsetsApart(argv: seq<seq<bv8>>, j: nat, i: nat)
    requires j < i <= |argv|
    ensures Offset(argv, j) + |argv[j]| + 1 <= Offset(argv, i)
  {
    if j + 1 == i {
    } else {
      OffsetsApart(argv, j, i - 1);
    }
  }

  /** Reading a C string at o gives s. */
  ghost predicate StringAt(mem: seq<bv8>, o: nat, s: seq<bv8>) {
    o + |s| < |mem| && (forall k :: 0 <= k < |s| ==> mem[o + k] == s[k]) && mem[o + |s|] == 0
  }

  /** The first i arguments are in place in a block for address `at`. */
  ghost predicate PackedTo(block: seq<bv8>, at: nat, argv: seq<seq<bv8>>, i: nat)
    requires i <= |argv|
  {
    && Offset(argv, i) <= |block|
    && WordAt(block, WORD * |argv|) == 0
    && forall j: nat :: j < i ==>
         PointsTo(block, at, WORD * j, Offset(argv, j)) && StringAt(block, Offset(argv, j), argv[j])
  }

  ghost predicate PointsTo(block: seq<bv8>, at: nat, off: nat, o: nat) {
    off + WORD <= |block| && WordAt(block, off) == at + o
  }

  /** The block of pointers and strings that execv hands over. */
  ghost predicate Packed(block: seq<bv8>, at: nat, argv: seq<seq<bv8>>) {
    PackedTo(block, at, argv, |argv|)
  }

  lemma PackedAt(block: seq<bv8>, at: nat, argv: seq<seq<bv8>>, j: nat)
    requires Packed(block, at, argv) && j < |argv|
    ensures WORD * j + WORD <= |block| && WordAt(block, WORD * j) == at + Offset(argv, j)
    ensures StringAt(block, Offset(argv, j), argv[j])
  {
    hide WordAt, StringAt, Offset;
    assert PointsTo(block, at, WORD * j, Offset(argv, j)) && StringAt(block, Offset(argv, j), argv[j]);
  }

  lemma SameWord(a: seq<bv8>, b: seq<bv8>, off: nat)
    requires off + WORD <= |a| == |b| && forall k :: off <= k < off + WORD ==> b[k] == a[k]
    ensures WordAt(b, off) == WordAt(a, off)
  {
  }

  lemma SameString(a: seq<bv8>, b: seq<bv8>, o: nat, s: seq<bv8>)
    requires StringAt(a, o, s) && |b| == |a| && forall k :: o <= k <= o + |s| ==> b[k] == a[k]
    ensures StringAt(b, o, s)
  {
  }

  lemma WordStored(buf: seq<bv8>, off: nat, v: U32)
    requires off + WORD <= |buf|
    ensures WordAt(Overwrite(buf, off, Bytes(v)), off) == v
  {
    hide Bytes;
    var r := Overwrite(buf, off, Bytes(v));
    assert r[off..off + 4] == Bytes(v)[0..4];
    WordSame(r, Bytes(v), off, 0);
    WordOfBytes(v);
  }

  lemma StringStored(buf: seq<bv8>, o: nat, s: seq<bv8>)
    requires o + |s| < |buf|
    ensures StringAt(Overwrite(buf, o, s + [0]), o, s)
  {
  }

  /** Only pointer i and string i change. */
  ghost predicate ChangesOne(before: seq<bv8>, after: seq<bv8>, argv: seq<seq<bv8>>, i: nat)
    requires i < |argv|
  {
    && |after| == |before|
    && forall k :: 0 <= k < |before| && !(WORD * i <= k < WORD * i + WORD) && k < Offset(argv, i) ==>
         after[k] == before[k]
  }

  lemma OthersStay(before: seq<bv8>, after: seq<bv8>, at: nat, argv: seq<seq<bv8>>, i: nat, j: nat)
    requires j < i < |argv| && PackedTo(before, at, argv, i) && ChangesOne(before, after, argv, i)
    ensures PointsTo(after, at, WORD * j, Offset(argv, j)) && StringAt(after, Offset(argv, j), argv[j])
  {
    hide WordAt, StringAt;
    OffsetsApart(argv, j, i);
    assert PointsTo(before, at, WORD * j, Offset(argv, j)) && StringAt(before, Offset(argv, j), argv[j]);
    SameWord(before, after, WORD * j);
    StringFits(before, Offset(argv, j), argv[j]);
    SameString(before, after, Offset(argv, j), argv[j]);
  }

  lemma StringFits(mem: seq<bv8>, o: nat, s: seq<bv8>)
    requires StringAt(mem, o, s)
    ensures o + |s| < |mem|
  {
  }

  ghost function WithArgument(before: seq<bv8>, at: nat, argv: seq<seq<bv8>>, i: nat): (after: seq<bv8>)
    requires i < |argv| && Offset(argv, i + 1) <= |before| && at + Offset(argv, i) < 0x1_0000_0000
    ensures |after| == |before|
  {
    Overwrite(Overwrite(before, WORD * i, Bytes(at + Offset(argv, i))), Offset(argv, i), argv[i] + [0])
  }

  lemma StoredBoth(before: seq<bv8>, at: nat, argv: seq<seq<bv8>>, i: nat)
    requires i < |argv| && Offset(argv, i + 1) <= |before| && at + Offset(argv, i) < 0x1_0000_0000
    ensures var after := WithArgument(before, at, argv, i);
            && ChangesOne(before, after, argv, i)
            && PointsTo(after, at, WORD * i, Offset(argv, i)) && StringAt(after, Offset(argv, i), argv[i])
  {
    hide WordAt, Bytes, StringAt, Overwrite;
    var o := Offset(argv, i);
    var mid := Overwrite(before, WORD * i, Bytes(at + o));
    var after := WithArgument(before, at, argv, i);
    PointersFirst(argv, i);
    OffsetSteps(argv, i);
    WordStored(before, WORD * i, at + o);
    SameWord(mid, after, WORD * i);
    StringStored(mid, o, argv[i]);
  }

  /** The strings lie behind the pointers. */
  lemma PointersFirst(argv: seq<seq<bv8>>, i: nat)
    requires i < |argv|
    ensures WORD * i + WORD <= Offset(argv, i)
  {
  }

  lemma OffsetSteps(argv: seq<seq<bv8>>, i: nat)
    requires i < |argv|
    ensures Offset(argv, i + 1) == Offset(argv, i) + |argv[i]| + 1
  {
  }

  /** One round of execv's second loop. */
  lemma PackOne(before: seq<bv8>, at: nat, argv: seq<seq<bv8>>, i: nat)
    requires i < |argv| && PackedTo(before, at, argv, i) && Offset(argv, i + 1) <= |before|
    requires at + Offset(argv, i) < 0x1_0000_0000
    ensures PackedTo(WithArgument(before, at, argv, i), at, argv, i + 1)
  {
    hide WordAt, Bytes, StringAt, PointsTo, WithArgument, Offset;
    OffsetSteps(argv, i);
    var after := WithArgument(before, at, argv, i);
    StoredBoth(before, at, argv, i);
    SameWord(before, after, WORD * |argv|);
    forall j: nat | j < i
      ensures PointsTo(after, at, WORD * j, Offset(argv, j)) && StringAt(after, Offset(argv, j), argv[j])
    {
      OthersStay(before, after, at, argv, i, j);
    }
  }

  // ---- execv ---------------------------------------------------------------

  method Store(a: array<bv8>, off: nat, data: seq<bv8>)
    requires off + |data| <= a.Length
    modifies a
    ensures a[..] == Overwrite(old(a[..]), off, data)
  {
    var i := 0;
    while i < |data|
      invariant 0 <= i <= |data|
      invariant forall k :: 0 <= k < a.Length ==> a[k] == if off <= k < off + i then data[k - off] else old(a[k])
    {
      a[off + i] := data[i];
      i := i + 1;
    }
  }

  /** execv's first loop: room for the pointers. */
  method CountPointers(argv: seq<seq<bv8>>) returns (ok: bool, stackLen: nat)
    ensures ok <==> |argv| == 0 || WORD * |argv| + WORD < PROC_ORIGIN_STACK
    ensures ok ==> stackLen == WORD * |argv|
  {
    stackLen := 0;
    var p := 0;
    while p < |argv|
      invariant 0 <= p <= |argv| && stackLen == WORD * p
      invariant p > 0 ==> WORD * p + WORD < PROC_ORIGIN_STACK
    {
      if !(stackLen + 2 * WORD < PROC_ORIGIN_STACK) {
        return false, stackLen;
      }
      stackLen := stackLen + WORD;
      p := p + 1;
    }
    ok := true;
  }

  /** One round of execv's second loop: a pointer and its string. */
  method StoreOne(argv: seq<seq<bv8>>, buf: nat, argStack: array<bv8>, p: nat, q: nat, stackLen: nat)
    requires p < |argv| && q == WORD * p && stackLen == Offset(argv, p) && Offset(argv, p + 1) <= argStack.Length
    requires buf + stackLen < 0x1_0000_0000 && PackedTo(argStack[..], buf, argv, p)
    modifies argStack
    ensures PackedTo(argStack[..], buf, argv, p + 1)
  {
    hide PackedTo, WordAt, Bytes, Offset, Overwrite;
    PackOne(argStack[..], buf, argv, p);
    PointersFirst(argv, p);
    OffsetSteps(argv, p);
    Store(argStack, q, Bytes(buf + stackLen));
    Store(argStack, stackLen, argv[p] + [0]);
  }

  /** execv's second loop: the strings and the pointers to them. */
  method StoreArguments(argv: seq<seq<bv8>>, buf: nat, argStack: array<bv8>) returns (ok: bool, stackLen: nat)
    requires argStack.Length == PROC_ORIGIN_STACK && buf + PROC_ORIGIN_STACK <= 0x1_0000_0000
    requires PackedTo(argStack[..], buf, argv, 0)
    modifies argStack
    ensures ok <==> argv == [] || Total(argv) < PROC_ORIGIN_STACK
    ensures ok ==> stackLen == Total(argv) && Packed(argStack[..], buf, argv)
  {
    hide PackedTo, WordAt, Bytes, Offset;
    OffsetZero(argv);
    stackLen := WORD * |argv| + WORD;
    var q, p := 0, 0;
    while p < |argv|
      invariant 0 <= p <= |argv| && q == WORD * p && stackLen == Offset(argv, p)
      invariant PackedTo(argStack[..], buf, argv, p)
      invariant p > 0 ==> stackLen < PROC_ORIGIN_STACK
    {
      PackOneFits(argv, p);
      if !(stackLen + |argv[p]| + 1 < PROC_ORIGIN_STACK) {
        return false, stackLen;
      }
      StoreOne(argv, buf, argStack, p, q, stackLen);
      q := q + WORD;
      stackLen := stackLen + |argv[p]| + 1;
      p := p + 1;
    }
    ok := true;
  }

  /** The packing in execv, for an arg_stack at address buf.  It succeeds exactly when the block is
      shorter than the stack; otherwise one of the two asserts fails. */
  method Pack(argv: seq<seq<bv8>>, buf: nat, argStack: array<bv8>) returns (ok: bool, stackLen: nat)
    requires argStack.Length == PROC_ORIGIN_STACK && buf + PROC_ORIGIN_STACK <= 0x1_0000_0000
    modifies argStack
    ensures ok <==> Total(argv) < PROC_ORIGIN_STACK
    ensures ok ==> stackLen == Total(argv) && Packed(argStack[..], buf, argv)
  {
    hide PackedTo, WordAt, Bytes;
    ok, stackLen := CountPointers(argv);
    if ok {
      Store(argStack, stackLen, Bytes(0));
      NothingPacked(argStack[..], buf, argv, old(argStack[..]));
      ok, stackLen := StoreArguments(argv, buf, argStack);
    }
  }

  lemma OffsetZero(argv: seq<seq<bv8>>)
    ensures Offset(argv, 0) == WORD * |argv| + WORD
  {
  }

  lemma NothingPacked(after: seq<bv8>, at: nat, argv: seq<seq<bv8>>, before: seq<bv8>)
    requires WORD * |argv| + WORD <= |before| && after == Overwrite(before, WORD * |argv|, Bytes(0))
    ensures PackedTo(after, at, argv, 0)
  {
    hide WordAt, Bytes;
    WordStored(before, WORD * |argv|, 0);
  }

  lemma PackOneFits(argv: seq<seq<bv8>>, p: nat)
    requires p < |argv|
    ensures Offset(argv, p + 1) == Offset(argv, p) + |argv[p]| + 1 <= Total(argv)
  {
    if p + 1 < |argv| {
      OffsetsApart(argv, p + 1, |argv|);
    }
  }

  // ---- relocation ----------------------------------------------------------

  /** Some word of the block is zero. */
  ghost predicate HasNull(block: seq<bv8>) {
    exists k: nat :: IsNull(block, k)
  }

  predicate IsNull(block: seq<bv8>, k: nat) {
    WORD * k + WORD <= |block| && WordAt(block, WORD * k) == 0
  }

  /** Word k is the first zero word. */
  ghost predicate FirstNull(block: seq<bv8>, k: nat) {
    IsNull(block, k) && forall j: nat :: j < k ==> !IsNull(block, j)
  }

  /** The first argc words have moved by delta, in 32-bit arithmetic. */
  ghost predicate Relocated(before: seq<bv8>, after: seq<bv8>, argc: nat, delta: int) {
    && |after| == |before| && WORD * argc <= |before|
    && (forall k: nat :: k < argc ==> WordMoved(before, after, k, delta))
    && (forall x :: WORD * argc <= x < |before| ==> after[x] == before[x])
  }

  ghost predicate WordMoved(before: seq<bv8>, after: seq<bv8>, k: nat, delta: int)
    requires |after| == |before|
  {
    WORD * k + WORD <= |before| &&
    WordAt(after, WORD * k) == (WordAt(before, WORD * k) + delta) % 0x1_0000_0000
  }

  lemma MoveOne(before: seq<bv8>, now: seq<bv8>, argc: nat, delta: int)
    requires Relocated(before, now, argc, delta) && WORD * argc + WORD <= |before|
    ensures WordAt(now, WORD * argc) == WordAt(before, WORD * argc)
    ensures var v := (WordAt(now, WORD * argc) + delta) % 0x1_0000_0000;
            Relocated(before, Overwrite(now, WORD * argc, Bytes(v)), argc + 1, delta)
  {
    hide WordAt, Bytes;
    SameWord(before, now, WORD * argc);
    var v := (WordAt(now, WORD * argc) + delta) % 0x1_0000_0000;
    var after := Overwrite(now, WORD * argc, Bytes(v));
    WordStored(now, WORD * argc, v);
    forall k: nat | k < argc + 1
      ensures WordMoved(before, after, k, delta)
    {
      if k < argc {
        assert WordMoved(before, now, k, delta);
        SameWord(now, after, WORD * k);
      }
    }
  }

  /** The loop of do_exec over the copied block of len bytes. */
  method Relocate(stackCopy: array<bv8>, len: nat, delta: int) returns (argc: nat)
    requires len <= stackCopy.Length && HasNull(stackCopy[..len])
    modifies stackCopy
    ensures FirstNull(old(stackCopy[..len]), argc)
    ensures Relocated(old(stackCopy[..len]), stackCopy[..len], argc, delta)
  {
    hide WordAt, Bytes;
    ghost var before := stackCopy[..len];
    ghost var last: nat :| IsNull(before, last);
    argc := 0;
    NothingMoved(before, delta);
    while WordAt(stackCopy[..], WORD * argc) != 0
      invariant argc <= last && WORD * argc + WORD <= len
      invariant Relocated(before, stackCopy[..len], argc, delta)
      invariant forall j: nat :: j < argc ==> !IsNull(before, j)
      decreases last - argc
    {
      MoveOne(before, stackCopy[..len], argc, delta);
      Prefix(stackCopy[..], len, WORD * argc);
      var v := (WordAt(stackCopy[..], WORD * argc) + delta) % 0x1_0000_0000;
      ghost var now := stackCopy[..len];
      Store(stackCopy, WORD * argc, Bytes(v));
      assert stackCopy[..len] == Overwrite(now, WORD * argc, Bytes(v));
      argc := argc + 1;
    }
    MoveOne(before, stackCopy[..len], argc, delta);
    Prefix(stackCopy[..], len, WORD * argc);
  }

  lemma NothingMoved(block: seq<bv8>, delta: int)
    ensures Relocated(block, block, 0, delta)
  {
  }

  lemma Prefix(mem: seq<bv8>, len: nat, off: nat)
    requires len <= |mem| && off + WORD <= len
    ensures WordAt(mem[..len], off) == WordAt(mem, off)
  {
  }

  lemma PointerIsNotNull(block: seq<bv8>, at: nat, argv: seq<seq<bv8>>, k: nat)
    requires Packed(block, at, argv) && k < |argv|
    ensures !IsNull(block, k)
  {
    hide WordAt, StringAt;
    PackedAt(block, at, argv, k);
  }

  lemma ArgumentMoves(before: seq<bv8>, after: seq<bv8>, at: nat, argv: seq<seq<bv8>>, j: nat)
    requires Packed(before, at, argv) && j < |argv|
    requires Relocated(before, after, |argv|, ORIG_STACK - at) && |before| == Total(argv) < PROC_ORIGIN_STACK
    ensures PointsTo(after, ORIG_STACK, WORD * j, Offset(argv, j)) && StringAt(after, Offset(argv, j), argv[j])
  {
    hide WordAt, StringAt, Offset, Packed;
    var o := Offset(argv, j);
    OffsetsApart(argv, j, |argv|);
    PackedAt(before, at, argv, j);
    assert WordMoved(before, after, j, ORIG_STACK - at);
    MovedPointer(at, o);
    SameString(before, after, o, argv[j]);
  }

  lemma MovedPointer(at: nat, o: nat)
    requires o < PROC_ORIGIN_STACK
    ensures (at + o + (ORIG_STACK - at)) % 0x1_0000_0000 == ORIG_STACK + o
  {
  }

  /** Moving the pointers of a packed block packs it for the new address. */
  lemma RelocatedIsPacked(before: seq<bv8>, after: seq<bv8>, at: nat, argv: seq<seq<bv8>>, argc: nat)
    requires Packed(before, at, argv) && |before| == Total(argv) < PROC_ORIGIN_STACK
    requires FirstNull(before, argc) && Relocated(before, after, argc, ORIG_STACK - at)
    ensures argc == |argv| && Packed(after, ORIG_STACK, argv)
  {
    hide WordAt, StringAt, PointsTo, WordMoved;
    assert IsNull(before, |argv|);
    forall k: nat | k < |argv|
      ensures !IsNull(before, k)
    {
      PointerIsNotNull(before, at, argv, k);
    }
    assert argc == |argv|;
    SameWord(before, after, WORD * |argv|);
    forall j: nat | j < |argv|
      ensures PointsTo(after, ORIG_STACK, WORD * j, Offset(argv, j)) && StringAt(after, Offset(argv, j), argv[j])
    {
      ArgumentMoves(before, after, at, argv, j);
    }
  }

  // ---- do_exec -------------------------------------------------------------

  /** A program header with the bytes that it loads; memSize is at least their number. */
  datatype Segment = Segment(load: bool, vaddr: nat, bytes: seq<bv8>, memSize: nat)

  predicate WellFormed(g: Segment) {
    |g.bytes| <= g.memSize
  }

  predicate Fits(g: Segment) {
    g.load ==> g.vaddr + g.memSize < PROC_IMAGE_SIZE
  }

  predicate Touches(g: Segment, lo: nat, hi: nat) {
    g.load && g.vaddr < hi && lo < g.vaddr + |g.bytes|
  }

  /** The image after the segments are loaded in order. */
  function Loaded(image: seq<bv8>, segments: seq<Segment>): (r: seq<bv8>)
    requires |image| == PROC_IMAGE_SIZE
    requires forall i :: 0 <= i < |segments| ==> WellFormed(segments[i]) && Fits(segments[i])
    ensures |r| == PROC_IMAGE_SIZE
  {
    if segments == [] then image
    else
      var g := segments[|segments| - 1];
      var r := Loaded(image, segments[..|segments| - 1]);
      assert WellFormed(g) && Fits(g);
      if g.load then Overwrite(r, g.vaddr, g.bytes) else r
  }

  lemma {:induction false} LoadedElsewhere(image: seq<bv8>, segments: seq<Segment>, lo: nat, hi: nat)
    requires |image| == PROC_IMAGE_SIZE && lo <= hi <= |image|
    requires forall i :: 0 <= i < |segments| ==> WellFormed(segments[i]) && Fits(segments[i])
    requires forall i :: 0 <= i < |segments| ==> !Touches(segments[i], lo, hi)
    ensures Loaded(image, segments)[lo..hi] == image[lo..hi]
  {
    if segments == [] {
    } else {
      LoadedElsewhere(image, segments[..|segments| - 1], lo, hi);
      var before, after := Loaded(image, segments[..|segments| - 1]), Loaded(image, segments);
      var g := segments[|segments| - 1];
      assert !Touches(g, lo, hi);
      forall x | lo <= x < hi
        ensures after[x] == before[x]
      {
      }
      assert after[lo..hi] == before[lo..hi];
    }
  }

  /** The loading loop of do_exec; not ok is a failed assert. */
  method Load(image: array<bv8>, segments: seq<Segment>) returns (ok: bool)
    requires image.Length == PROC_IMAGE_SIZE && forall i :: 0 <= i < |segments| ==> WellFormed(segments[i])
    modifies image
    ensures ok <==> forall i :: 0 <= i < |segments| ==> Fits(segments[i])
    ensures ok ==> image[..] == Loaded(old(image[..]), segments)
  {
    var i := 0;
    while i < |segments|
      invariant 0 <= i <= |segments| && forall j :: 0 <= j < i ==> Fits(segments[j])
      invariant image[..] == Loaded(old(image[..]), segments[..i])
    {
      assert segments[..i + 1][..i] == segments[..i];
      if segments[i].load {
        if !(segments[i].vaddr + segments[i].memSize < PROC_IMAGE_SIZE) {
          return false;
        }
        Store(image, segments[i].vaddr, segments[i].bytes);
      }
      i := i + 1;
    }
    assert segments[..i] == segments;
    ok := true;
  }

  /** The block that do_exec finds: what is at buf once the segments are loaded. */
  function Block(image: seq<bv8>, segments: seq<Segment>, buf: nat, len: nat): (b: seq<bv8>)
    requires |image| == PROC_IMAGE_SIZE && buf + len <= PROC_IMAGE_SIZE
    requires forall i :: 0 <= i < |segments| ==> WellFormed(segments[i]) && Fits(segments[i])
    ensures |b| == len
  {
    Loaded(image, segments)[buf..buf + len]
  }

  /** The argument stack: copied out, relocated, and copied to the top of the image. */
  method SetUpArguments(image: array<bv8>, buf: nat, len: nat) returns (argc: nat, ghost block: seq<bv8>)
    requires image.Length == PROC_IMAGE_SIZE && buf + len <= PROC_IMAGE_SIZE && len <= PROC_ORIGIN_STACK
    requires len > 0 ==> HasNull(image[buf..buf + len])
    modifies image
    ensures MovedBlock(old(image[buf..buf + len]), block, argc, buf)
    ensures image[..] == Overwrite(old(image[..]), ORIG_STACK, block)
  {
    hide FirstNull, Relocated, HasNull;
    ghost var found := image[buf..buf + len];
    var stackCopy := new bv8[PROC_ORIGIN_STACK];
    Store(stackCopy, 0, image[buf..buf + len]);
    assert stackCopy[..len] == found;
    argc := 0;
    if len > 0 {
      argc := Relocate(stackCopy, len, ORIG_STACK - buf);
    }
    block := stackCopy[..len];
    Store(image, ORIG_STACK, stackCopy[..len]);
  }

  /** The part of do_exec that rewrites the caller's image: the segments, then the arguments.  The
      new program gets argc and the address ORIG_STACK. */
  method DoExec(image: array<bv8>, segments: seq<Segment>, buf: nat, len: nat)
    returns (ok: bool, argc: nat, ghost block: seq<bv8>)
    requires image.Length == PROC_IMAGE_SIZE && buf + len <= PROC_IMAGE_SIZE && len <= PROC_ORIGIN_STACK
    requires forall i :: 0 <= i < |segments| ==> WellFormed(segments[i])
    requires (forall i :: 0 <= i < |segments| ==> Fits(segments[i])) && len > 0 ==>
               HasNull(Block(image[..], segments, buf, len))
    modifies image
    ensures ok <==> forall i :: 0 <= i < |segments| ==> Fits(segments[i])
    ensures ok ==>
              && MovedBlock(Block(old(image[..]), segments, buf, len), block, argc, buf)
              && image[..] == Overwrite(Loaded(old(image[..]), segments), ORIG_STACK, block)
  {
    hide Loaded, MovedBlock, HasNull, Fits, WellFormed;
    argc, block := 0, [];
    ok := Load(image, segments);
    if ok {
      assert image[buf..buf + len] == image[..][buf..buf + len];
      argc, block := SetUpArguments(image, buf, len);
    }
  }

  /** What do_exec makes of the block it found. */
  ghost predicate MovedBlock(found: seq<bv8>, block: seq<bv8>, argc: nat, buf: nat) {
    && |block| == |found| <= PROC_ORIGIN_STACK
    && if found == [] then argc == 0 else FirstNull(found, argc) && Relocated(found, block, argc, ORIG_STACK - buf)
  }

  // ---- what the new program sees -------------------------------------------

  /** The C string at address o. */
  function ReadString(mem: seq<bv8>, o: nat): seq<bv8>
    decreases |mem| - o
  {
    if o >= |mem| || mem[o] == 0 then [] else [mem[o]] + ReadString(mem, o + 1)
  }

  lemma {:induction false} ReadsString(mem: seq<bv8>, o: nat, s: seq<bv8>)
    requires StringAt(mem, o, s) && 0 !in s
    ensures ReadString(mem, o) == s
    decreases |s|
  {
    if s == [] {
    } else {
      assert s[0] in s && mem[o + 0] == s[0];
      forall k | 0 <= k < |s[1..]|
        ensures mem[o + 1 + k] == s[1..][k]
      {
        assert mem[o + (k + 1)] == s[k + 1];
      }
      ReadsString(mem, o + 1, s[1..]);
    }
  }

  /** The argv array at address a holds exactly these arguments, with a null pointer behind them. */
  ghost predicate Arguments(mem: seq<bv8>, a: nat, argv: seq<seq<bv8>>) {
    && a + WORD * |argv| + WORD <= |mem|
    && (forall i: nat :: i < |argv| ==> ReadString(mem, WordAt(mem, a + WORD * i)) == argv[i])
    && WordAt(mem, a + WORD * |argv|) == 0
  }

  /** The block lies in memory at address a. */
  ghost predicate LiesAt(mem: seq<bv8>, a: nat, block: seq<bv8>) {
    a + |block| <= |mem| && forall x :: 0 <= x < |block| ==> mem[a + x] == block[x]
  }

  lemma WordOfBlock(mem: seq<bv8>, a: nat, block: seq<bv8>, o: nat)
    requires LiesAt(mem, a, block) && o + WORD <= |block|
    ensures WordAt(mem, a + o) == WordAt(block, o)
  {
    assert block[o] == mem[a + o] && block[o + 1] == mem[a + (o + 1)];
    assert block[o + 2] == mem[a + (o + 2)] && block[o + 3] == mem[a + (o + 3)];
  }

  lemma StringOfBlock(mem: seq<bv8>, a: nat, block: seq<bv8>, o: nat, s: seq<bv8>)
    requires LiesAt(mem, a, block) && StringAt(block, o, s) && 0 !in s
    ensures ReadString(mem, a + o) == s
  {
    forall k | 0 <= k < |s|
      ensures mem[a + o + k] == s[k]
    {
      assert block[o + k] == mem[a + (o + k)];
    }
    assert block[o + |s|] == mem[a + (o + |s|)];
    ReadsString(mem, a + o, s);
  }

  lemma BlockArguments(mem: seq<bv8>, block: seq<bv8>, argv: seq<seq<bv8>>)
    requires |mem| == PROC_IMAGE_SIZE && |block| <= PROC_ORIGIN_STACK && CStrings(argv)
    requires LiesAt(mem, ORIG_STACK, block) && Packed(block, ORIG_STACK, argv)
    ensures Arguments(mem, ORIG_STACK, argv)
  {
    hide WordAt, StringAt, ReadString, LiesAt, Offset;
    forall i: nat | i < |argv|
      ensures ReadString(mem, WordAt(mem, ORIG_STACK + WORD * i)) == argv[i]
    {
      PackedAt(block, ORIG_STACK, argv, i);
      WordOfBlock(mem, ORIG_STACK, block, WORD * i);
      StringOfBlock(mem, ORIG_STACK, block, Offset(argv, i), argv[i]);
    }
    WordOfBlock(mem, ORIG_STACK, block, WORD * |argv|);
  }

  /** The round trip: whatever execv packed at buf, the new program finds, if no loaded segment
      touches the block. */
  lemma ArgumentsSurvive(image: seq<bv8>, segments: seq<Segment>, buf: nat, argv: seq<seq<bv8>>,
                         after: seq<bv8>, block: seq<bv8>, argc: nat)
    requires |image| == PROC_IMAGE_SIZE && CStrings(argv) && Total(argv) < PROC_ORIGIN_STACK
    requires buf + Total(argv) <= PROC_IMAGE_SIZE && Packed(image[buf..buf + Total(argv)], buf, argv)
    requires forall i :: 0 <= i < |segments| ==> WellFormed(segments[i]) && Fits(segments[i])
    requires forall i :: 0 <= i < |segments| ==> !Touches(segments[i], buf, buf + Total(argv))
    requires |block| == Total(argv) && MovedBlock(Block(image, segments, buf, Total(argv)), block, argc, buf)
    requires after == Overwrite(Loaded(image, segments), ORIG_STACK, block)
    ensures argc == |argv| && Arguments(after, ORIG_STACK, argv)
  {
    hide Loaded, Packed, Relocated, FirstNull, WordAt;
    var found := image[buf..buf + Total(argv)];
    LoadedElsewhere(image, segments, buf, buf + Total(argv));
    RelocatedIsPacked(found, block, buf, argv, argc);
    assert LiesAt(after, ORIG_STACK, block);
    BlockArguments(after, block, argv);
  }

  /** The bytes of a segment are at its address once the segments are loaded, if none that is loaded
      later touches them. */
  lemma {:induction false} SegmentIsLoaded(image: seq<bv8>, segments: seq<Segment>, k: nat)
    requires |image| == PROC_IMAGE_SIZE && k < |segments| && segments[k].load
    requires forall i :: 0 <= i < |segments| ==> WellFormed(segments[i]) && Fits(segments[i])
    requires forall i :: k < i < |segments| ==>
               !Touches(segments[i], segments[k].vaddr, segments[k].vaddr + |segments[k].bytes|)
    ensures var g := segments[k];
            g.vaddr + |g.bytes| <= PROC_IMAGE_SIZE &&
            Loaded(image, segments)[g.vaddr..g.vaddr + |g.bytes|] == g.bytes
  {
    var g, m := segments[k], |segments| - 1;
    assert WellFormed(g) && Fits(g);
    var before, after := Loaded(image, segments[..m]), Loaded(image, segments);
    if k == m {
      assert after == Overwrite(before, g.vaddr, g.bytes);
    } else {
      SegmentIsLoaded(image, segments[..m], k);
      assert !Touches(segments[m], g.vaddr, g.vaddr + |g.bytes|);
      assert after[g.vaddr..g.vaddr + |g.bytes|] == before[g.vaddr..g.vaddr + |g.bytes|];
    }
  }

  /** The new program finds its segments in its image, beside the arguments. */
  lemma ProgramIsLoaded(image: seq<bv8>, segments: seq<Segment>, after: seq<bv8>, block: seq<bv8>, k: nat)
    requires |image| == PROC_IMAGE_SIZE && k < |segments| && segments[k].load
    requires forall i :: 0 <= i < |segments| ==> WellFormed(segments[i]) && Fits(segments[i])
    requires forall i :: k < i < |segments| ==>
               !Touches(segments[i], segments[k].vaddr, segments[k].vaddr + |segments[k].bytes|)
    requires |block| <= PROC_ORIGIN_STACK && segments[k].vaddr + |segments[k].bytes| <= ORIG_STACK
    requires after == Overwrite(Loaded(image, segments), ORIG_STACK, block)
    ensures after[segments[k].vaddr..segments[k].vaddr + |segments[k].bytes|] == segments[k].bytes
  {
    hide Loaded;
    SegmentIsLoaded(image, segments, k);
    var lo, hi := segments[k].vaddr, segments[k].vaddr + |segments[k].bytes|;
    assert after[lo..hi] == Loaded(image, segments)[lo..hi];
  }

  /** A segment loaded over the block can lose every argument. */
  lemma SegmentLosesArguments(image: seq<bv8>, buf: nat, len: nat, block: seq<bv8>, argc: nat)
    requires |image| == PROC_IMAGE_SIZE && WORD <= len && buf + len < PROC_IMAGE_SIZE
    requires var g := Segment(true, buf, [0, 0, 0, 0], WORD);
             MovedBlock(Block(image, [g], buf, len), block, argc, buf)
    ensures argc == 0
  {
    var g := Segment(true, buf, [0, 0, 0, 0], WORD);
    var found := Block(image, [g], buf, len);
    assert Loaded(image, [g]) == Overwrite(image, buf, [0, 0, 0, 0]);
    ZeroByte();
    assert IsNull(found, 0);
  }
}
