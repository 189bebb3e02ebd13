/** The line discipline of a terminal and its key ring (kernel/tty.c). */
module Tty {

  const TTY_BUFFER_SIZE := 256
  const TTY_OUT_BUF_LEN := 2
  const BACKSPACE := 8
  const NEWLINE := 10

  /** A key (32 bits) stored into a signed char. */
  function AsChar(key: nat): int {
    if key % 256 < 128 then key % 256 else key % 256 - 256
  }

  function AsChars(keys: seq<nat>): (chars: seq<int>)
    ensures |chars| == |keys| && forall i :: 0 <= i < |keys| ==> chars[i] == AsChar(keys[i])
  {
    seq(|keys|, i requires 0 <= i < |keys| => AsChar(keys[i]))
  }

  predicate Printable(ch: int) {
    32 <= ch <= 126
  }

  // ---- the discipline, one character at a time -----------------------------

  /** A terminal seen from the reader: want is the length that the pending read asked for, 0 if
      none is pending; text is what it has so far; lines are the answers to earlier reads. */
  datatype Line = Line(want: nat, text: seq<int>, screen: seq<int>, lines: seq<seq<int>>)

  /** Between two characters, a pending read is short of what it asked for. */
  predicate Open(l: Line) {
    if l.want == 0 then l.text == [] else |l.text| < l.want
  }

  function Finish(l: Line, text: seq<int>, echo: seq<int>): Line {
    Line(0, [], l.screen + echo, l.lines + [text])
  }

  /** One character of tty_write's loop. */
  function Feed(l: Line, ch: int): (r: Line)
    requires Open(l)
    ensures Open(r)
  {
    if l.want == 0 then l
    else if Printable(ch) then
      if |l.text| + 1 == l.want then Finish(l, l.text + [ch], [ch, ch])
      else l.(text := l.text + [ch], screen := l.screen + [ch])
    else if ch == BACKSPACE && l.text != [] then
      l.(text := l.text[..|l.text| - 1], screen := l.screen + [ch])
    else if ch == NEWLINE then Finish(l, l.text, [ch])
    else l
  }

  function FeedAll(l: Line, chars: seq<int>): (r: Line)
    requires Open(l)
    ensures Open(r)
    decreases |chars|
  {
    if chars == [] then l else FeedAll(Feed(l, chars[0]), chars[1..])
  }

  lemma FeedFirst(l: Line, chars: seq<int>)
    requires Open(l)
    ensures FeedAll(l, chars) == if chars == [] then l else FeedAll(Feed(l, chars[0]), chars[1..])
  {
  }

  lemma {:induction false} FeedLast(l: Line, chars: seq<int>, ch: int)
    requires Open(l)
    ensures FeedAll(l, chars + [ch]) == Feed(FeedAll(l, chars), ch)
    decreases |chars|
  {
    if chars == [] {
      assert chars + [ch] == [ch];
      assert FeedAll(Feed(l, ch), []) == Feed(l, ch);
    } else {
      assert (chars + [ch])[1..] == chars[1..] + [ch];
      FeedLast(Feed(l, chars[0]), chars[1..], ch);
    }
  }

  // ---- what the reader gets ------------------------------------------------

  /** Printable characters are appended, a backspace takes the last one away, and everything else
      is ignored. */
  function Edited(chars: seq<int>): (text: seq<int>)
    ensures |text| <= |chars|
  {
    if chars == [] then []
    else
      var ch, before := chars[|chars| - 1], Edited(chars[..|chars| - 1]);
      if Printable(ch) then before + [ch]
      else if ch == BACKSPACE && before != [] then before[..|before| - 1]
      else before
  }

  /** Character j is a newline or brings the edited line to n characters. */
  predicate Completes(chars: seq<int>, n: nat, j: nat)
    requires j < |chars|
  {
    chars[j] == NEWLINE || |Edited(chars[..j + 1])| == n
  }

  /** i is the first character that completes the line. */
  ghost predicate EndsAt(chars: seq<int>, n: nat, i: nat) {
    i < |chars| && Completes(chars, n, i) && forall j: nat :: j < i ==> !Completes(chars, n, j)
  }

  ghost predicate NeverEnds(chars: seq<int>, n: nat) {
    forall j: nat :: j < |chars| ==> !Completes(chars, n, j)
  }

  lemma CompletesBefore(chars: seq<int>, n: nat, m: nat, j: nat)
    requires j < m <= |chars|
    ensures Completes(chars[..m], n, j) == Completes(chars, n, j) && chars[..m][..j + 1] == chars[..j + 1]
  {
    assert chars[..m][..j + 1] == chars[..j + 1];
  }

  /** A pending read after the characters chars, none of which completed it. */
  ghost predicate StillOpen(l: Line, r: Line, n: nat, chars: seq<int>) {
    r.want == n && r.text == Edited(chars) && r.lines == l.lines
  }

  /** As long as no character completes the line, the read stays pending with the edited line. */
  lemma {:induction false} ReaderWaits(l: Line, n: nat, chars: seq<int>)
    requires n >= 1 && l.want == n && l.text == [] && NeverEnds(chars, n)
    ensures StillOpen(l, FeedAll(l, chars), n, chars)
    decreases |chars|
  {
    if chars == [] {
    } else {
      var m := |chars| - 1;
      var before, ch := chars[..m], chars[m];
      assert chars == before + [ch];
      FeedLast(l, before, ch);
      forall j: nat | j < m
        ensures !Completes(before, n, j)
      {
        CompletesBefore(chars, n, m, j);
      }
      ReaderWaits(l, n, before);
      assert chars[..m + 1] == chars && !Completes(chars, n, m);
    }
  }

  lemma {:induction false} DropsWithoutReader(l: Line, chars: seq<int>)
    requires l.want == 0 && l.text == []
    ensures FeedAll(l, chars) == l
    decreases |chars|
  {
    if chars == [] {
    } else {
      DropsWithoutReader(l, chars[1..]);
    }
  }

  lemma {:induction false} FeedParts(l: Line, a: seq<int>, b: seq<int>)
    requires Open(l)
    ensures FeedAll(l, a + b) == FeedAll(FeedAll(l, a), b)
    decreases |a|
  {
    if a == [] {
      assert a + b == b;
    } else {
      assert (a + b)[1..] == a[1..] + b;
      FeedParts(Feed(l, a[0]), a[1..], b);
    }
  }

  /** For every stream of characters and n >= 1: the read is answered once, by the first character
      that completes the line, with the edited line of at most n characters; what is typed behind
      it is dropped. */
  lemma ReaderGets(l: Line, n: nat, chars: seq<int>, i: nat)
    requires n >= 1 && l.want == n && l.text == [] && EndsAt(chars, n, i)
    ensures var r, line := FeedAll(l, chars), Edited(chars[..i + 1]);
            r.want == 0 && r.lines == l.lines + [line] && |line| <= n
  {
    var before, ch := chars[..i], chars[i];
    forall j: nat | j < i
      ensures !Completes(before, n, j)
    {
      CompletesBefore(chars, n, i, j);
    }
    ReaderWaits(l, n, before);
    assert chars[..i + 1] == before + [ch];
    FeedLast(l, before, ch);
    assert chars[..i + 1][..i] == before;
    var r := FeedAll(l, chars[..i + 1]);
    assert chars == chars[..i + 1] + chars[i + 1..];
    FeedParts(l, chars[..i + 1], chars[i + 1..]);
    DropsWithoutReader(r, chars[i + 1..]);
  }

  // ---- what the screen shows -----------------------------------------------

  /** The echo of a line: printable characters, and backspaces that take one away. */
  function Echo(chars: seq<int>): (shown: seq<int>)
    ensures |shown| <= |chars|
  {
    if chars == [] then []
    else
      var ch, before := chars[|chars| - 1], chars[..|chars| - 1];
      Echo(before) + if Printable(ch) || (ch == BACKSPACE && Edited(before) != []) then [ch] else []
  }

  /** What is shown, with its backspaces carried out, is the edited line. */
  lemma {:induction false} EchoShowsLine(chars: seq<int>)
    ensures Edited(Echo(chars)) == Edited(chars)
  {
    if chars == [] {
    } else {
      var ch, before := chars[|chars| - 1], chars[..|chars| - 1];
      EchoShowsLine(before);
      assert (Echo(before) + [ch])[..|Echo(before)|] == Echo(before);
      assert Echo(before) + [] == Echo(before);
    }
  }

  lemma {:induction false} WaitingShows(l: Line, n: nat, chars: seq<int>)
    requires n >= 1 && l.want == n && l.text == [] && NeverEnds(chars, n)
    ensures FeedAll(l, chars).screen == l.screen + Echo(chars)
    decreases |chars|
  {
    if chars == [] {
    } else {
      var m := |chars| - 1;
      var before, ch := chars[..m], chars[m];
      assert chars == before + [ch];
      FeedLast(l, before, ch);
      forall j: nat | j < m
        ensures !Completes(before, n, j)
      {
        CompletesBefore(chars, n, m, j);
      }
      WaitingShows(l, n, before);
      ReaderWaits(l, n, before);
      assert chars[..m + 1] == chars && !Completes(chars, n, m);
    }
  }

  /** The completing character shows as part of the line, if it is, and once more. */
  lemma EndShows(l: Line, n: nat, before: seq<int>, ch: int)
    requires Open(l) && l.want == n >= 1 && l.text == Edited(before) && Completes(before + [ch], n, |before|)
    ensures Feed(l, ch).want == 0 && Feed(l, ch).text == []
    ensures Echo(before) <= Echo(before + [ch])
    ensures Feed(l, ch).screen == l.screen + Echo(before + [ch])[|Echo(before)|..] + [ch]
  {
    var all := before + [ch];
    assert all[..|before|] == before && all[..|before| + 1] == all;
  }

  /** A completed read shows the echo of its line and then the completing character: a newline once, but
      the last character of a full line twice.  What is typed behind it is not shown. */
  lemma ReadShows(l: Line, n: nat, chars: seq<int>, i: nat)
    requires n >= 1 && l.want == n && l.text == [] && EndsAt(chars, n, i)
    ensures FeedAll(l, chars).screen == l.screen + Echo(chars[..i + 1]) + [chars[i]]
  {
    hide Feed, FeedAll, Edited, Echo;
    var before, ch := chars[..i], chars[i];
    forall j: nat | j < i
      ensures !Completes(before, n, j)
    {
      CompletesBefore(chars, n, i, j);
    }
    CompletesBefore(chars, n, i + 1, i);
    ReaderWaits(l, n, before);
    WaitingShows(l, n, before);
    assert chars[..i + 1] == before + [ch];
    FeedLast(l, before, ch);
    EndShows(FeedAll(l, before), n, before, ch);
    var r := FeedAll(l, chars[..i + 1]);
    assert chars == chars[..i + 1] + chars[i + 1..];
    FeedParts(l, chars[..i + 1], chars[i + 1..]);
    DropsWithoutReader(r, chars[i + 1..]);
  }

  /** One of the two cases applies. */
  lemma {:induction false} EndsOrNot(chars: seq<int>, n: nat)
    ensures NeverEnds(chars, n) <==> !exists i: nat :: EndsAt(chars, n, i)
    decreases |chars|
  {
    if !NeverEnds(chars, n) {
      var j: nat :| j < |chars| && Completes(chars, n, j);
      FirstEnd(chars, n, j);
    }
  }

  lemma {:induction false} FirstEnd(chars: seq<int>, n: nat, j: nat)
    requires j < |chars| && Completes(chars, n, j)
    ensures exists i: nat :: EndsAt(chars, n, i)
  {
    if k: nat :| k < j && Completes(chars, n, k) {
      FirstEnd(chars, n, k);
    } else {
      assert EndsAt(chars, n, j);
    }
  }

  // ---- the key ring --------------------------------------------------------

  /** The keys in a ring with `count` keys from position tail on, oldest first. */
  function Ring(buffer: seq<nat>, tail: nat, count: nat): (keys: seq<nat>)
    requires |buffer| == TTY_BUFFER_SIZE
    ensures |keys| == count && forall i :: 0 <= i < count ==> keys[i] == buffer[(tail + i) % TTY_BUFFER_SIZE]
  {
    seq(count, i requires 0 <= i < count => buffer[(tail + i) % TTY_BUFFER_SIZE])
  }

  lemma RingPut(buffer: seq<nat>, tail: nat, count: nat, key: nat)
    requires |buffer| == TTY_BUFFER_SIZE && tail < TTY_BUFFER_SIZE && count < TTY_BUFFER_SIZE
    ensures Ring(buffer[(tail + count) % TTY_BUFFER_SIZE := key], tail, count + 1) == Ring(buffer, tail, count) + [key]
  {
  }

  lemma RingTake(buffer: seq<nat>, tail: nat, count: nat)
    requires |buffer| == TTY_BUFFER_SIZE && tail < TTY_BUFFER_SIZE && 0 < count <= TTY_BUFFER_SIZE
    ensures Ring(buffer, tail, count)[0] == buffer[tail]
    ensures Ring(buffer, (tail + 1) % TTY_BUFFER_SIZE, count - 1) == Ring(buffer, tail, count)[1..]
  {
    var a, b := Ring(buffer, (tail + 1) % TTY_BUFFER_SIZE, count - 1), Ring(buffer, tail, count);
    forall i | 0 <= i < count - 1
      ensures a[i] == b[i + 1]
    {
      assert ((tail + 1) % TTY_BUFFER_SIZE + i) % TTY_BUFFER_SIZE == (tail + (i + 1)) % TTY_BUFFER_SIZE;
    }
  }

  // ---- the terminal --------------------------------------------------------

  class Terminal {
    /** The key ring: head and tail are indices instead of pointers. */
    const buffer: array<nat>
    var head: nat
    var tail: nat
    var count: nat
    /** The pending read: how many characters are still wanted and how many the reader has. */
    var reqedCnt: nat
    var sendedCnt: nat
    var reqerBuf: array<int>

    /** What out_char wrote, and the lines announced by RESUME_PROC messages. */
    var screen: seq<int>
    ghost var lines: seq<seq<int>>

    ghost predicate Valid()
      reads this, reqerBuf, buffer
    {
      && buffer.Length == TTY_BUFFER_SIZE && head < TTY_BUFFER_SIZE && tail < TTY_BUFFER_SIZE
      && count <= TTY_BUFFER_SIZE && head == (tail + count) % TTY_BUFFER_SIZE
      && (reqedCnt > 0 ==> sendedCnt + reqedCnt <= reqerBuf.Length)
    }

    /** The keys in the ring, oldest first. */
    ghost function Keys(): (keys: seq<nat>)
      reads this, buffer
      requires buffer.Length == TTY_BUFFER_SIZE
      ensures |keys| == count
    {
      Ring(buffer[..], tail, count)
    }

    ghost function State(): Line
      reads this, reqerBuf
      requires reqedCnt > 0 ==> sendedCnt <= reqerBuf.Length
    {
      if reqedCnt > 0 then Line(sendedCnt + reqedCnt, reqerBuf[..sendedCnt], screen, lines)
      else Line(0, [], screen, lines)
    }

    /** The last completed line is in its reader's buffer, from the start. */
    ghost predicate Delivered()
      reads this, reqerBuf
    {
      && reqedCnt == 0 && |lines| > 0
      && var line := lines[|lines| - 1]; |line| <= reqerBuf.Length && reqerBuf[..|line|] == line
    }

    /** init_tty */
    constructor (noReader: array<int>)
      ensures Valid() && fresh(buffer) && Keys() == [] && State() == Line(0, [], [], [])
    {
      buffer := new nat[TTY_BUFFER_SIZE](_ => 0);
      head, tail, count := 0, 0, 0;
      reqedCnt, sendedCnt, reqerBuf := 0, 0, noReader;
      screen, lines := [], [];
    }

    method OutChar(ch: int)
      modifies this`screen
      ensures screen == old(screen) + [ch]
    {
      screen := screen + [ch];
    }

    /** put_key2tty: a queue of at most 256 keys; a key for a full ring is lost. */
    method PutKey(key: nat)
      requires Valid() && reqerBuf as object != buffer as object
      modifies this`head, this`count, buffer
      ensures Valid() && State() == old(State())
      ensures Keys() == if |old(Keys())| < TTY_BUFFER_SIZE then old(Keys()) + [key] else old(Keys())
    {
      if count < TTY_BUFFER_SIZE {
        RingPut(buffer[..], tail, count, key);
        buffer[head] := key;
        head := head + 1;
        if head == TTY_BUFFER_SIZE {
          head := 0;
        }
        count := count + 1;
      }
    }

    /** The first lines of tty_write's loop. */
    method TakeKey() returns (key: nat)
      requires Valid() && count > 0
      modifies this`tail, this`count
      ensures Valid() && State() == old(State())
      ensures key == old(Keys())[0] && Keys() == old(Keys())[1..]
    {
      RingTake(buffer[..], tail, count);
      key := buffer[tail];
      tail := tail + 1;
      if tail == TTY_BUFFER_SIZE {
        tail := 0;
      }
      count := count - 1;
    }

    /** The line is complete: it is announced to its reader. */
    method Complete(ch: int)
      requires buffer.Length == TTY_BUFFER_SIZE && sendedCnt <= reqerBuf.Length
      modifies this`screen, this`reqedCnt, this`lines
      ensures screen == old(screen) + [ch] && lines == old(lines) + [reqerBuf[..sendedCnt]] && reqedCnt == 0
      ensures Delivered() && Keys() == old(Keys())
    {
      OutChar(ch);
      lines := lines + [reqerBuf[..sendedCnt]];
      reqedCnt := 0;
    }

    /** The rest of the loop: one character for the reader. */
    method Handle(ch: int)
      requires Valid() && Open(State()) && reqerBuf as object != buffer as object
      modifies this`screen, this`sendedCnt, this`reqedCnt, this`lines, reqerBuf
      ensures Valid() && Keys() == old(Keys()) && State() == Feed(old(State()), ch)
      ensures |lines| >= |old(lines)| && (old(Delivered()) || |lines| > |old(lines)| ==> Delivered())
    {
      hide Ring;
      if reqedCnt > 0 {
        ghost var text := reqerBuf[..sendedCnt];
        if Printable(ch) {
          OutChar(ch);
          reqerBuf[sendedCnt] := ch;
          sendedCnt := sendedCnt + 1;
          reqedCnt := reqedCnt - 1;
          assert reqerBuf[..sendedCnt] == text + [ch];
        } else if ch == BACKSPACE && sendedCnt > 0 {
          OutChar(ch);
          sendedCnt := sendedCnt - 1;
          reqedCnt := reqedCnt + 1;
          assert reqerBuf[..sendedCnt] == text[..sendedCnt];
        }
        if ch == NEWLINE || reqedCnt == 0 {
          Complete(ch);
        }
      }
    }

    /** One round of tty_write's loop. */
    method WriteOne()
      requires Valid() && Open(State()) && reqerBuf as object != buffer as object && count > 0
      modifies this`tail, this`count, this`screen, this`sendedCnt, this`reqedCnt, this`lines, reqerBuf
      ensures Valid() && Open(State()) && Keys() == old(Keys())[1..]
      ensures State() == Feed(old(State()), AsChar(old(Keys())[0]))
      ensures |lines| >= |old(lines)| && (old(Delivered()) || |lines| > |old(lines)| ==> Delivered())
    {
      hide Feed, Ring, AsChar;
      var key := TakeKey();
      Handle(AsChar(key));
    }

    /** tty_write: empties the ring into the pending read; without one the keys are lost. */
    method Write()
      requires Valid() && Open(State()) && reqerBuf as object != buffer as object
      modifies this`tail, this`count, this`screen, this`sendedCnt, this`reqedCnt, this`lines, reqerBuf
      ensures Valid() && Keys() == [] && State() == FeedAll(old(State()), AsChars(old(Keys())))
      ensures |lines| > |old(lines)| ==> Delivered()
    {
      hide Feed, FeedAll, Ring, AsChar, Open;
      ghost var l0, chars := State(), AsChars(Keys());
      while count > 0
        invariant Valid() && Open(State()) && FeedAll(l0, chars) == FeedAll(State(), AsChars(Keys()))
        invariant |lines| >= |old(lines)| && (|lines| > |old(lines)| ==> Delivered())
        decreases count
      {
        ghost var keys := Keys();
        FeedFirst(State(), AsChars(keys));
        assert AsChars(keys[1..]) == AsChars(keys)[1..];
        WriteOne();
      }
      FeedFirst(State(), []);
      assert AsChars(Keys()) == [];
    }

    /** tty_do_read: a new reader; one that was still pending is forgotten. */
    method DoRead(buf: array<int>, n: nat)
      requires Valid() && n <= buf.Length
      modifies this`reqerBuf, this`sendedCnt, this`reqedCnt
      ensures Valid() && Keys() == old(Keys()) && reqerBuf == buf
      ensures State() == Line(n, [], old(screen), old(lines))
    {
      reqerBuf := buf;
      sendedCnt := 0;
      reqedCnt := n;
    }

    /** tty_do_write: everything goes to the screen in order, two characters at a time. */
    method DoWrite(data: seq<int>)
      modifies this`screen
      ensures screen == old(screen) + data
    {
      var i, p := |data|, 0;
      while i > 0
        invariant 0 <= p && 0 <= i && i + p == |data| && screen == old(screen) + data[..p]
      {
        var bytes := if TTY_OUT_BUF_LEN < i then TTY_OUT_BUF_LEN else i;
        var buf := data[p..p + bytes];
        ghost var shown := screen;
        var j := 0;
        while j < bytes
          invariant 0 <= j <= bytes && screen == shown + buf[..j]
        {
          OutChar(buf[j]);
          j := j + 1;
        }
        assert data[..p] + buf[..bytes] == data[..p + bytes];
        i := i - bytes;
        p := p + bytes;
      }
      assert data[..p] == data;
    }
  }
}
