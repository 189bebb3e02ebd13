/** How much a terminal request is answered with: a read with the line that its caller typed, a write with
    all that was written. */
module TtyAnswers {
  import opened ProcTable
  import opened Tty
  import opened TtyProtocol

  /** The characters typed on terminal t. */
  function KeysOn(steps: seq<Step>, t: nat): seq<int> {
    if steps == [] then []
    else (if steps[0].Key? && steps[0].t == t then [steps[0].ch] else []) + KeysOn(steps[1..], t)
  }

  /** The read of p is pending, and chars were typed for it. */
  ghost predicate Pending(s: State, p: Pid, t: nat, n: nat, chars: seq<int>) {
    && Sized(s) && t < NR_TTY && s.clients[p] == Waiting(t, READ(n))
    && s.terms[t].reader == p && s.terms[t].line.want == n > 0
    && s.terms[t].line.text == Edited(chars) && NeverEnds(chars, n)
  }

  /** The line is complete, and its length is on the way to p. */
  ghost predicate Returning(s: State, p: Pid, t: nat, n: nat, cnt: nat) {
    && Sized(s) && t < NR_TTY && s.clients[p] == Waiting(t, READ(n))
    && (s.task == Resuming(p, t, cnt) || s.fs == Answering(p, cnt))
  }

  // ---- one step ------------------------------------------------------------

  lemma EditedOne(chars: seq<int>, ch: int)
    ensures var text := Edited(chars);
            Edited(chars + [ch]) ==
            if Printable(ch) then text + [ch]
            else if ch == BACKSPACE && text != [] then text[..|text| - 1]
            else text
  {
    assert (chars + [ch])[..|chars|] == chars;
  }

  /** One more character: it completes the line iff the discipline says so. */
  lemma FeedTracks(l: Line, n: nat, chars: seq<int>, ch: int)
    requires Open(l) && l.want == n > 0 && l.text == Edited(chars) && NeverEnds(chars, n)
    ensures var r, all := Feed(l, ch), chars + [ch];
            if Completed(l, r) then EndsAt(all, n, |chars|) && r.lines == l.lines + [Edited(all)]
            else NeverEnds(all, n) && r.want == n && r.text == Edited(all)
  {
    hide Edited;
    var all := chars + [ch];
    EditedOne(chars, ch);
    assert all[..|chars| + 1] == all && all[..|chars|] == chars;
    forall j: nat | j < |chars|
      ensures !Completes(all, n, j)
    {
      CompletesBefore(all, n, |chars|, j);
    }
  }

  lemma EndsAtLonger(chars: seq<int>, more: seq<int>, n: nat, i: nat)
    requires EndsAt(chars, n, i)
    ensures EndsAt(chars + more, n, i) && (chars + more)[..i + 1] == chars[..i + 1]
  {
    var all := chars + more;
    assert all[..|chars|] == chars;
    forall j: nat | j < |chars|
      ensures Completes(all, n, j) == Completes(chars, n, j)
    {
      CompletesBefore(all, n, |chars|, j);
    }
    CompletesBefore(all, n, |chars|, i);
  }

  lemma PendingAtKey(s: State, x: Step, p: Pid, t: nat, n: nat, chars: seq<int>)
    requires Inv(s) && Enabled(s, x) && x.Key? && Take(s, x).Next? && Pending(s, p, t, n, chars)
    ensures var s', all := Take(s, x).s, if x.t == t then chars + [x.ch] else chars;
            || Pending(s', p, t, n, all)
            || (EndsAt(all, n, |chars|) && Returning(s', p, t, n, |Edited(all)|) && x.t == t)
  {
    hide Placed, Matched, OneReader, Counted, Feed, Edited, NeverEnds, EndsAt;
    SizedStep(s, x);
    if x.t == t {
      FeedTracks(s.terms[t].line, n, chars, x.ch);
    }
  }

  /** While the read is pending, its caller is not answered, and nobody else reads from the terminal. */
  lemma PendingElsewhere(s: State, x: Step, p: Pid, t: nat, n: nat, chars: seq<int>)
    requires Inv(s) && Enabled(s, x) && !x.Key? && Take(s, x).Next? && Pending(s, p, t, n, chars)
    ensures Pending(Take(s, x).s, p, t, n, chars)
  {
    hide Placed, Matched, OneReader, Counted, Feed, Edited, NeverEnds, Holders;
    SizedStep(s, x);
    NotAnswering(s, p, t, n, chars);
    if x.Hear? && s.fs.op.READ? {
      NoOtherReader(s);
    }
  }

  lemma NotAnswering(s: State, p: Pid, t: nat, n: nat, chars: seq<int>)
    requires Inv(s) && Pending(s, p, t, n, chars)
    ensures s.fs.Answering? ==> s.fs.p != p
  {
    hide Matched, OneReader, Counted, Edited, NeverEnds;
    assert Holders(s, p) == 1;
    assert TermHolds(s, p, t) == 1;
  }

  /** The length is passed on unchanged until it is the answer. */
  lemma ReturningStep(s: State, x: Step, p: Pid, t: nat, n: nat, cnt: nat)
    requires Inv(s) && Enabled(s, x) && Take(s, x).Next? && Returning(s, p, t, n, cnt)
    ensures var s' := Take(s, x).s;
            if x.FsAnswer? && s.fs.p == p then s'.answers == s.answers + [Answer(p, READ(n), cnt)]
            else Returning(s', p, t, n, cnt)
  {
    hide OneReader, Counted, Feed, Completed;
    SizedStep(s, x);
    assert Holders(s, p) == 1;
  }

  // ---- runs ----------------------------------------------------------------

  /** The line is complete after i characters of those typed, and its length is on the way to p. */
  ghost predicate Ended(s: State, p: Pid, t: nat, n: nat, chars: seq<int>, i: nat) {
    i < |chars| && EndsAt(chars, n, i) && Returning(s, p, t, n, |Edited(chars[..i + 1])|)
  }

  /** The read from its being heard until it is answered. */
  ghost predicate Underway(s: State, p: Pid, t: nat, n: nat, chars: seq<int>) {
    Pending(s, p, t, n, chars) || exists i: nat :: Ended(s, p, t, n, chars, i)
  }

  lemma UnderwayStep(s: State, x: Step, p: Pid, t: nat, n: nat, chars: seq<int>)
    requires Sized(s) && Inv(s) && Enabled(s, x) && Take(s, x).Next? && Underway(s, p, t, n, chars)
    requires !(x.FsAnswer? && s.fs.p == p)
    ensures Underway(Take(s, x).s, p, t, n, if x.Key? && x.t == t then chars + [x.ch] else chars)
  {
    hide Inv, Take, Pending, Returning, EndsAt, Edited;
    var s', all := Take(s, x).s, if x.Key? && x.t == t then chars + [x.ch] else chars;
    if Pending(s, p, t, n, chars) {
      if x.Key? {
        PendingAtKey(s, x, p, t, n, chars);
        if x.t == t && EndsAt(all, n, |chars|) && Returning(s', p, t, n, |Edited(all)|) {
          assert all[..|chars| + 1] == all;
          assert Ended(s', p, t, n, all, |chars|);
        }
      } else {
        PendingElsewhere(s, x, p, t, n, chars);
      }
    } else {
      var i: nat :| Ended(s, p, t, n, chars, i);
      ReturningStep(s, x, p, t, n, |Edited(chars[..i + 1])|);
      EndsAtLonger(chars, if x.Key? && x.t == t then [x.ch] else [], n, i);
      assert chars + [] == chars;
      assert Ended(s', p, t, n, all, i);
    }
  }

  lemma ReturnsLonger(s: State, x: Step, p: Pid)
    requires Sized(s) && Enabled(s, x) && Take(s, x).Next?
    ensures Returns(Take(s, x).s.answers, p) == Returns(s.answers, p) + if x.FsAnswer? && s.fs.p == p then 1 else 0
  {
    hide Feed;
    if x.FsAnswer? {
      var s' := Take(s, x).s;
      assert s'.answers[..|s'.answers| - 1] == s.answers;
    }
  }

  lemma {:induction false} ReturnsGrow(s: State, steps: seq<Step>, s': State, p: Pid)
    requires Sized(s) && Run(s, steps, true, s')
    ensures Returns(s'.answers, p) >= Returns(s.answers, p)
    decreases |steps|
  {
    hide Take, Enabled, Polite;
    if steps == [] {
    } else {
      ReturnsLonger(s, steps[0], p);
      SizedStep(s, steps[0]);
      ReturnsGrow(Take(s, steps[0]).s, steps[1..], s', p);
    }
  }

  /** Until p is answered its read is underway, with the characters typed since. */
  lemma {:induction false} StaysUnderway(s: State, steps: seq<Step>, s': State, p: Pid, t: nat, n: nat, chars: seq<int>)
    requires Inv(s) && Run(s, steps, true, s') && Underway(s, p, t, n, chars)
    requires Returns(s'.answers, p) == Returns(s.answers, p)
    ensures Inv(s') && Underway(s', p, t, n, chars + KeysOn(steps, t))
    decreases |steps|
  {
    hide Inv, Take, Enabled, Polite, Underway;
    if steps == [] {
      assert chars + [] == chars;
    } else {
      var x := steps[0];
      var s1 := Take(s, x).s;
      InvSized(s);
      StepKeepsInv(s, x);
      InvSized(s1);
      ReturnsLonger(s, x, p);
      ReturnsGrow(s1, steps[1..], s', p);
      UnderwayStep(s, x, p, t, n, chars);
      var one := if x.Key? && x.t == t then [x.ch] else [];
      assert chars + KeysOn(steps, t) == (chars + one) + KeysOn(steps[1..], t);
      assert chars + [] == chars;
      StaysUnderway(s1, steps[1..], s', p, t, n, chars + one);
    }
  }

  lemma InvSized(s: State)
    requires Inv(s)
    ensures Sized(s)
  {
  }

  /** A read that is heard is pending with nothing typed. */
  lemma HeardIsPending(s: State)
    requires Inv(s) && Enabled(s, Hear) && s.fs.op.READ?
    ensures Take(s, Hear).Next? && Pending(Take(s, Hear).s, s.fs.p, s.fs.t, s.fs.op.n, [])
  {
    hide Counted, Feed;
    assert s.clients[s.fs.p] == Waiting(s.fs.t, s.fs.op);
    assert Reads(s, s.fs.p, s.fs.t);
  }

  /** A read is answered with the length of the line that its caller typed: for every polite run from the
      start, and every read heard in it, the count that the file system is about to return is that of
      the edited line, up to the first of the characters typed since that completes it. */
  lemma ReadReturnsItsLine(before: seq<Step>, s0: State, steps: seq<Step>, s: State, p: Pid) returns (i: nat)
    requires Run(Start(), before, true, s0) && Sized(s0) && Enabled(s0, Hear) && s0.fs.op.READ? && s0.fs.p == p
    requires Take(s0, Hear).Next? && Run(Take(s0, Hear).s, steps, true, s)
    requires s.fs.Answering? && s.fs.p == p && Returns(s.answers, p) == Returns(s0.answers, p)
    ensures var n, chars := s0.fs.op.n, KeysOn(steps, s0.fs.t);
            && EndsAt(chars, n, i) && s.fs.cnt == |Edited(chars[..i + 1])|
            && Sized(s) && Enabled(s, FsAnswer)
            && Take(s, FsAnswer) == Next(Take(s, FsAnswer).s)
            && Take(s, FsAnswer).s.answers == s.answers + [Answer(p, READ(n), |Edited(chars[..i + 1])|)]
  {
    hide Run, Inv, Pending, EndsAt, Edited, KeysOn;
    var s1 := Take(s0, Hear).s;
    assert Inv(Start()) by { StartInv(); }
    RunKeepsInv(Start(), before, s0);
    StepKeepsInv(s0, Hear);
    HeardIsPending(s0);
    var t, n, chars := s0.fs.t, s0.fs.op.n, KeysOn(steps, s0.fs.t);
    ReturnsLonger(s0, Hear, p);
    StaysUnderway(s1, steps, s, p, t, n, []);
    assert [] + chars == chars;
    i := AnsweringEnded(s, p, t, n, chars);
  }

  lemma AnsweringEnded(s: State, p: Pid, t: nat, n: nat, chars: seq<int>) returns (i: nat)
    requires Inv(s) && Underway(s, p, t, n, chars) && s.fs.Answering? && s.fs.p == p
    ensures Ended(s, p, t, n, chars, i) && s.fs.cnt == |Edited(chars[..i + 1])| && Sized(s) && Enabled(s, FsAnswer)
    ensures s.clients[p] == Waiting(t, READ(n))
  {
    hide Matched, OneReader, Counted, Edited, EndsAt, NeverEnds;
    if Pending(s, p, t, n, chars) {
      NotAnswering(s, p, t, n, chars);
      assert false;
    } else {
      i :| Ended(s, p, t, n, chars, i);
      assert Holders(s, p) == 1;
    }
  }
}
