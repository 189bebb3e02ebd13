/** Opening, reading and writing terminals between user processes, the file system and the terminal
    task: a read is suspended until a line is complete and resumed by a message to the file system
    (fs/main.c, do_open and do_rw in fs/opera.c, task_tty in kernel/tty.c).  Messages pass as rendezvous, the
    way module Rendezvous has them. */
module TtyProtocol {
  import opened ProcTable
  import opened Tty

  const NR_TTY := 3

  datatype Op = READ(n: nat) | WRITE(n: nat) | OPEN

  /** The most that the answer's byte count may be; the descriptor that an open returns is not part
      of this model. */
  function Limit(op: Op): nat {
    match op
    case READ(n) => n
    case WRITE(n) => n
    case OPEN => 0
  }

  /** A user process: in its SEND to the file system, or in the RECEIVE after it. */
  datatype Client = Running | Calling(t: nat, op: Op) | Waiting(t: nat, op: Op)

  datatype Fs =
    | Idle                                  // in RECEIVE from ANY
    | Busy                                  // with the disk, or anything but a terminal
    | Handling(p: Pid, t: nat, op: Op)      // in do_rw or do_open
    | Asking(p: Pid, t: nat, op: Op)        // in SEND of DEV_READ, DEV_WRITE or DEV_OPEN
    | Expecting(p: Pid, t: nat, op: Op)     // in RECEIVE from the terminal task
    | Answering(p: Pid, cnt: nat)           // in SEND of SYSCALL_RET

  datatype Task =
    | Scanning                              // in the loop over the terminals
    | Listening                             // in RECEIVE from ANY
    | Replying(p: Pid, t: nat, op: Op)      // in SEND of SUSPEND_PROC or SYSCALL_RET
    | Resuming(p: Pid, t: nat, cnt: nat)    // in SEND of RESUME_PROC

  /** proc2tty and the line discipline of a terminal. */
  datatype Terminal = Terminal(reader: Pid, line: Line)

  datatype Answer = Answer(p: Pid, op: Op, cnt: nat)

  /** calls counts the system calls of each process; answers are all the SYSCALL_RETs. */
  datatype State = State(clients: seq<Client>, fs: Fs, task: Task, terms: seq<Terminal>,
                         calls: seq<nat>, answers: seq<Answer>)

  datatype Step =
    | Call(p: Pid, t: nat, op: Op)
    | FsTake(p: Pid)
    | FsAsk
    | FsOther
    | FsOtherDone
    | Key(t: nat, ch: int)
    | Listen
    | Interrupt
    | Hear
    | Reply
    | Resume
    | FsAnswer

  /** Deadlock is the kernel's panic; Mistaken is a RESUME_PROC taken for the reply to DEV_READ,
      DEV_WRITE or DEV_OPEN. */
  datatype Outcome = Next(s: State) | Deadlock | Mistaken

  ghost predicate Sized(s: State) {
    && |s.clients| == NR_PROCS == |s.calls| && |s.terms| == NR_TTY
    && (forall t :: 0 <= t < NR_TTY ==> Open(s.terms[t].line))
    && (forall p: Pid :: !s.clients[p].Running? ==> s.clients[p].t < NR_TTY)
    && (s.fs.Handling? || s.fs.Asking? || s.fs.Expecting? ==> s.fs.t < NR_TTY)
    && (s.task.Replying? || s.task.Resuming? ==> s.task.t < NR_TTY)
  }

  ghost predicate Enabled(s: State, x: Step)
    requires Sized(s)
  {
    match x
    case Call(p, t, op) => s.clients[p].Running? && t < NR_TTY
    case FsTake(p) => s.fs.Idle? && s.clients[p].Calling?
    case FsAsk => s.fs.Handling?
    case FsOther => s.fs.Idle?
    case FsOtherDone => s.fs.Busy?
    case Key(t, ch) => s.task.Scanning? && t < NR_TTY
    case Listen => s.task.Scanning?
    case Interrupt => s.task.Listening?
    case Hear => s.task.Listening? && s.fs.Asking?
    case Reply => s.task.Replying? && s.fs.Expecting?
    case Resume => s.task.Resuming? && (s.fs.Idle? || s.fs.Expecting?)
    case FsAnswer => s.fs.Answering? && s.clients[s.fs.p].Waiting?
  }

  /** The key completed the line that a read was waiting for. */
  predicate Completed(before: Line, after: Line) {
    |after.lines| > |before.lines|
  }

  ghost function Take(s: State, x: Step): Outcome
    requires Sized(s) && Enabled(s, x)
  {
    match x
    case Call(p, t, op) =>
      Next(s.(clients := s.clients[p := Calling(t, op)], calls := s.calls[p := s.calls[p] + 1]))
    case FsTake(p) =>
      var c := s.clients[p];
      Next(s.(clients := s.clients[p := Waiting(c.t, c.op)], fs := Handling(p, c.t, c.op)))
    case FsAsk =>
      if s.task.Resuming? then Deadlock else Next(s.(fs := Asking(s.fs.p, s.fs.t, s.fs.op)))
    case FsOther => Next(s.(fs := Busy))
    case FsOtherDone => Next(s.(fs := Idle))
    case Key(t, ch) =>
      var term := s.terms[t];
      var l := Feed(term.line, ch);
      var terms := s.terms[t := term.(line := l)];
      if !Completed(term.line, l) then Next(s.(terms := terms))
      else if s.fs.Asking? then Deadlock
      else Next(s.(terms := terms, task := Resuming(term.reader, t, |l.lines[|l.lines| - 1]|)))
    case Listen => Next(s.(task := Listening))
    case Interrupt => Next(s.(task := Scanning))
    case Hear =>
      var f := s.fs;
      var term := s.terms[f.t];
      Next(s.(fs := Expecting(f.p, f.t, f.op), task := Replying(f.p, f.t, f.op),
              terms := if f.op.READ? then s.terms[f.t := Terminal(f.p, term.line.(want := f.op.n, text := []))]
                       else s.terms))
    case Reply =>
      Next(s.(task := Scanning, fs := if s.fs.op.READ? then Idle else Answering(s.fs.p, Limit(s.fs.op))))
    case Resume =>
      if s.fs.Expecting? then Mistaken
      else Next(s.(task := Scanning, fs := Answering(s.task.p, s.task.cnt)))
    case FsAnswer =>
      var p := s.fs.p;
      Next(s.(fs := Idle, clients := s.clients[p := Running],
              answers := s.answers + [Answer(p, s.clients[p].op, s.fs.cnt)]))
  }

  /** The number of SYSCALL_RETs that p got. */
  function Returns(answers: seq<Answer>, p: Pid): nat {
    if answers == [] then 0
    else Returns(answers[..|answers| - 1], p) + if answers[|answers| - 1].p == p then 1 else 0
  }

  // ---- who holds the answer to a call --------------------------------------

  function FsHolds(s: State, p: Pid): nat {
    if (s.fs.Handling? || s.fs.Asking? || (s.fs.Expecting? && !s.fs.op.READ?) || s.fs.Answering?) && s.fs.p == p then 1
    else 0
  }

  function TaskHolds(s: State, p: Pid): nat {
    if s.task.Resuming? && s.task.p == p then 1 else 0
  }

  function TermHolds(s: State, p: Pid, t: nat): nat
    requires t < |s.terms|
  {
    if s.terms[t].line.want > 0 && s.terms[t].reader == p then 1 else 0
  }

  function Holders(s: State, p: Pid): nat
    requires |s.terms| == NR_TTY
  {
    FsHolds(s, p) + TaskHolds(s, p) + TermHolds(s, p, 0) + TermHolds(s, p, 1) + TermHolds(s, p, 2)
  }

  ghost predicate Reads(s: State, p: Pid, t: nat)
    requires |s.clients| == NR_PROCS
  {
    !s.clients[p].Running? && s.clients[p].t == t && s.clients[p].op.READ?
  }

  /** Every waiting client's answer is in exactly one place. */
  ghost predicate Placed(s: State)
    requires Sized(s)
  {
    forall p: Pid :: Holders(s, p) == if s.clients[p].Waiting? then 1 else 0
  }

  /** A write is answered with all that was to be written, a read with at most what was asked for. */
  predicate CountFits(op: Op, cnt: nat) {
    match op
    case READ(n) => cnt <= n
    case WRITE(n) => cnt == n
    case OPEN => cnt == 0
  }

  /** Every place names a client that waits for just that; the file system and the terminal task
      agree on the request between them. */
  ghost predicate Matched(s: State)
    requires Sized(s)
  {
    && (s.fs.Handling? || s.fs.Asking? || s.fs.Expecting? ==> s.clients[s.fs.p] == Waiting(s.fs.t, s.fs.op))
    && (s.fs.Answering? ==> s.clients[s.fs.p].Waiting? && CountFits(s.clients[s.fs.p].op, s.fs.cnt))
    && (s.task.Resuming? ==> Awaits(s, s.task.p, s.task.t) && s.task.cnt <= Limit(s.clients[s.task.p].op))
    && (forall t :: 0 <= t < NR_TTY && s.terms[t].line.want > 0 ==>
          s.clients[s.terms[t].reader] == Waiting(t, READ(s.terms[t].line.want)))
    && (if s.fs.Expecting? then s.task == Replying(s.fs.p, s.fs.t, s.fs.op) else !s.task.Replying?)
    && (s.fs.Asking? ==> !s.task.Resuming?)
  }

  /** A terminal has at most one reader, and it asked for something. */
  ghost predicate OneReader(s: State)
    requires Sized(s)
  {
    && (forall p: Pid, q: Pid, t: nat :: Reads(s, p, t) && Reads(s, q, t) ==> p == q)
    && (forall p: Pid :: !s.clients[p].Running? && s.clients[p].op.READ? ==> s.clients[p].op.n > 0)
  }

  /** As many answers as calls, except for the calls in progress; none longer than asked for. */
  ghost predicate Counted(s: State)
    requires Sized(s)
  {
    && (forall p: Pid :: s.calls[p] == Returns(s.answers, p) + if s.clients[p].Running? then 0 else 1)
    && (forall k :: 0 <= k < |s.answers| ==> CountFits(s.answers[k].op, s.answers[k].cnt))
  }

  ghost predicate Inv(s: State) {
    Sized(s) && Placed(s) && Matched(s) && OneReader(s) && Counted(s)
  }

  predicate Awaits(s: State, p: Pid, t: nat)
    requires |s.clients| == NR_PROCS
  {
    s.clients[p].Waiting? && s.clients[p].t == t && s.clients[p].op.READ?
  }

  /** What the protocol relies on: reads ask for something, and a terminal has one reader. */
  ghost predicate Polite(s: State, x: Step)
    requires |s.clients| == NR_PROCS
  {
    x.Call? && x.op.READ? ==> x.op.n > 0 && forall p: Pid :: !Reads(s, p, x.t)
  }

  lemma SizedStep(s: State, x: Step)
    requires Sized(s) && Enabled(s, x) && Take(s, x).Next?
    ensures Sized(Take(s, x).s)
  {
    hide Feed;
  }

  /** A key completes a pending read with at most what it asked for, or leaves it pending. */
  lemma FeedFacts(l: Line, ch: int)
    requires Open(l)
    ensures var r := Feed(l, ch);
            if Completed(l, r) then l.want > 0 && r.want == 0 && |r.lines| > 0 && |r.lines[|r.lines| - 1]| <= l.want
            else r.want == l.want
  {
  }

  lemma HoldersAtKey(s: State, x: Step, p: Pid)
    requires Inv(s) && Enabled(s, x) && x.Key? && Take(s, x).Next?
    ensures Holders(Take(s, x).s, p) == Holders(s, p)
  {
    hide Placed, OneReader, Counted, Feed, Completed;
    FeedFacts(s.terms[x.t].line, x.ch);
  }

  lemma HoldersAtHear(s: State, x: Step, p: Pid)
    requires Inv(s) && Enabled(s, x) && x.Hear?
    ensures Holders(Take(s, x).s, p) == Holders(s, p)
  {
    hide Counted, Feed;
    var f := s.fs;
    if f.op.READ? {
      assert s.clients[f.p] == Waiting(f.t, f.op);
      NoOtherReader(s);
    }
  }

  /** When a new read is heard, no read is pending on its terminal. */
  lemma NoOtherReader(s: State)
    requires Inv(s) && s.fs.Asking? && s.fs.op.READ?
    ensures s.terms[s.fs.t].line.want == 0 && s.fs.op.n > 0
  {
    hide Counted;
    var term, p := s.terms[s.fs.t], s.fs.p;
    assert Reads(s, p, s.fs.t);
    assert Holders(s, p) == 1;
    assert term.line.want > 0 ==> Reads(s, term.reader, s.fs.t);
  }

  lemma HoldersAtAnswer(s: State, x: Step, p: Pid)
    requires Inv(s) && Enabled(s, x) && x.FsAnswer?
    ensures Sized(Take(s, x).s)
    ensures Holders(Take(s, x).s, p) == if Take(s, x).s.clients[p].Waiting? then 1 else 0
  {
    hide Matched, OneReader, Counted, Feed, Returns, Reads;
    SizedStep(s, x);
    assert Holders(s, p) == if s.clients[p].Waiting? then 1 else 0;
  }

  lemma HoldersElsewhere(s: State, x: Step, p: Pid)
    requires Inv(s) && Enabled(s, x) && !x.Key? && !x.Hear? && !x.FsAnswer? && Take(s, x).Next?
    ensures Sized(Take(s, x).s)
    ensures Holders(Take(s, x).s, p) == if Take(s, x).s.clients[p].Waiting? then 1 else 0
  {
    hide OneReader, Counted, Feed, Returns, Reads, Completed;
    SizedStep(s, x);
    assert Holders(s, p) == if s.clients[p].Waiting? then 1 else 0;
  }

  lemma PlacedStep(s: State, x: Step)
    requires Inv(s) && Enabled(s, x) && Take(s, x).Next?
    ensures Sized(Take(s, x).s) && Placed(Take(s, x).s)
  {
    hide Matched, OneReader, Counted, Feed, Holders;
    SizedStep(s, x);
    var s' := Take(s, x).s;
    forall p: Pid
      ensures Holders(s', p) == if s'.clients[p].Waiting? then 1 else 0
    {
      if x.Key? {
        HoldersAtKey(s, x, p);
      } else if x.Hear? {
        HoldersAtHear(s, x, p);
      } else if x.FsAnswer? {
        HoldersAtAnswer(s, x, p);
      } else {
        HoldersElsewhere(s, x, p);
      }
    }
  }

  lemma MatchedAtKey(s: State, x: Step)
    requires Inv(s) && Enabled(s, x) && x.Key? && Take(s, x).Next?
    ensures Sized(Take(s, x).s) && Matched(Take(s, x).s)
  {
    hide Placed, OneReader, Counted, Feed, Completed;
    SizedStep(s, x);
    FeedFacts(s.terms[x.t].line, x.ch);
  }

  lemma MatchedAtHear(s: State, x: Step)
    requires Inv(s) && Enabled(s, x) && x.Hear?
    ensures Sized(Take(s, x).s) && Matched(Take(s, x).s)
  {
    hide Placed, OneReader, Counted, Feed;
    SizedStep(s, x);
  }

  lemma MatchedAtAnswer(s: State, x: Step)
    requires Inv(s) && Enabled(s, x) && x.FsAnswer?
    ensures Sized(Take(s, x).s) && Matched(Take(s, x).s)
  {
    hide OneReader, Counted, Feed;
    SizedStep(s, x);
    assert Holders(s, s.fs.p) == 1;
    assert forall t :: 0 <= t < NR_TTY ==> TermHolds(s, s.fs.p, t) == 0;
  }

  lemma MatchedElsewhere(s: State, x: Step)
    requires Inv(s) && Enabled(s, x) && !x.Key? && !x.Hear? && !x.FsAnswer? && Take(s, x).Next?
    ensures Sized(Take(s, x).s) && Matched(Take(s, x).s)
  {
    hide Placed, OneReader, Counted, Feed;
    SizedStep(s, x);
  }

  lemma MatchedStep(s: State, x: Step)
    requires Inv(s) && Enabled(s, x) && Take(s, x).Next?
    ensures Sized(Take(s, x).s) && Matched(Take(s, x).s)
  {
    hide Sized, Placed, Matched, OneReader, Counted, Feed;
    if x.Key? {
      MatchedAtKey(s, x);
    } else if x.Hear? {
      MatchedAtHear(s, x);
    } else if x.FsAnswer? {
      MatchedAtAnswer(s, x);
    } else {
      MatchedElsewhere(s, x);
    }
  }

  lemma OneReaderStep(s: State, x: Step)
    requires Inv(s) && Enabled(s, x) && Polite(s, x) && Take(s, x).Next?
    ensures Sized(Take(s, x).s) && OneReader(Take(s, x).s)
  {
    hide Placed, Matched, Counted, Feed;
    SizedStep(s, x);
    var s' := Take(s, x).s;
    forall p: Pid, q: Pid, t: nat | Reads(s', p, t) && Reads(s', q, t)
      ensures p == q
    {
      if !x.Call? {
        assert Reads(s, p, t) && Reads(s, q, t);
      } else {
        assert p != x.p ==> Reads(s, p, t);
        assert q != x.p ==> Reads(s, q, t);
      }
    }
  }

  lemma CountedStep(s: State, x: Step)
    requires Inv(s) && Enabled(s, x) && Take(s, x).Next?
    ensures Sized(Take(s, x).s) && Counted(Take(s, x).s)
  {
    hide Placed, OneReader, Feed;
    SizedStep(s, x);
    if x.FsAnswer? {
      var s' := Take(s, x).s;
      assert s'.answers[..|s'.answers| - 1] == s.answers;
    }
  }

  /** No RESUME_PROC is taken for a reply, and every step keeps the invariant; an answer always
      finds its client waiting. */
  lemma StepKeepsInv(s: State, x: Step)
    requires Inv(s) && Enabled(s, x) && Polite(s, x)
    ensures !Take(s, x).Mistaken?
    ensures Take(s, x).Next? ==> Inv(Take(s, x).s)
    ensures s.fs.Answering? ==> Enabled(s, FsAnswer)
  {
    hide Placed, OneReader, Counted, Feed;
    if Take(s, x).Next? {
      SizedStep(s, x);
      PlacedStep(s, x);
      MatchedStep(s, x);
      OneReaderStep(s, x);
      CountedStep(s, x);
    }
  }

  // ---- runs ----------------------------------------------------------------

  /** A run without a panic; in a polite one, every step is polite. */
  ghost predicate Run(s: State, steps: seq<Step>, polite: bool, s': State)
    decreases |steps|
  {
    if steps == [] then s == s'
    else
      && Sized(s) && Enabled(s, steps[0]) && (polite ==> Polite(s, steps[0])) && Take(s, steps[0]).Next?
      && Run(Take(s, steps[0]).s, steps[1..], polite, s')
  }

  /** Nobody has called, and the terminal task has set up its terminals. */
  function Start(): State {
    State(seq(NR_PROCS, _ => Running), Idle, Scanning, seq(NR_TTY, _ => Terminal(0, Line(0, [], [], []))),
          seq(NR_PROCS, _ => 0), [])
  }

  lemma {:induction false} RunKeepsInv(s: State, steps: seq<Step>, s': State)
    requires Inv(s) && Run(s, steps, true, s')
    ensures Inv(s')
    decreases |steps|
  {
    hide Inv, Enabled, Polite;
    if steps == [] {
    } else {
      StepKeepsInv(s, steps[0]);
      RunKeepsInv(Take(s, steps[0]).s, steps[1..], s');
    }
  }

  /** In every polite run that starts with the system and does not panic: each process got one answer for
      each of its calls but the one in progress, no read returned more than it asked for, every write
      returned all of it, and no next step takes a RESUME_PROC for the reply of the terminal task. */
  lemma EveryCallIsAnsweredOnce(steps: seq<Step>, s: State, x: Step)
    requires Run(Start(), steps, true, s)
    ensures Sized(s)
    ensures forall p: Pid :: s.calls[p] == Returns(s.answers, p) + if s.clients[p].Running? then 0 else 1
    ensures forall k :: 0 <= k < |s.answers| && s.answers[k].op.READ? ==> s.answers[k].cnt <= s.answers[k].op.n
    ensures forall k :: 0 <= k < |s.answers| && s.answers[k].op.WRITE? ==> s.answers[k].cnt == s.answers[k].op.n
    ensures Enabled(s, x) ==> !Take(s, x).Mistaken?
  {
    hide Run, Placed, OneReader, Feed;
    assert Inv(Start()) by { StartInv(); }
    RunKeepsInv(Start(), steps, s);
  }

  lemma StartInv()
    ensures Inv(Start())
  {
  }

  // ---- calls that are never answered ---------------------------------------

  /** The client waits and nobody holds its answer. */
  ghost predicate Stranded(s: State, p: Pid)
    requires Sized(s)
  {
    s.clients[p].Waiting? && Holders(s, p) == 0
  }

  /** Such a client waits for ever, whatever the steps, polite or not. */
  lemma StrandedForever(s: State, x: Step, p: Pid)
    requires Sized(s) && Enabled(s, x) && Stranded(s, p) && Take(s, x).Next?
    ensures Sized(Take(s, x).s) && Stranded(Take(s, x).s, p)
  {
    hide Feed, Completed;
    SizedStep(s, x);
    if x.Key? {
      FeedFacts(s.terms[x.t].line, x.ch);
    }
  }

  /** A read of nothing strands its caller, and a read on a terminal with a pending one strands the
      earlier caller: just what polite steps exclude. */
  lemma HearStrandsExactly(s: State, p: Pid)
    requires Sized(s) && Placed(s) && Matched(s) && Enabled(s, Hear) && s.clients[p].Waiting?
    ensures Take(s, Hear).Next? && Sized(Take(s, Hear).s)
    ensures Stranded(Take(s, Hear).s, p) <==>
              s.fs.op.READ? &&
              ((p == s.fs.p && s.fs.op.n == 0) ||
               (p != s.fs.p && s.terms[s.fs.t].line.want > 0 && s.terms[s.fs.t].reader == p))
  {
    hide Feed;
    assert Holders(s, p) == 1;
  }

  /** The steps from a call to the terminal task's receive. */
  function CallAndHear(p: Pid, t: nat, op: Op): seq<Step> {
    [Call(p, t, op), FsTake(p), FsAsk, Listen, Hear]
  }

  /** The system at rest: the file system and the terminal task wait for work. */
  ghost predicate AtRest(s: State, p: Pid, t: nat) {
    Sized(s) && s.fs.Idle? && s.task.Scanning? && s.clients[p].Running? && t < NR_TTY
  }

  /** What five such steps do. */
  lemma CallIsHeard(s: State, p: Pid, t: nat, op: Op) returns (s': State)
    requires AtRest(s, p, t)
    ensures Run(s, CallAndHear(p, t, op), false, s') && Sized(s')
    ensures s'.fs == Expecting(p, t, op) && s'.task == Replying(p, t, op)
    ensures s'.clients == s.clients[p := Waiting(t, op)]
    ensures s'.terms ==
            if op.READ? then s.terms[t := Terminal(p, s.terms[t].line.(want := op.n, text := []))] else s.terms
  {
    hide Feed;
    var xs := CallAndHear(p, t, op);
    var s1 := Take(s, xs[0]).s;
    var s2 := Take(s1, xs[1]).s;
    var s3 := Take(s2, xs[2]).s;
    var s4 := Take(s3, xs[3]).s;
    s' := Take(s4, xs[4]).s;
    assert xs[4..][1..] == [] && xs[3..][1..] == xs[4..] && xs[2..][1..] == xs[3..] && xs[1..][1..] == xs[2..];
    assert Run(s', [], false, s');
    assert Run(s4, xs[4..], false, s');
    assert Run(s3, xs[3..], false, s');
    assert Run(s2, xs[2..], false, s');
    assert Run(s1, xs[1..], false, s');
    assert s'.clients == s.clients[p := Waiting(t, op)];
  }

  /** From the start: a read of nothing is heard, and its caller waits for ever. */
  lemma ReadOfNothing(p: Pid, t: nat) returns (steps: seq<Step>, s: State)
    requires t < NR_TTY
    ensures Run(Start(), steps, false, s) && Sized(s) && Stranded(s, p)
  {
    hide Run;
    steps := CallAndHear(p, t, READ(0));
    s := CallIsHeard(Start(), p, t, READ(0));
  }

  lemma {:induction false} RunsJoin(s: State, a: seq<Step>, s1: State, b: seq<Step>, s2: State)
    requires Run(s, a, false, s1) && Run(s1, b, false, s2)
    ensures Run(s, a + b, false, s2)
    decreases |a|
  {
    hide Take, Enabled;
    if a == [] {
      assert a + b == b;
    } else {
      assert (a + b)[1..] == a[1..] + b;
      RunsJoin(Take(s, a[0]).s, a[1..], s1, b, s2);
    }
  }

  /** From the start: two reads on one terminal, and the first caller waits for ever. */
  lemma TwoReads(p: Pid, q: Pid, t: nat, n: nat, k: nat) returns (steps: seq<Step>, s: State)
    requires t < NR_TTY && p != q && n > 0
    ensures Run(Start(), steps, false, s) && Sized(s) && Stranded(s, p)
  {
    hide Run, Feed;
    var s1 := CallIsHeard(Start(), p, t, READ(n));
    var s2 := Take(s1, Reply).s;
    assert Run(s1, [Reply], false, s2) by { OneStep(s1, Reply); }
    s := CallIsHeard(s2, q, t, READ(k));
    RunsJoin(Start(), CallAndHear(p, t, READ(n)), s1, [Reply], s2);
    RunsJoin(Start(), CallAndHear(p, t, READ(n)) + [Reply], s2, CallAndHear(q, t, READ(k)), s);
    steps := CallAndHear(p, t, READ(n)) + [Reply] + CallAndHear(q, t, READ(k));
  }

  lemma OneStep(s: State, x: Step)
    requires Sized(s) && Enabled(s, x) && Take(s, x).Next?
    ensures Run(s, [x], false, Take(s, x).s)
  {
    hide Take, Enabled;
    assert [x][1..] == [];
    assert Run(Take(s, x).s, [], false, Take(s, x).s);
  }
}
