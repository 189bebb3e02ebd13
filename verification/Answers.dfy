/** What becomes of the messages that the memory manager sends while it serves fork, exit and wait:
    which of them block it for ever, and that a forked child gets its answer. */
module Answers {
  import opened ProcTable
  import opened Rendezvous

  /** p_flags of a process that is not free. */
  function FlagWord(net: Net, p: Pid): set<Flag>
    requires p < |net.status| && p < |net.marks|
  {
    net.marks[p] + (if net.status[p].Sending? then {SENDING} else if net.status[p].Receiving? then {RECEIVING} else {})
  }

  // ---- sends that never return ---------------------------------------------

  /** p is in a send that no run completes. */
  ghost predicate BlockedForEver(net: Net, p: Pid) {
    && Sized(net) && net.status[p].Sending?
    && forall w: World, actions: seq<Action>, w': World :: w.net == net && Run(w, actions, w') ==>
         p < |w'.net.status| && w'.net.status[p].Sending?
  }

  /** The memory manager sends to a process that it has marked, and that is not receiving. */
  ghost predicate StuckOn(net: Net, d: Pid)
    requires Sized(net)
  {
    && net.status[TASK_MM].Sending? && net.status[TASK_MM].to == d
    && net.status[d].Ready? && net.marks[d] != {}
  }

  lemma StaysStuck(net: Net, a: Action, d: Pid)
    requires Inv(net) && StuckOn(net, d) && Enabled(net, a) && !Halts(net, a)
    ensures Inv(Next(net, a)) && StuckOn(Next(net, a), d)
  {
    StepKeepsInv(net, a);
    if a.DoReceive? && Chosen(net, a.p, a.s).To? {
      assert Chosen(net, a.p, a.s).pid in net.queue[a.p];
    }
  }

  lemma {:induction false} StaysStuckOverRun(w: World, actions: seq<Action>, w': World, d: Pid)
    requires Inv(w.net) && StuckOn(w.net, d) && Run(w, actions, w')
    ensures Inv(w'.net) && StuckOn(w'.net, d)
    decreases |actions|
  {
    hide Inv, Next, Enabled, Halts, StuckOn;
    if actions == [] {
    } else {
      StaysStuck(w.net, actions[0], d);
      StaysStuckOverRun(Advance(w, actions[0]), actions[1..], w', d);
    }
  }

  /** A receiver that is neither sending nor marked ends the memory manager's send by its receive. */
  lemma ReceiverFrees(net: Net, d: Pid, into: Addr)
    requires Inv(net) && Running(net, d) && d != TASK_MM && into != 0
    requires net.status[TASK_MM].Sending? && net.status[TASK_MM].to == d
    ensures var a := DoReceive(d, TASK_MM, into);
            Enabled(net, a) && !Halts(net, a) && net.marks[TASK_MM] == {} && Running(Next(net, a), TASK_MM)
  {
    assert TASK_MM in net.queue[d];
  }

  /** An answer to a process in its call to the memory manager: one that waits in the receive, or is
      on the way to it. */
  ghost predicate InCall(net: Net, d: Pid)
    requires Sized(net)
  {
    net.status[d].Ready? || (net.status[d].Receiving? && net.status[d].from == TASK_MM)
  }

  lemma ReadyReachesNobody(net: Net, d: Pid, p: Pid)
    requires Inv(net) && !net.status[d].Sending? && d != p
    ensures !Reaches(net.status, d, p)
  {
    if Reaches(net.status, d, p) {
      ReachesUnfold(net.status, d, p);
    }
  }

  /** The answer blocks the memory manager for ever iff the receiver is on the way to its receive and
      has a mark: the scheduler passes over it, and only the memory manager could take the mark
      away. */
  lemma SendBlocksExactly(net: Net, d: Pid, m: Addr)
    requires Inv(net) && Running(net, TASK_MM) && m != 0 && d != TASK_MM && InCall(net, d)
    requires !Halts(net, DoSend(TASK_MM, d, m))
    ensures BlockedForEver(Next(net, DoSend(TASK_MM, d, m)), TASK_MM) <==> net.status[d].Ready? && net.marks[d] != {}
  {
    var net1 := Next(net, DoSend(TASK_MM, d, m));
    StepKeepsInv(net, DoSend(TASK_MM, d, m));
    if net.status[d].Ready? && net.marks[d] != {} {
      forall w: World, actions: seq<Action>, w': World | w.net == net1 && Run(w, actions, w')
        ensures TASK_MM < |w'.net.status| && w'.net.status[TASK_MM].Sending?
      {
        StaysStuckOverRun(w, actions, w', d);
      }
    } else if net.status[d].Ready? {
      ReceiverFrees(net1, d, 1);
      var w := World(net1, [], []);
      var a := DoReceive(d, TASK_MM, 1);
      assert Run(Advance(w, a), [], Advance(w, a));
      assert [a][1..] == [];
      assert Run(w, [a], Advance(w, a));
    }
  }

  /** The send to INIT behind the comparison of flags in do_exit: it does not halt, and it blocks the
      memory manager for ever, so the orphan's slot is never freed. */
  lemma ExactMatchBlocks(net: Net, c: Pid, m: Addr)
    requires Inv(net) && Running(net, TASK_MM) && m != 0 && c != INIT
    requires !net.status[INIT].Free? && !net.status[c].Free?
    requires FlagWord(net, INIT) == {WAITING} && FlagWord(net, c) == {HANGING}
    ensures Enabled(net, DoUnmark(c, HANGING))
    ensures var cleared := Next(net, DoUnmark(c, HANGING));
            && Enabled(cleared, DoSend(TASK_MM, INIT, m)) && !Halts(cleared, DoSend(TASK_MM, INIT, m))
            && BlockedForEver(Next(cleared, DoSend(TASK_MM, INIT, m)), TASK_MM)
  {
    assert SENDING !in FlagWord(net, INIT) && RECEIVING !in FlagWord(net, INIT) && WAITING in FlagWord(net, INIT);
    assert SENDING !in FlagWord(net, c) && RECEIVING !in FlagWord(net, c) && HANGING in FlagWord(net, c);
    var cleared := Next(net, DoUnmark(c, HANGING));
    StepKeepsInv(net, DoUnmark(c, HANGING));
    ReadyReachesNobody(cleared, INIT, TASK_MM);
    SendBlocksExactly(cleared, INIT, m);
  }

  // ---- the answer to a forked child ----------------------------------------

  /** While a process waits for the memory manager's answer, all that it does itself is to enter the
      receive; the memory manager leaves it alone. */
  predicate LeavesAlone(a: Action, c: Pid) {
    match a
    case DoSend(p, d, m) => p != c && !(p == TASK_MM && d == c)
    case DoReceive(p, s, m) => p == c ==> s == TASK_MM
    case DoInterrupt(t) => true
    case DoStore(p, addr, msg) => p != c
    case DoMark(p, f) => p != c
    case DoUnmark(p, f) => p != c
    case DoRelease(p) => p != c
    case DoFork(parent, child) => child != c
  }

  /** c waits for the answer, and it is not there yet. */
  ghost predicate Expects(net: Net, c: Pid)
    requires Sized(net)
  {
    && c != TASK_MM && InCall(net, c) && net.marks[c] == {}
    && !(net.status[TASK_MM].Sending? && net.status[TASK_MM].to == c)
  }

  lemma StillExpects(net: Net, a: Action, c: Pid)
    requires Inv(net) && Expects(net, c) && Enabled(net, a) && !Halts(net, a) && LeavesAlone(a, c)
    ensures Inv(Next(net, a)) && Expects(Next(net, a), c)
  {
    StepKeepsInv(net, a);
  }

  lemma {:induction false} StillExpectsOverRun(w: World, actions: seq<Action>, w': World, c: Pid)
    requires Inv(w.net) && Expects(w.net, c) && Run(w, actions, w')
    requires forall i :: 0 <= i < |actions| ==> LeavesAlone(actions[i], c)
    ensures Inv(w'.net) && Expects(w'.net, c)
    decreases |actions|
  {
    hide Inv, Next, Enabled, Halts, Expects;
    if actions == [] {
    } else {
      StillExpects(w.net, actions[0], c);
      StillExpectsOverRun(Advance(w, actions[0]), actions[1..], w', c);
    }
  }

  /** The answer never halts; it reaches a process that is blocked in the receive at once, and
      otherwise that process's receive. */
  lemma AnswerArrives(net: Net, c: Pid, m: Addr, a: Addr)
    requires Inv(net) && Expects(net, c) && Running(net, TASK_MM) && m != 0 && a != 0
    ensures var send := DoSend(TASK_MM, c, m);
            && !Halts(net, send)
            && var sent, answer := Next(net, send), Stamped(net, TASK_MM, m);
               if net.status[c].Receiving? then
                 Running(sent, c) && Load(sent.memory[c], net.status[c].into) == answer
               else
                 && Running(sent, c) && TASK_MM in sent.queue[c]
                 && !Halts(sent, DoReceive(c, TASK_MM, a))
                 && Load(Next(sent, DoReceive(c, TASK_MM, a)).memory[c], a) == answer
  {
    ReadyReachesNobody(net, c, TASK_MM);
  }

  /** do_fork copies the record, asks the file system, and answers the child: whatever happens in
      between, the child gets the answer, also when it was copied on its way to the receive and
      has run since. */
  lemma ForkedChildGetsTheAnswer(w: World, parent: Pid, child: Pid, actions: seq<Action>, w': World, m: Addr, a: Addr)
    requires Inv(w.net) && Enabled(w.net, DoFork(parent, child)) && w.net.marks[parent] == {} && parent != TASK_MM
    requires Run(Advance(w, DoFork(parent, child)), actions, w')
    requires forall i :: 0 <= i < |actions| ==> LeavesAlone(actions[i], child)
    requires Sized(w'.net) && Running(w'.net, TASK_MM) && m != 0 && a != 0
    ensures var net, send := w'.net, DoSend(TASK_MM, child, m);
            && !Halts(net, send)
            && var sent, answer := Next(net, send), Stamped(net, TASK_MM, m);
               if net.status[child].Receiving? then
                 Running(sent, child) && Load(sent.memory[child], net.status[child].into) == answer
               else
                 && Running(sent, child) && TASK_MM in sent.queue[child]
                 && !Halts(sent, DoReceive(child, TASK_MM, a))
                 && Load(Next(sent, DoReceive(child, TASK_MM, a)).memory[child], a) == answer
  {
    hide Run, Halts, Stamped;
    var forked := Advance(w, DoFork(parent, child));
    ForkKeepsInv(w.net, parent, child);
    assert Expects(forked.net, child);
    StillExpectsOverRun(forked, actions, w', child);
    AnswerArrives(w'.net, child, m, a);
  }

  // ---- a fork with a sender in the parent's queue --------------------------

  const CHILD: Pid := 9

  /** The machine after boot, up to the memory manager, INIT, and INIT's first child. */
  ghost predicate Looks(net: Net, mm: Status, init: Status, child: Status, senders: seq<Pid>) {
    && Sized(net)
    && (forall p: Pid :: net.marks[p] == {} && !net.pending[p])
    && (forall p: Pid :: net.queue[p] == if p == INIT then senders else [])
    && (forall p: Pid :: net.status[p] == if p == TASK_MM then mm else if p == INIT then init
                                          else if p == CHILD then child else if p < CHILD then Ready else Free)
  }

  ghost predicate Can(w: World, a: Action)
    requires Sized(w.net)
  {
    Enabled(w.net, a) && !Halts(w.net, a)
  }

  lemma SendTo(w: World, p: Pid, d: Pid)
    requires Sized(w.net) && Running(w.net, p) && p != d && !w.net.status[d].Sending? && w.net.marks[d] == {}
    ensures Can(w, DoSend(p, d, 1))
  {
    if Reaches(w.net.status, d, p) {
      ReachesUnfold(w.net.status, d, p);
    }
  }

  /** The memory manager listens and gets a request from INIT. */
  lemma Requested(w: World, child: Status, senders: seq<Pid>) returns (w': World)
    requires Looks(w.net, Ready, Ready, child, senders)
    ensures Run(w, [DoReceive(TASK_MM, ANY, 1), DoSend(INIT, TASK_MM, 1)], w')
    ensures Looks(w'.net, Ready, Ready, child, senders)
  {
    var a, b := DoReceive(TASK_MM, ANY, 1), DoSend(INIT, TASK_MM, 1);
    assert Can(w, a);
    var w1 := Advance(w, a);
    assert Looks(w1.net, Receiving(ANY, 1), Ready, child, senders);
    SendTo(w1, INIT, TASK_MM);
    w' := Advance(w1, b);
    TwoSteps(w, a, b);
  }

  lemma TwoSteps(w: World, a: Action, b: Action)
    requires Sized(w.net) && Can(w, a) && Sized(Advance(w, a).net) && Can(Advance(w, a), b)
    ensures Run(w, [a, b], Advance(Advance(w, a), b))
  {
    assert [a, b][1..] == [b] && [b][1..] == [];
    assert Run(Advance(Advance(w, a), b), [], Advance(Advance(w, a), b));
    assert Run(Advance(w, a), [b], Advance(Advance(w, a), b));
  }

  /** INIT waits for the answer, and the record is copied. */
  lemma Copied(w: World) returns (w': World)
    requires Looks(w.net, Ready, Ready, Free, [])
    ensures Run(w, [DoReceive(INIT, TASK_MM, 1), DoFork(INIT, CHILD)], w')
    ensures Looks(w'.net, Ready, Receiving(TASK_MM, 1), Receiving(TASK_MM, 1), [])
  {
    var a, b := DoReceive(INIT, TASK_MM, 1), DoFork(INIT, CHILD);
    assert Can(w, a);
    var w1 := Advance(w, a);
    assert Looks(w1.net, Ready, Receiving(TASK_MM, 1), Free, []);
    w' := Advance(w1, b);
    TwoSteps(w, a, b);
  }

  /** Both are answered. */
  lemma Answered(w: World) returns (w': World)
    requires Looks(w.net, Ready, Receiving(TASK_MM, 1), Receiving(TASK_MM, 1), [])
    ensures Run(w, [DoSend(TASK_MM, CHILD, 1), DoSend(TASK_MM, INIT, 1)], w')
    ensures Looks(w'.net, Ready, Ready, Ready, [])
  {
    var a, b := DoSend(TASK_MM, CHILD, 1), DoSend(TASK_MM, INIT, 1);
    SendTo(w, TASK_MM, CHILD);
    var w1 := Advance(w, a);
    assert Looks(w1.net, Ready, Receiving(TASK_MM, 1), Ready, []);
    SendTo(w1, TASK_MM, INIT);
    w' := Advance(w1, b);
    TwoSteps(w, a, b);
  }

  /** The child sends to its parent, which does not receive. */
  lemma ChildSends(w: World) returns (w': World)
    requires Looks(w.net, Ready, Ready, Ready, [])
    ensures Run(w, [DoSend(CHILD, INIT, 1)], w')
    ensures Looks(w'.net, Ready, Ready, Sending(INIT, 1), [CHILD])
  {
    var a := DoSend(CHILD, INIT, 1);
    SendTo(w, CHILD, INIT);
    w' := Advance(w, a);
    assert [a][1..] == [];
    assert Run(w', [], w');
  }

  lemma {:induction false} RunsJoin(w: World, a: seq<Action>, w1: World, b: seq<Action>, w2: World)
    requires Run(w, a, w1) && Run(w1, b, w2)
    ensures Run(w, a + b, w2)
    decreases |a|
  {
    hide Enabled, Halts, Next;
    if a == [] {
      assert a + b == b;
    } else {
      assert (a + b)[1..] == a[1..] + b;
      RunsJoin(Advance(w, a[0]), a[1..], w1, b, w2);
    }
  }

  /** From boot: INIT forks, the child sends to INIT, and INIT forks again.  The second copy of INIT's
      record breaks the queues. */
  lemma SendThenFork(w: World) returns (actions: seq<Action>, w': World, free: Pid)
    requires Boot(w.net)
    ensures Run(w, actions, w') && Inv(w'.net) && ForkRequested(w'.net, INIT, free)
    ensures !Inv(Fork(w'.net, INIT, free))
  {
    hide Run, Inv, Next;
    BootSatisfiesInv(w.net);
    assert Looks(w.net, Ready, Ready, Free, []);
    var w1 := Requested(w, Free, []);
    var w2 := Copied(w1);
    var w3 := Answered(w2);
    var w4 := ChildSends(w3);
    w' := Requested(w4, Sending(INIT, 1), [CHILD]);
    var ask := [DoReceive(TASK_MM, ANY, 1), DoSend(INIT, TASK_MM, 1)];
    var copy := [DoReceive(INIT, TASK_MM, 1), DoFork(INIT, CHILD)];
    var answer := [DoSend(TASK_MM, CHILD, 1), DoSend(TASK_MM, INIT, 1)];
    var send := [DoSend(CHILD, INIT, 1)];
    RunsJoin(w, ask, w1, copy, w2);
    RunsJoin(w, ask + copy, w2, answer, w3);
    RunsJoin(w, ask + copy + answer, w3, send, w4);
    RunsJoin(w, ask + copy + answer + send, w4, ask, w');
    actions := ask + copy + answer + send + ask;
    free := 10;
    RunKeepsInv(w, actions, w');
    ForkKeepsInvExactly(w'.net, INIT, free);
  }

  lemma {:induction false} RunKeepsInv(w: World, actions: seq<Action>, w': World)
    requires Inv(w.net) && Run(w, actions, w')
    ensures Inv(w'.net)
    decreases |actions|
  {
    hide Inv, Enabled, Halts, Next;
    if actions == [] {
    } else {
      StepKeepsInv(w.net, actions[0]);
      RunKeepsInv(Advance(w, actions[0]), actions[1..], w');
    }
  }
}
