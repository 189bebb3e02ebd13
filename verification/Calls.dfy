/** What the system calls of a process come to: every receive ends with one message that the process
    asked for, and an interrupt is kept until its process asks for it, and is delivered once. */
module Calls {
  import opened ProcTable
  import opened Rendezvous

  /** The buffer in which p waits, or into which it receives by a. */
  function Buffer(net: Net, a: Action, p: Pid): Addr
    requires p < |net.status|
  {
    if a.DoReceive? && a.p == p then a.m
    else if net.status[p].Receiving? then net.status[p].into
    else 0
  }

  /** p is in a receive, or enters one by a. */
  ghost predicate Receives(net: Net, a: Action, p: Pid)
    requires Sized(net)
  {
    (a.DoReceive? && a.p == p) || net.status[p].Receiving?
  }

  /** The source that p asked for. */
  ghost function Wanted(net: Net, a: Action, p: Pid): int
    requires Sized(net) && Receives(net, a, p)
  {
    if a.DoReceive? && a.p == p then a.s else net.status[p].from
  }

  /** The message with which a receive of p ends by this action. */
  ghost function Receipt(net: Net, a: Action, p: Pid): seq<Message>
    requires Sized(net)
  {
    var next := Next(net, a);
    if Receives(net, a, p) && Sized(next) && next.status[p].Ready?
    then [Load(next.memory[p], Buffer(net, a, p))] else []
  }

  predicate IsInterrupt(msg: Message) {
    msg.source == INTERRUPT && msg.kind == HARD_INT
  }

  /** The action replaces the record of p. */
  predicate Replaces(a: Action, p: Pid) {
    (a.DoFork? && a.child == p) || (a.DoRelease? && a.p == p)
  }

  // ---- one message for each receive ----------------------------------------

  /** A receive that ends has been given one message: the letter that is handed over by this very
      action, from a process that was asked for, or an interrupt, if those were asked for. */
  lemma ReceiveEndsWithMessage(net: Net, a: Action, p: Pid)
    requires Inv(net) && Enabled(net, a) && !Halts(net, a) && !Replaces(a, p) && Receipt(net, a, p) != []
    ensures var msg, wanted := Receipt(net, a, p)[0], Wanted(net, a, p);
            if HandedBy(net, a) == [] then IsInterrupt(msg) && (wanted == ANY || wanted == INTERRUPT)
            else
              && HandedBy(net, a) == [Letter(HandedBy(net, a)[0].from, p, msg)]
              && msg.source == HandedBy(net, a)[0].from && (wanted == ANY || wanted == msg.source)
  {
    HandedAreSigned(net, a);
    if a.DoReceive? && Chosen(net, a.p, a.s).To? {
      assert Chosen(net, a.p, a.s).pid in net.queue[a.p];
    }
  }

  /** A letter ends the receive of the process that it is for, and the send of the one that it is
      from. */
  lemma LetterEndsBoth(net: Net, a: Action)
    requires Inv(net) && Enabled(net, a) && !Halts(net, a) && HandedBy(net, a) != []
    ensures var l := HandedBy(net, a)[0];
            && HandedBy(net, a) == [l] && Receipt(net, a, l.to) == [l.msg]
            && Sized(Next(net, a)) && Next(net, a).status[l.from].Ready?
  {
    if a.DoReceive? && Chosen(net, a.p, a.s).To? {
      assert Chosen(net, a.p, a.s).pid in net.queue[a.p];
    }
  }

  /** What each action does to what p is doing: a receive that ends makes it ready, and so does the
      letter that it was sending; otherwise it enters its own call, or stays where it is. */
  lemma StatusFollows(net: Net, a: Action, p: Pid)
    requires Inv(net) && Enabled(net, a) && !Halts(net, a) && !Replaces(a, p)
    ensures Sized(Next(net, a))
    ensures var handed := HandedBy(net, a);
            Next(net, a).status[p] ==
            if Receipt(net, a, p) != [] || (handed != [] && handed[0].from == p) then Ready
            else if a.DoReceive? && a.p == p then Receiving(a.s, a.m)
            else if a.DoSend? && a.p == p then Sending(a.d, a.m)
            else net.status[p]
  {
    if a.DoReceive? && Chosen(net, a.p, a.s).To? {
      assert Chosen(net, a.p, a.s).pid in net.queue[a.p];
    }
  }

  /** A receive does not block while somebody whom it asks for is waiting to be received. */
  lemma ReceiveTakesWaiting(net: Net, p: Pid, s: int, m: Addr, q: Pid)
    requires Inv(net) && Enabled(net, DoReceive(p, s, m)) && p != s
    requires net.status[q].Sending? && net.status[q].to == p && (s == ANY || s == q)
    ensures Receipt(net, DoReceive(p, s, m), p) != []
  {
    assert q in net.queue[p];
  }

  /** No other buffer is written: only the one of a receive that ends, the caller's own message, which is
      stamped, and what a process stores itself. */
  lemma MemoryFollows(net: Net, a: Action, p: Pid, addr: Addr)
    requires Inv(net) && Enabled(net, a) && !Halts(net, a) && !Replaces(a, p)
    requires Receipt(net, a, p) == [] || addr != Buffer(net, a, p)
    ensures Sized(Next(net, a))
    ensures Load(Next(net, a).memory[p], addr) ==
            if (a.DoSend? || a.DoReceive?) && a.p == p && a.m == addr then Load(net.memory[p], addr).(source := p)
            else if a.DoStore? && a.p == p && a.a == addr then a.msg
            else Load(net.memory[p], addr)
  {
    hide Signed, QueuesExact, NoMissedSender, NoMissedInterrupt, Acyclic;
  }

  /** The marks of a process are set and taken away by the memory manager alone. */
  lemma MarksFollow(net: Net, a: Action, p: Pid)
    requires Inv(net) && Enabled(net, a) && !Halts(net, a) && !Replaces(a, p)
    ensures Sized(Next(net, a))
    ensures Next(net, a).marks[p] ==
            if a.DoMark? && a.p == p then net.marks[p] + {a.f}
            else if a.DoUnmark? && a.p == p then net.marks[p] - {a.f}
            else net.marks[p]
    ensures Next(net, a).marks[p] != net.marks[p] ==> Running(net, TASK_MM)
  {
    hide Signed, QueuesExact, NoMissedSender, NoMissedInterrupt, Acyclic;
  }

  /** A forked child is where its parent is, with the same marks and the same memory; a released slot is
      free.  Nobody else is touched. */
  lemma ReplacedRecords(net: Net, a: Action, p: Pid)
    requires Inv(net) && Enabled(net, a) && (a.DoFork? || a.DoRelease?)
    ensures var r := Next(net, a);
            && Sized(r)
            && var q := if a.DoFork? && a.child == p then a.parent else p;
               && r.memory[p] == net.memory[q] && r.pending[p] == net.pending[q]
               && (if a == DoRelease(p) then r.status[p].Free? && r.marks[p] == {}
                   else r.status[p] == net.status[q] && r.marks[p] == net.marks[q])
  {
    hide Signed, QueuesExact, NoMissedSender, NoMissedInterrupt, Acyclic;
  }

  /** The panic of a send is right: it comes iff the send would leave the caller, through a chain of
      senders, waiting for itself. */
  lemma DeadlockExactly(net: Net, p: Pid, d: Pid, m: Addr)
    requires Inv(net) && Running(net, p) && m != 0
    ensures if Awaits(net, d, p) then SendHalts(net, p, d) <==> net.marks[d] != {}
            else SendHalts(net, p, d) <==>
                 Reaches(net.status[p := Sending(d, m)], d, p)
    ensures !Awaits(net, d, p) ==> (SendHalts(net, p, d) <==> !Acyclic(net.status[p := Sending(d, m)]))
  {
    hide Signed, QueuesExact, NoMissedSender, NoMissedInterrupt;
    var status' := net.status[p := Sending(d, m)];
    if Awaits(net, d, p) {
      ReachesUnfold(net.status, d, p);
    } else if p == d || Reaches(net.status, d, p) {
      StillReaches(net.status, p, d, m);
      if Acyclic(status') {
        NobodyWaitsForItself(status', p);
        assert false;
      }
    } else {
      NewEdgeKeepsAcyclic(net.status, p, d, m);
      NobodyWaitsForItself(status', p);
    }
  }

  lemma StillReaches(status: seq<Status>, p: Pid, d: Pid, m: Addr)
    requires |status| == NR_PROCS && (p == d || Reaches(status, d, p))
    ensures Reaches(status[p := Sending(d, m)], d, p)
  {
    if p == d {
      assert ReachesIn(status[p := Sending(d, m)], d, p, 0);
    } else {
      var k: nat :| ReachesIn(status, d, p, k);
      StillReachesIn(status, p, d, d, m, k);
    }
  }

  lemma {:induction false} StillReachesIn(status: seq<Status>, p: Pid, e: Pid, d: Pid, m: Addr, k: nat)
    requires |status| == NR_PROCS && ReachesIn(status, e, p, k)
    ensures ReachesIn(status[p := Sending(d, m)], e, p, k)
    decreases k
  {
    if e == p {
    } else {
      StillReachesIn(status, p, status[e].to, d, m, k - 1);
    }
  }

  // ---- interrupts ----------------------------------------------------------

  /** The action gives p an interrupt message. */
  ghost predicate GivesInterrupt(net: Net, a: Action, p: Pid)
    requires Sized(net)
  {
    Receipt(net, a, p) != [] && IsInterrupt(Receipt(net, a, p)[0]) && HandedBy(net, a) == []
  }

  /** For each process: an interrupt has come since it was last given one. */
  ghost function Due(net: Net, a: Action, due: seq<bool>): (r: seq<bool>)
    requires Sized(net) && |due| == NR_PROCS
    ensures |r| == NR_PROCS
    ensures forall p: Pid :: r[p] == DueOf(net, a, due, p)
  {
    seq(NR_PROCS, p requires 0 <= p < NR_PROCS => DueOf(net, a, due, p))
  }

  ghost predicate DueOf(net: Net, a: Action, due: seq<bool>, p: Pid)
    requires Sized(net) && |due| == NR_PROCS
  {
    if GivesInterrupt(net, a, p) then false
    else if a == DoInterrupt(p) then true
    else if a.DoFork? && a.child == p then due[a.parent]
    else due[p]
  }

  ghost function DueAfter(w: World, actions: seq<Action>, due: seq<bool>): (r: seq<bool>)
    requires |due| == NR_PROCS
    ensures |r| == NR_PROCS
    decreases |actions|
  {
    if actions == [] || !Sized(w.net) then due
    else DueAfter(Advance(w, actions[0]), actions[1..], Due(w.net, actions[0], due))
  }

  lemma PendingIsDue(net: Net, a: Action)
    requires Inv(net) && Enabled(net, a) && !Halts(net, a)
    ensures Next(net, a).pending == Due(net, a, net.pending)
  {
    hide WellFormed, Signed, QueuesExact, NoMissedSender, Acyclic, DueOf;
    forall p: Pid
      ensures Sized(Next(net, a)) && Next(net, a).pending[p] == DueOf(net, a, net.pending, p)
    {
      StepKeepsSize(net, a);
      if a.DoReceive? {
        ReceivePending(net, a, p);
      } else {
        PendingIsDueAt(net, a, p);
      }
    }
    assert |Next(net, a).pending| == NR_PROCS;
  }

  lemma StepKeepsSize(net: Net, a: Action)
    requires Sized(net) && Enabled(net, a)
    ensures Sized(Next(net, a))
  {
    hide WellFormed, Signed, QueuesExact, NoMissedSender, Acyclic;
  }

  lemma ReceivePending(net: Net, a: Action, p: Pid)
    requires Inv(net) && Enabled(net, a) && a.DoReceive? && !Halts(net, a)
    ensures Sized(Next(net, a)) && Next(net, a).pending[p] == DueOf(net, a, net.pending, p)
  {
    hide Signed, QueuesExact, NoMissedSender, Acyclic;
  }

  lemma PendingIsDueAt(net: Net, a: Action, p: Pid)
    requires Inv(net) && Enabled(net, a) && !a.DoReceive? && !Halts(net, a)
    ensures Sized(Next(net, a)) && Next(net, a).pending[p] == DueOf(net, a, net.pending, p)
  {
    hide WellFormed, Signed, QueuesExact, NoMissedSender, Acyclic;
  }

  lemma {:induction false} PendingOverRun(w: World, actions: seq<Action>, w': World)
    requires Inv(w.net) && Run(w, actions, w')
    ensures Inv(w'.net) && |w.net.pending| == NR_PROCS && w'.net.pending == DueAfter(w, actions, w.net.pending)
    decreases |actions|
  {
    hide WellFormed, Signed, QueuesExact, NoMissedSender, NoMissedInterrupt, Acyclic, Next, Enabled, Halts, Due;
    if actions == [] {
    } else {
      StepKeepsInv(w.net, actions[0]);
      PendingIsDue(w.net, actions[0]);
      PendingOverRun(Advance(w, actions[0]), actions[1..], w');
    }
  }

  /** Over every run from boot: a process that asks for anybody or for an interrupt is given an interrupt
      at once iff one has come since it was last given one. */
  lemma InterruptsExactly(w: World, actions: seq<Action>, w': World, p: Pid, s: int, m: Addr)
    requires Boot(w.net) && Run(w, actions, w') && (s == ANY || s == INTERRUPT)
    requires Sized(w'.net) && Enabled(w'.net, DoReceive(p, s, m))
    ensures DueAfter(w, actions, seq(NR_PROCS, _ => false))[p] <==> GivesInterrupt(w'.net, DoReceive(p, s, m), p)
  {
    hide Run;
    BootSatisfiesInv(w.net);
    PendingOverRun(w, actions, w');
    assert w.net.pending == seq(NR_PROCS, _ => false);
  }

  // ---- one interrupt -------------------------------------------------------

  /** The action asks, for t, for anybody or for an interrupt, or overwrites the record of t. */
  predicate Collects(a: Action, t: Pid) {
    (a.DoReceive? && a.p == t && (a.s == ANY || a.s == INTERRUPT)) || (a.DoFork? && a.child == t)
  }

  lemma StaysPending(net: Net, a: Action, t: Pid)
    requires Inv(net) && Enabled(net, a) && !Halts(net, a) && net.pending[t] && !Collects(a, t)
    ensures Sized(Next(net, a)) && Next(net, a).pending[t]
  {
    hide WellFormed, Signed, QueuesExact, NoMissedSender, Acyclic;
  }

  lemma {:induction false} StaysPendingOverRun(w: World, actions: seq<Action>, w': World, t: Pid)
    requires Inv(w.net) && Run(w, actions, w') && t < |w.net.pending| && w.net.pending[t]
    requires forall i :: 0 <= i < |actions| ==> !Collects(actions[i], t)
    ensures Inv(w'.net) && t < |w'.net.pending| && w'.net.pending[t]
    decreases |actions|
  {
    hide WellFormed, Signed, QueuesExact, NoMissedSender, NoMissedInterrupt, Acyclic, Next, Enabled, Halts, Collects;
    if actions == [] {
    } else {
      StepKeepsInv(w.net, actions[0]);
      StaysPending(w.net, actions[0], t);
      StaysPendingOverRun(Advance(w, actions[0]), actions[1..], w', t);
    }
  }

  /** An interrupt is not lost: it ends the receive in which its process waits for one, or it is what the
      next receive from anybody, or from interrupts, is given at once, whatever happens in between;
      and the receive after that one is not given it again. */
  lemma InterruptArrives(w: World, t: Pid, actions: seq<Action>, w': World, s: int, m: Addr)
    requires Inv(w.net) && !Halts(w.net, DoInterrupt(t)) && Run(Advance(w, DoInterrupt(t)), actions, w')
    requires forall i :: 0 <= i < |actions| ==> !Collects(actions[i], t)
    requires Sized(w'.net) && Enabled(w'.net, DoReceive(t, s, m)) && (s == ANY || s == INTERRUPT)
    ensures var first := Receipt(w.net, DoInterrupt(t), t);
            if first != [] then IsInterrupt(first[0])
            else
              var a := DoReceive(t, s, m);
              && GivesInterrupt(w'.net, a, t)
              && var next := Next(w'.net, a);
                 Sized(next) && Running(next, t) && !GivesInterrupt(next, a, t)
  {
    hide Run, Signed, QueuesExact, NoMissedSender, Acyclic;
    StepKeepsInv(w.net, DoInterrupt(t));
    if Receipt(w.net, DoInterrupt(t), t) == [] {
      StaysPendingOverRun(Advance(w, DoInterrupt(t)), actions, w', t);
    }
  }
}
