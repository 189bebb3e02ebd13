/** The synchronous message protocol of kernel/proc.c as an abstract machine: one
    queue of waiting senders per process, and a status per process.  The linked
    lists and flag words of the source are in module Kernel, which refines this
    machine. */
module Rendezvous {
  import opened ProcTable

  /** What a process is doing.  Ready covers every process that IPC does not block. */
  datatype Status =
    | Ready
    | Sending(to: Pid, at: Addr)
    | Receiving(from: int, into: Addr)
    | Free

  /** marks holds the WAITING and HANGING bits, which only the memory manager sets. */
  datatype Net = Net(
    status: seq<Status>,
    marks: seq<set<Flag>>,
    queue: seq<seq<Pid>>,
    pending: seq<bool>,
    memory: seq<Memory>)

  ghost predicate Sized(net: Net) {
    |net.status| == |net.marks| == |net.queue| == |net.pending| == |net.memory| == NR_PROCS
  }

  // ---- the wait-for graph -------------------------------------------------

  /** q is on the chain that starts at p, at most k hops away. */
  ghost predicate ReachesIn(status: seq<Status>, p: Pid, q: Pid, k: nat)
    requires |status| == NR_PROCS
    decreases k
  {
    p == q || (k > 0 && status[p].Sending? && ReachesIn(status, status[p].to, q, k - 1))
  }

  ghost predicate Reaches(status: seq<Status>, p: Pid, q: Pid)
    requires |status| == NR_PROCS
  {
    exists k: nat :: ReachesIn(status, p, q, k)
  }

  /** Every "is SENDING to" edge goes down in rank. */
  ghost predicate Ranked(status: seq<Status>, rank: seq<nat>)
    requires |status| == NR_PROCS
  {
    |rank| == NR_PROCS &&
    forall p: Pid :: status[p].Sending? ==> rank[status[p].to] < rank[p]
  }

  ghost predicate Acyclic(status: seq<Status>)
    requires |status| == NR_PROCS
  {
    exists rank: seq<nat> :: Ranked(status, rank)
  }

  lemma ReachesUnfold(status: seq<Status>, p: Pid, q: Pid)
    requires |status| == NR_PROCS
    ensures Reaches(status, p, q) <==>
            p == q || (status[p].Sending? && Reaches(status, status[p].to, q))
  {
    if p == q {
      assert ReachesIn(status, p, q, 0);
    } else {
      if status[p].Sending? && Reaches(status, status[p].to, q) {
        var k: nat :| ReachesIn(status, status[p].to, q, k);
        assert ReachesIn(status, p, q, k + 1);
      }
      if Reaches(status, p, q) {
        var k: nat :| ReachesIn(status, p, q, k);
        assert ReachesIn(status, status[p].to, q, k - 1);
      }
    }
  }

  lemma {:induction false} ReachRankMonotone(status: seq<Status>, rank: seq<nat>, p: Pid, q: Pid, k: nat)
    requires |status| == NR_PROCS && Ranked(status, rank)
    requires ReachesIn(status, p, q, k)
    ensures rank[q] <= rank[p]
    decreases k
  {
    if p == q {
    } else {
      ReachRankMonotone(status, rank, status[p].to, q, k - 1);
    }
  }

  /** No process waits, through any number of hops, for itself. */
  lemma NobodyWaitsForItself(status: seq<Status>, p: Pid)
    requires |status| == NR_PROCS && Acyclic(status)
    ensures !(status[p].Sending? && Reaches(status, status[p].to, p))
  {
    var rank: seq<nat> :| Ranked(status, rank);
    if status[p].Sending? && Reaches(status, status[p].to, p) {
      var k: nat :| ReachesIn(status, status[p].to, p, k);
      ReachRankMonotone(status, rank, status[p].to, p, k);
    }
  }

  /** Adding the edge s -> d keeps the graph acyclic when d does not reach s. */
  lemma NewEdgeKeepsAcyclic(status: seq<Status>, s: Pid, d: Pid, m: Addr)
    requires |status| == NR_PROCS && Acyclic(status)
    requires !status[s].Sending?
    requires !Reaches(status, d, s)
    ensures Acyclic(status[s := Sending(d, m)])
  {
    var rank: seq<nat> :| Ranked(status, rank);
    var lifted := Lift(status, rank, s, d);
    var status' := status[s := Sending(d, m)];
    forall p: Pid | status'[p].Sending?
      ensures lifted[status'[p].to] < lifted[p]
    {
      ReachesUnfold(status, p, s);
    }
    assert Ranked(status', lifted);
  }

  ghost function Lift(status: seq<Status>, rank: seq<nat>, s: Pid, d: Pid): (lifted: seq<nat>)
    requires |status| == |rank| == NR_PROCS
    ensures |lifted| == NR_PROCS
    ensures forall p: Pid :: lifted[p] == if Reaches(status, p, s) then rank[p] + rank[d] + 1 else rank[p]
  {
    seq(NR_PROCS, (p: int) requires 0 <= p < NR_PROCS =>
      if Reaches(status, p, s) then rank[p] + rank[d] + 1 else rank[p])
  }

  lemma FewerEdgesKeepAcyclic(status: seq<Status>, status': seq<Status>)
    requires |status| == |status'| == NR_PROCS && Acyclic(status)
    requires forall p: Pid :: status'[p].Sending? ==> status'[p] == status[p]
    ensures Acyclic(status')
  {
    var rank: seq<nat> :| Ranked(status, rank);
    assert Ranked(status', rank);
  }

  // ---- the invariant ------------------------------------------------------

  ghost predicate ValidSource(p: Pid, f: int) {
    f == ANY || f == INTERRUPT || (0 <= f < NR_PROCS && f != p)
  }

  ghost predicate WellFormed(net: Net)
    requires Sized(net)
  {
    forall p: Pid ::
      && net.marks[p] <= {WAITING, HANGING}
      && (net.status[p].Sending? ==>
            net.status[p].to != p && net.status[p].at != 0 && net.marks[p] == {})
      && (net.status[p].Receiving? ==>
            net.status[p].into != 0 && ValidSource(p, net.status[p].from))
      && (net.status[p].Free? ==> net.marks[p] == {})
  }

  ghost predicate Distinct(q: seq<Pid>) {
    forall i, j :: 0 <= i < j < |q| ==> q[i] != q[j]
  }

  /** A process waits in a queue exactly when it is sending to that queue's owner. */
  ghost predicate QueuesExact(net: Net)
    requires Sized(net)
  {
    (forall d: Pid :: Distinct(net.queue[d])) &&
    (forall d: Pid, p: Pid {:trigger p in net.queue[d]} ::
       p in net.queue[d] <==> net.status[p].Sending? && net.status[p].to == d)
  }

  ghost predicate Accepts(f: int, source: int) {
    f == ANY || f == source
  }

  /** Nobody is blocked receiving from a process that already waits in its queue. */
  ghost predicate NoMissedSender(net: Net)
    requires Sized(net)
  {
    forall d: Pid, p: Pid {:trigger p in net.queue[d]} ::
      net.status[d].Receiving? && p in net.queue[d] ==> !Accepts(net.status[d].from, p)
  }

  /** Nobody is blocked on an interrupt that is already pending. */
  ghost predicate NoMissedInterrupt(net: Net)
    requires Sized(net)
  {
    forall d: Pid :: net.pending[d] && net.status[d].Receiving? ==> !Accepts(net.status[d].from, INTERRUPT)
  }

  /** A waiting message carries the number of the process that sent it. */
  ghost predicate Signed(net: Net)
    requires Sized(net)
  {
    forall p: Pid :: net.status[p].Sending? ==> Load(net.memory[p], net.status[p].at).source == p
  }

  ghost predicate Inv(net: Net) {
    && Sized(net)
    && WellFormed(net)
    && Signed(net)
    && QueuesExact(net)
    && NoMissedSender(net)
    && NoMissedInterrupt(net)
    && Acyclic(net.status)
  }

  // ---- the steps ----------------------------------------------------------

  ghost predicate Running(net: Net, p: Pid)
    requires Sized(net)
  {
    net.status[p].Ready? && net.marks[p] == {}
  }

  /** The destination is blocked waiting for just this sender. */
  predicate Awaits(net: Net, d: Pid, p: Pid)
    requires d < |net.status|
  {
    net.status[d].Receiving? && (net.status[d].from == ANY || net.status[d].from == p)
  }

  /** A send stops the machine: it is addressed to the sender, it would close a cycle of
      senders, or it would wake a process that the memory manager holds back. */
  ghost predicate SendHalts(net: Net, p: Pid, d: Pid)
    requires Sized(net)
  {
    p == d || Reaches(net.status, d, p) || (Awaits(net, d, p) && net.marks[d] != {})
  }

  function Deliver(net: Net, d: Pid, into: Addr, msg: Message): (r: Net)
    requires d < |net.memory|
  {
    net.(memory := net.memory[d := net.memory[d][into := msg]])
  }

  function Send(net: Net, p: Pid, d: Pid, m: Addr): (r: Net)
    requires |net.status| == |net.queue| == |net.memory| == NR_PROCS
  {
    if Awaits(net, d, p) then
      Deliver(net, d, net.status[d].into, Load(net.memory[p], m)).(status := net.status[d := Ready])
    else
      net.(status := net.status[p := Sending(d, m)], queue := net.queue[d := net.queue[d] + [p]])
  }

  function Without(q: seq<Pid>, p: Pid): (r: seq<Pid>) {
    if q == [] then [] else if q[0] == p then q[1..] else [q[0]] + Without(q[1..], p)
  }

  /** The queued sender that a receive from s takes, if there is one. */
  function Chosen(net: Net, p: Pid, s: int): (r: Link)
    requires |net.status| == |net.queue| == NR_PROCS
  {
    if s == ANY then (if net.queue[p] == [] then Nil else To(net.queue[p][0]))
    else if 0 <= s < NR_PROCS && net.status[s].Sending? && net.status[s].to == p then To(s)
    else Nil
  }

  const INT_MESSAGE := Message(INTERRUPT, HARD_INT, [])

  function Receive(net: Net, p: Pid, s: int, m: Addr): (r: Net)
    requires |net.status| == |net.queue| == |net.memory| == |net.pending| == NR_PROCS
  {
    if net.pending[p] && (s == ANY || s == INTERRUPT) then
      Deliver(net, p, m, INT_MESSAGE).(pending := net.pending[p := false])
    else match Chosen(net, p, s)
      case To(q) =>
        var msg := if net.status[q].Sending? then Load(net.memory[q], net.status[q].at) else ZERO_MESSAGE;
        Deliver(net, p, m, msg).(status := net.status[q := Ready],
                                 queue := net.queue[p := Without(net.queue[p], q)])
      case Nil =>
        net.(status := net.status[p := Receiving(s, m)])
  }

  /** The interrupt handler overwrites only the source and the type of the waiting buffer. */
  function Interrupt(net: Net, t: Pid): (r: Net)
    requires |net.status| == |net.memory| == |net.pending| == NR_PROCS
  {
    if net.status[t].Receiving? && (net.status[t].from == INTERRUPT || net.status[t].from == ANY) then
      var a := net.status[t].into;
      var msg := Load(net.memory[t], a).(source := INTERRUPT, kind := HARD_INT);
      Deliver(net, t, a, msg).(status := net.status[t := Ready], pending := net.pending[t := false])
    else
      net.(pending := net.pending[t := true])
  }

  /** sys_sendrec stamps the caller's number into its own message before anything else. */
  function Stamped(net: Net, p: Pid, m: Addr): Message
    requires p < |net.memory|
  {
    Load(net.memory[p], m).(source := p)
  }

  function Stamp(net: Net, p: Pid, m: Addr): (r: Net)
    requires p < |net.memory|
  {
    net.(memory := net.memory[p := net.memory[p][m := Stamped(net, p, m)]])
  }

  // ---- every step keeps the invariant -------------------------------------

  lemma StampKeepsInv(net: Net, p: Pid, m: Addr)
    requires Inv(net) && Running(net, p)
    ensures Inv(Stamp(net, p, m))
  {
  }

  lemma SendKeepsInv(net: Net, p: Pid, d: Pid, m: Addr)
    requires Inv(net) && Running(net, p) && m != 0 && !SendHalts(net, p, d)
    requires Load(net.memory[p], m).source == p
    ensures Inv(Send(net, p, d, m))
  {
    var r := Send(net, p, d, m);
    if Awaits(net, d, p) {
      FewerEdgesKeepAcyclic(net.status, r.status);
    } else {
      NewEdgeKeepsAcyclic(net.status, p, d, m);
      assert p !in net.queue[d];
    }
  }

  lemma {:induction false} WithoutContents(q: seq<Pid>, p: Pid)
    requires Distinct(q)
    ensures Distinct(Without(q, p))
    ensures forall x: Pid :: x in Without(q, p) <==> x in q && x != p
  {
    if q != [] && q[0] != p {
      WithoutContents(q[1..], p);
      assert q == [q[0]] + q[1..];
      assert q[0] !in q[1..];
    } else if q != [] {
      assert q == [q[0]] + q[1..];
      assert p !in q[1..];
    }
  }

  /** Taking one sender out of a queue. */
  lemma TakeKeepsInv(net: Net, p: Pid, q: Pid, r: Net)
    requires Inv(net) && Running(net, p) && q in net.queue[p]
    requires r == net.(status := net.status[q := Ready], queue := net.queue[p := Without(net.queue[p], q)],
                       memory := r.memory)
    requires |r.memory| == NR_PROCS && forall x: Pid :: x != p ==> r.memory[x] == net.memory[x]
    ensures Inv(r)
  {
    FewerEdgesKeepAcyclic(net.status, r.status);
    WithoutContents(net.queue[p], q);
    assert QueuesExact(r) by {
      forall d: Pid, x: Pid
        ensures x in r.queue[d] <==> r.status[x].Sending? && r.status[x].to == d
      {
        assert x in net.queue[d] <==> net.status[x].Sending? && net.status[x].to == d;
      }
    }
  }

  lemma ReceiveKeepsInv(net: Net, p: Pid, s: int, m: Addr)
    requires Inv(net) && Running(net, p) && m != 0 && ValidSource(p, s)
    ensures Inv(Receive(net, p, s, m))
  {
    var r := Receive(net, p, s, m);
    if !(net.pending[p] && (s == ANY || s == INTERRUPT)) {
      match Chosen(net, p, s)
      case To(q) =>
        assert q in net.queue[p];
        TakeKeepsInv(net, p, q, r);
      case Nil =>
        FewerEdgesKeepAcyclic(net.status, r.status);
    }
  }

  lemma InterruptKeepsInv(net: Net, t: Pid)
    requires Inv(net)
    ensures Inv(Interrupt(net, t))
  {
    FewerEdgesKeepAcyclic(net.status, Interrupt(net, t).status);
  }

  // ---- the memory manager's direct writes to the table --------------------

  /** do_wait and do_exit set a bit on the process whose request is being served. */
  function Mark(net: Net, p: Pid, f: Flag): (r: Net)
    requires p < |net.marks|
  {
    net.(marks := net.marks[p := net.marks[p] + {f}])
  }

  function Unmark(net: Net, p: Pid, f: Flag): (r: Net)
    requires p < |net.marks|
  {
    net.(marks := net.marks[p := net.marks[p] - {f}])
  }

  /** cleanup overwrites the whole flag word with FREE_SLOT. */
  function Release(net: Net, p: Pid): (r: Net)
    requires p < |net.marks| && p < |net.status|
  {
    net.(marks := net.marks[p := {}], status := net.status[p := Free])
  }

  /** do_fork copies the whole process record, and the image with it. */
  function Fork(net: Net, parent: Pid, child: Pid): (r: Net)
    requires |net.status| == |net.marks| == |net.queue| == |net.memory| == |net.pending| == NR_PROCS
  {
    net.(status := net.status[child := net.status[parent]],
         marks := net.marks[child := net.marks[parent]],
         queue := net.queue[child := net.queue[parent]],
         pending := net.pending[child := net.pending[parent]],
         memory := net.memory[child := net.memory[parent]])
  }

  /** The parent has handed its request over to the memory manager: it is blocked in the receive of
      the answer or about to be; and the child's slot is free. */
  ghost predicate ForkRequested(net: Net, parent: Pid, child: Pid)
    requires Sized(net)
  {
    && net.status[child].Free? && child != TASK_MM
    && (net.status[parent].Ready? || (net.status[parent].Receiving? && net.status[parent].from == TASK_MM))
  }

  ghost predicate ForkAllowed(net: Net, parent: Pid, child: Pid)
    requires Sized(net)
  {
    ForkRequested(net, parent, child) && net.queue[parent] == net.queue[child] == []
  }

  lemma ForkKeepsInv(net: Net, parent: Pid, child: Pid)
    requires Inv(net) && ForkAllowed(net, parent, child)
    ensures Inv(Fork(net, parent, child))
  {
    var r := Fork(net, parent, child);
    assert r.queue == net.queue;
    FewerEdgesKeepAcyclic(net.status, r.status);
  }

  /** Copying the record is right iff nobody waits in the queue of the parent or of the free slot: a
      process in the parent's queue would then be on two lists, and one in the slot's queue (a free
      slot can be sent to) would be on none. */
  lemma ForkKeepsInvExactly(net: Net, parent: Pid, child: Pid)
    requires Inv(net) && ForkRequested(net, parent, child)
    ensures Inv(Fork(net, parent, child)) <==> net.queue[parent] == [] && net.queue[child] == []
  {
    var r := Fork(net, parent, child);
    if net.queue[parent] != [] {
      var q := net.queue[parent][0];
      assert q in r.queue[parent] && q in r.queue[child];
    } else if net.queue[child] != [] {
      var q := net.queue[child][0];
      assert q in net.queue[child] && q !in r.queue[child];
      assert r.status[q].Sending? && r.status[q].to == child;
    } else {
      ForkKeepsInv(net, parent, child);
    }
  }

  lemma MarkKeepsInv(net: Net, p: Pid, f: Flag)
    requires Inv(net) && f in {WAITING, HANGING}
    requires net.status[p].Ready? || net.status[p].Receiving?
    ensures Inv(Mark(net, p, f))
    ensures Inv(Unmark(net, p, f))
  {
  }

  lemma ReleaseKeepsInv(net: Net, p: Pid)
    requires Inv(net) && !net.status[p].Sending?
    ensures Inv(Release(net, p))
  {
    FewerEdgesKeepAcyclic(net.status, Release(net, p).status);
  }

  // ---- whole runs ---------------------------------------------------------

  datatype Action =
    | DoSend(p: Pid, d: Pid, m: Addr)
    | DoReceive(p: Pid, s: int, m: Addr)
    | DoInterrupt(t: Pid)
    | DoStore(p: Pid, a: Addr, msg: Message)
    | DoMark(p: Pid, f: Flag)
    | DoUnmark(p: Pid, f: Flag)
    | DoRelease(p: Pid)
    | DoFork(parent: Pid, child: Pid)

  ghost predicate MayMark(net: Net, p: Pid, f: Flag)
    requires Sized(net)
  {
    Running(net, TASK_MM) && f in {WAITING, HANGING} && (net.status[p].Ready? || net.status[p].Receiving?)
  }

  /** The action can be attempted: system calls and stores come from a running process, and the
      memory manager, when it runs, touches only processes that are not in a sender queue. */
  ghost predicate Enabled(net: Net, a: Action)
    requires Sized(net)
  {
    match a
    case DoSend(p, d, m) => Running(net, p) && m != 0
    case DoReceive(p, s, m) => Running(net, p) && m != 0 && (s == ANY || s == INTERRUPT || 0 <= s < NR_PROCS)
    case DoInterrupt(t) => true
    case DoStore(p, addr, msg) => Running(net, p)
    case DoMark(p, f) => MayMark(net, p, f)
    case DoUnmark(p, f) => MayMark(net, p, f)
    case DoRelease(p) => Running(net, TASK_MM) && !net.status[p].Sending?
    case DoFork(parent, child) => Running(net, TASK_MM) && ForkAllowed(net, parent, child)
  }

  /** The action runs into a panic or a failed assert of the source. */
  ghost predicate Halts(net: Net, a: Action)
    requires Sized(net)
  {
    match a
    case DoSend(p, d, m) => SendHalts(net, p, d)
    case DoReceive(p, s, m) => p == s
    case DoInterrupt(t) => InterruptHalts(net, t)
    case _ => false
  }

  ghost predicate InterruptHalts(net: Net, t: Pid)
    requires Sized(net)
  {
    net.status[t].Receiving? && Accepts(net.status[t].from, INTERRUPT) && net.marks[t] != {}
  }

  ghost function Next(net: Net, a: Action): (r: Net)
    requires Sized(net)
  {
    match a
    case DoSend(p, d, m) => Send(Stamp(net, p, m), p, d, m)
    case DoReceive(p, s, m) => Receive(Stamp(net, p, m), p, s, m)
    case DoInterrupt(t) => Interrupt(net, t)
    case DoStore(p, addr, msg) => Deliver(net, p, addr, msg)
    case DoMark(p, f) => Mark(net, p, f)
    case DoUnmark(p, f) => Unmark(net, p, f)
    case DoRelease(p) => Release(net, p)
    case DoFork(parent, child) => Fork(net, parent, child)
  }

  lemma StepKeepsInv(net: Net, a: Action)
    requires Inv(net) && Enabled(net, a) && !Halts(net, a)
    ensures Inv(Next(net, a))
  {
    match a
    case DoSend(p, d, m) =>
      StampKeepsInv(net, p, m);
      SendKeepsInv(Stamp(net, p, m), p, d, m);
    case DoReceive(p, s, m) =>
      StampKeepsInv(net, p, m);
      ReceiveKeepsInv(Stamp(net, p, m), p, s, m);
    case DoInterrupt(t) => InterruptKeepsInv(net, t);
    case DoStore(p, addr, msg) =>
    case DoMark(p, f) => MarkKeepsInv(net, p, f);
    case DoUnmark(p, f) => MarkKeepsInv(net, p, f);
    case DoRelease(p) => ReleaseKeepsInv(net, p);
    case DoFork(parent, child) => ForkKeepsInv(net, parent, child);
  }

  /** The process table as tinix_main leaves it: tasks and native processes run, the rest is free. */
  ghost predicate Boot(net: Net) {
    Sized(net) &&
    forall p: Pid ::
      && net.status[p] == (if p < NR_TASKS + NR_NATIVE_PROCS then Ready else Free)
      && net.marks[p] == {} && net.queue[p] == [] && !net.pending[p]
  }

  lemma BootSatisfiesInv(net: Net)
    requires Boot(net)
    ensures Inv(net)
  {
    assert Ranked(net.status, seq(NR_PROCS, _ => 0));
  }

  /** A message on its way from one process to another. */
  datatype Letter = Letter(from: Pid, to: Pid, msg: Message)

  /** The machine together with everything ever sent and everything ever handed over. */
  datatype World = World(net: Net, sent: seq<Letter>, got: seq<Letter>)

  ghost function SentBy(net: Net, a: Action): seq<Letter>
    requires Sized(net)
  {
    if a.DoSend? then [Letter(a.p, a.d, Stamped(net, a.p, a.m))] else []
  }

  /** What the action copies from one process's buffer into another's. */
  ghost function HandedBy(net: Net, a: Action): seq<Letter>
    requires Sized(net)
  {
    match a
    case DoSend(p, d, m) =>
      if Awaits(net, d, p) then [Letter(p, d, Load(Next(net, a).memory[d], net.status[d].into))] else []
    case DoReceive(p, s, m) =>
      if net.pending[p] && (s == ANY || s == INTERRUPT) then [] else
      var q := Chosen(net, p, s);
      if q.To? then [Letter(q.pid, p, Load(Next(net, a).memory[p], m))] else []
    case _ => []
  }

  ghost function Advance(w: World, a: Action): World
    requires Sized(w.net)
  {
    World(Next(w.net, a), w.sent + SentBy(w.net, a), w.got + HandedBy(w.net, a))
  }

  /** The run of actions is possible from w and reaches w'; no action of it halts the machine. */
  ghost predicate Run(w: World, actions: seq<Action>, w': World)
    decreases |actions|
  {
    if actions == [] then w == w' else
      && Sized(w.net)
      && Enabled(w.net, actions[0]) && !Halts(w.net, actions[0])
      && Run(Advance(w, actions[0]), actions[1..], w')
  }

  /** The messages of a log that go from s to d, in order. */
  ghost function Between(log: seq<Letter>, s: Pid, d: Pid): seq<Message> {
    if log == [] then []
    else Between(log[..|log| - 1], s, d) +
         (var last := log[|log| - 1]; if last.from == s && last.to == d then [last.msg] else [])
  }

  /** The message that s has in a queue for d: at most one, and it sits in s's own buffer. */
  ghost function InFlight(net: Net, s: Pid, d: Pid): seq<Message>
    requires Sized(net)
  {
    if net.status[s].Sending? && net.status[s].to == d then [Load(net.memory[s], net.status[s].at)] else []
  }

  /** Sent and delivered messages of each pair agree, in order and payload, up to the one in flight. */
  ghost predicate Conserved(w: World) {
    Sized(w.net) &&
    forall s: Pid, d: Pid :: Between(w.sent, s, d) == Between(w.got, s, d) + InFlight(w.net, s, d)
  }

  ghost predicate SourcesTrue(log: seq<Letter>) {
    forall i :: 0 <= i < |log| ==> log[i].msg.source == log[i].from
  }

  lemma Rebalance(sent: seq<Message>, got: seq<Message>, held: seq<Message>,
                  sent1: seq<Message>, got1: seq<Message>, held1: seq<Message>)
    requires sent == got + held && held + sent1 == got1 + held1
    ensures sent + sent1 == (got + got1) + held1
  {
    calc {
      (got + held) + sent1;
      got + (held + sent1);
      got + (got1 + held1);
      (got + got1) + held1;
    }
  }

  lemma BetweenConcat(log: seq<Letter>, more: seq<Letter>, s: Pid, d: Pid)
    requires |more| <= 1
    ensures Between(log + more, s, d) == Between(log, s, d) + Between(more, s, d)
  {
    if more == [] {
      assert log + more == log;
    } else {
      assert (log + more)[..|log|] == log;
      assert more[..0] == [];
    }
  }

  /** One step moves messages of a pair between "in flight" and "handed over" without loss. */
  lemma SendBalances(net: Net, p: Pid, e: Pid, m: Addr, s: Pid, d: Pid)
    requires Inv(net) && Running(net, p) && !SendHalts(net, p, e)
    ensures var a := DoSend(p, e, m);
            InFlight(net, s, d) + Between(SentBy(net, a), s, d) ==
            Between(HandedBy(net, a), s, d) + InFlight(Next(net, a), s, d)
  {
  }

  lemma ReceiveBalances(net: Net, p: Pid, f: int, m: Addr, s: Pid, d: Pid)
    requires Inv(net) && Enabled(net, DoReceive(p, f, m)) && p != f
    ensures var a := DoReceive(p, f, m);
            InFlight(net, s, d) == Between(HandedBy(net, a), s, d) + InFlight(Next(net, a), s, d)
  {
    var q := Chosen(net, p, f);
    if q.To? {
      assert q.pid in net.queue[p];
    }
  }

  lemma StepBalances(net: Net, a: Action, s: Pid, d: Pid)
    requires Inv(net) && Enabled(net, a) && !Halts(net, a)
    ensures InFlight(net, s, d) + Between(SentBy(net, a), s, d) ==
            Between(HandedBy(net, a), s, d) + InFlight(Next(net, a), s, d)
  {
    if a.DoSend? {
      SendBalances(net, a.p, a.d, a.m, s, d);
    } else if a.DoReceive? {
      ReceiveBalances(net, a.p, a.s, a.m, s, d);
    }
  }

  lemma StepConserves(w: World, a: Action)
    requires Inv(w.net) && Conserved(w) && Enabled(w.net, a) && !Halts(w.net, a)
    ensures Conserved(Advance(w, a))
  {
    forall s: Pid, d: Pid {
      StepBalances(w.net, a, s, d);
    }
    BalancedStepConserves(w, SentBy(w.net, a), HandedBy(w.net, a), Next(w.net, a));
  }

  lemma BalancedStepConserves(w: World, sent: seq<Letter>, handed: seq<Letter>, next: Net)
    requires Conserved(w) && Sized(next) && |sent| <= 1 && |handed| <= 1
    requires forall s: Pid, d: Pid :: InFlight(w.net, s, d) + Between(sent, s, d) ==
                                      Between(handed, s, d) + InFlight(next, s, d)
    ensures Conserved(World(next, w.sent + sent, w.got + handed))
  {
    forall s: Pid, d: Pid
      ensures Between(w.sent + sent, s, d) == Between(w.got + handed, s, d) + InFlight(next, s, d)
    {
      BetweenConcat(w.sent, sent, s, d);
      BetweenConcat(w.got, handed, s, d);
      Rebalance(Between(w.sent, s, d), Between(w.got, s, d), InFlight(w.net, s, d),
                Between(sent, s, d), Between(handed, s, d), InFlight(next, s, d));
    }
  }

  lemma HandedAreSigned(net: Net, a: Action)
    requires Inv(net) && Enabled(net, a) && !Halts(net, a)
    ensures SourcesTrue(HandedBy(net, a))
  {
    if a.DoReceive? && Chosen(net, a.p, a.s).To? {
      assert Chosen(net, a.p, a.s).pid in net.queue[a.p];
    }
  }

  lemma {:induction false} RunIsSafe(w: World, actions: seq<Action>, w': World)
    requires Inv(w.net) && Conserved(w) && SourcesTrue(w.got)
    requires Run(w, actions, w')
    ensures Inv(w'.net) && Conserved(w') && SourcesTrue(w'.got)
    decreases |actions|
  {
    if actions == [] {
    } else {
      StepKeepsInv(w.net, actions[0]);
      StepConserves(w, actions[0]);
      HandedAreSigned(w.net, actions[0]);
      RunIsSafe(Advance(w, actions[0]), actions[1..], w');
    }
  }

  /** Over any run from boot that does not halt: the invariant holds, nobody waits for itself,
      and every completed SEND was delivered exactly once, in order, with its payload and
      its true source. */
  lemma RunFromBootIsSafe(w: World, actions: seq<Action>, w': World)
    requires Boot(w.net) && w.sent == w.got == []
    requires Run(w, actions, w')
    ensures Inv(w'.net) && Conserved(w') && SourcesTrue(w'.got)
    ensures forall p: Pid :: !(w'.net.status[p].Sending? && Reaches(w'.net.status, w'.net.status[p].to, p))
  {
    BootSatisfiesInv(w.net);
    RunIsSafe(w, actions, w');
    forall p: Pid {
      NobodyWaitsForItself(w'.net.status, p);
    }
  }

  // ---- arrival order at one process ---------------------------------------

  /** The messages of a log that are addressed to d, in order. */
  ghost function Arrivals(log: seq<Letter>, d: Pid): seq<Message> {
    if log == [] then []
    else Arrivals(log[..|log| - 1], d) +
         (var last := log[|log| - 1]; if last.to == d then [last.msg] else [])
  }

  /** The messages waiting in d's queue, oldest first. */
  ghost function Waiting(net: Net, q: seq<Pid>): seq<Message>
    requires Sized(net)
  {
    if q == [] then []
    else Waiting(net, q[..|q| - 1]) + [Held(net, q[|q| - 1])]
  }

  ghost function Held(net: Net, p: Pid): Message
    requires Sized(net)
  {
    if net.status[p].Sending? then Load(net.memory[p], net.status[p].at) else ZERO_MESSAGE
  }

  /** d asks for anybody or for an interrupt, never for one particular process. */
  ghost predicate Undiscriminating(actions: seq<Action>, d: Pid) {
    forall i :: 0 <= i < |actions| && actions[i].DoReceive? && actions[i].p == d ==>
      actions[i].s == ANY || actions[i].s == INTERRUPT
  }

  ghost predicate FirstComeFirstServed(w: World, d: Pid) {
    && Sized(w.net)
    && AsksAnybody(w.net, d)
    && Arrivals(w.sent, d) == Arrivals(w.got, d) + Waiting(w.net, w.net.queue[d])
  }

  lemma ArrivalsConcat(log: seq<Letter>, more: seq<Letter>, d: Pid)
    requires |more| <= 1
    ensures Arrivals(log + more, d) == Arrivals(log, d) + Arrivals(more, d)
  {
    if more == [] {
      assert log + more == log;
    } else {
      assert (log + more)[..|log|] == log;
      assert more[..0] == [];
    }
  }

  lemma {:induction false} WaitingSame(net: Net, net': Net, q: seq<Pid>)
    requires Sized(net) && Sized(net')
    requires forall p: Pid :: p in q ==> Held(net, p) == Held(net', p)
    ensures Waiting(net, q) == Waiting(net', q)
  {
    if q == [] {
    } else {
      assert q[|q| - 1] in q;
      WaitingSame(net, net', q[..|q| - 1]);
    }
  }

  lemma {:induction false} WaitingFirst(net: Net, q: seq<Pid>)
    requires Sized(net) && q != []
    ensures Waiting(net, q) == [Held(net, q[0])] + Waiting(net, q[1..])
  {
    if |q| == 1 {
    } else {
      WaitingFirst(net, q[..|q| - 1]);
      assert q[..|q| - 1][1..] == q[1..][..|q| - 2];
    }
  }

  lemma SomebodyWaits(q: seq<Pid>)
    ensures q != [] ==> exists p: Pid :: p in q
  {
    if q != [] {
      assert q[0] in q;
    }
  }

  lemma SendKeepsOrder(net: Net, a: Action, d: Pid)
    requires Inv(net) && Enabled(net, a) && !Halts(net, a) && a.DoSend?
    requires AsksAnybody(net, d)
    ensures Waiting(net, net.queue[d]) + Arrivals(SentBy(net, a), d) ==
            Arrivals(HandedBy(net, a), d) + Waiting(Next(net, a), Next(net, a).queue[d])
  {
    var next := Next(net, a);
    assert a.p !in net.queue[d];
    WaitingSame(net, next, net.queue[d]);
    if a.d == d {
      if Awaits(net, d, a.p) {
        SomebodyWaits(net.queue[d]);
      } else {
        assert (net.queue[d] + [a.p])[..|net.queue[d]|] == net.queue[d];
      }
    }
  }

  /** d takes the first sender of its queue: it gets that message, and the others wait on. */
  lemma TakesFirst(net: Net, a: Action, d: Pid)
    requires Inv(net) && Enabled(net, a) && !Halts(net, a) && a.DoReceive?
    requires a.p == d && a.s == ANY && !net.pending[d] && net.queue[d] != []
    ensures var q, r := net.queue[d], Next(net, a);
            && Sized(r) && r.queue[d] == q[1..]
            && HandedBy(net, a) == [Letter(q[0], d, Held(net, q[0]))]
            && forall p: Pid :: p in q[1..] ==> Held(r, p) == Held(net, p)
  {
    hide NoMissedSender, NoMissedInterrupt, Signed, Acyclic;
    var q := net.queue[d];
    assert q[0] in q && d !in q && q[0] !in q[1..];
  }

  lemma TakeKeepsOrder(net: Net, a: Action, d: Pid)
    requires Inv(net) && Enabled(net, a) && !Halts(net, a) && a.DoReceive?
    requires a.p == d && a.s == ANY && !net.pending[d] && net.queue[d] != []
    ensures Waiting(net, net.queue[d]) == Arrivals(HandedBy(net, a), d) + Waiting(Next(net, a), Next(net, a).queue[d])
  {
    hide Next, HandedBy, WellFormed, Signed, QueuesExact, NoMissedSender, NoMissedInterrupt, Acyclic, Enabled, Held;
    var q := net.queue[d];
    TakesFirst(net, a, d);
    WaitingFirst(net, q);
    WaitingSame(net, Next(net, a), q[1..]);
    ArrivesOne(q[0], d, Held(net, q[0]));
  }

  lemma ArrivesOne(p: Pid, d: Pid, msg: Message)
    ensures Arrivals([Letter(p, d, msg)], d) == [msg]
  {
    assert Arrivals([], d) == [];
  }

  /** Any other receive leaves d's queue alone. */
  lemma LeaveKeepsOrder(net: Net, a: Action, d: Pid)
    requires Inv(net) && Enabled(net, a) && !Halts(net, a) && a.DoReceive?
    requires a.p == d ==> a.s == INTERRUPT || (a.s == ANY && (net.pending[d] || net.queue[d] == []))
    ensures Waiting(net, net.queue[d]) == Arrivals(HandedBy(net, a), d) + Waiting(Next(net, a), Next(net, a).queue[d])
  {
    hide NoMissedSender, NoMissedInterrupt, Signed, Acyclic;
    var q := Chosen(net, a.p, a.s);
    if q.To? {
      assert q.pid in net.queue[a.p];
    }
    assert a.p !in net.queue[d];
    WaitingSame(net, Next(net, a), net.queue[d]);
  }

  lemma ReceiveKeepsOrder(net: Net, a: Action, d: Pid)
    requires Inv(net) && Enabled(net, a) && !Halts(net, a) && a.DoReceive?
    requires a.p == d ==> a.s == ANY || a.s == INTERRUPT
    ensures Waiting(net, net.queue[d]) == Arrivals(HandedBy(net, a), d) + Waiting(Next(net, a), Next(net, a).queue[d])
  {
    hide Next, HandedBy, Waiting, Arrivals, WellFormed, Signed, QueuesExact, NoMissedSender, NoMissedInterrupt, Acyclic;
    if a.p == d && a.s == ANY && !net.pending[d] && net.queue[d] != [] {
      TakeKeepsOrder(net, a, d);
    } else {
      LeaveKeepsOrder(net, a, d);
    }
  }

  lemma OtherKeepsOrder(net: Net, a: Action, d: Pid)
    requires Inv(net) && Enabled(net, a) && !a.DoSend? && !a.DoReceive?
    requires a.DoFork? ==> a.child != d
    ensures Waiting(net, net.queue[d]) == Waiting(Next(net, a), Next(net, a).queue[d])
  {
    WaitingSame(net, Next(net, a), net.queue[d]);
  }

  ghost predicate AsksAnybody(net: Net, d: Pid)
    requires Sized(net)
  {
    net.status[d].Receiving? ==> net.status[d].from == ANY || net.status[d].from == INTERRUPT
  }

  lemma StillAsksAnybody(net: Net, a: Action, d: Pid)
    requires Inv(net) && Enabled(net, a) && !Halts(net, a) && AsksAnybody(net, d)
    requires a.DoReceive? && a.p == d ==> a.s == ANY || a.s == INTERRUPT
    requires a.DoFork? ==> a.child != d
    ensures AsksAnybody(Next(net, a), d)
  {
  }

  lemma StepKeepsOrder(net: Net, a: Action, d: Pid)
    requires Inv(net) && AsksAnybody(net, d) && Enabled(net, a) && !Halts(net, a)
    requires a.DoReceive? && a.p == d ==> a.s == ANY || a.s == INTERRUPT
    requires a.DoFork? ==> a.child != d
    ensures Waiting(net, net.queue[d]) + Arrivals(SentBy(net, a), d) ==
            Arrivals(HandedBy(net, a), d) + Waiting(Next(net, a), Next(net, a).queue[d])
  {
    if a.DoSend? {
      SendKeepsOrder(net, a, d);
    } else if a.DoReceive? {
      ReceiveKeepsOrder(net, a, d);
    } else {
      OtherKeepsOrder(net, a, d);
    }
  }

  lemma OrderedStep(w: World, sent: seq<Letter>, handed: seq<Letter>, next: Net, d: Pid)
    requires Sized(w.net) && Sized(next) && |sent| <= 1 && |handed| <= 1
    requires Arrivals(w.sent, d) == Arrivals(w.got, d) + Waiting(w.net, w.net.queue[d])
    requires Waiting(w.net, w.net.queue[d]) + Arrivals(sent, d) ==
             Arrivals(handed, d) + Waiting(next, next.queue[d])
    ensures Arrivals(w.sent + sent, d) == Arrivals(w.got + handed, d) + Waiting(next, next.queue[d])
  {
    ArrivalsConcat(w.sent, sent, d);
    ArrivalsConcat(w.got, handed, d);
    Rebalance(Arrivals(w.sent, d), Arrivals(w.got, d), Waiting(w.net, w.net.queue[d]),
              Arrivals(sent, d), Arrivals(handed, d), Waiting(next, next.queue[d]));
  }

  /** A process that never asks for one particular sender gets its messages in the order in
      which they were sent to it, each exactly once. */
  lemma {:induction false} RunKeepsOrder(w: World, actions: seq<Action>, w': World, d: Pid)
    requires Inv(w.net) && FirstComeFirstServed(w, d)
    requires Run(w, actions, w') && Undiscriminating(actions, d)
    requires forall i :: 0 <= i < |actions| && actions[i].DoFork? ==> actions[i].child != d
    ensures FirstComeFirstServed(w', d)
    decreases |actions|
  {
    if actions == [] {
    } else {
      StepKeepsInv(w.net, actions[0]);
      StillAsksAnybody(w.net, actions[0], d);
      StepKeepsOrder(w.net, actions[0], d);
      OrderedStep(w, SentBy(w.net, actions[0]), HandedBy(w.net, actions[0]), Next(w.net, actions[0]), d);
      RunKeepsOrder(Advance(w, actions[0]), actions[1..], w', d);
    }
  }
}
