/** kernel/proc.c: the process table with its flag words and its sender lists, which are
    singly linked through the table.  Every operation refines a step of Rendezvous. */
module Kernel {
  import opened ProcTable
  import opened Rendezvous

  /** The fields of struct proc that IPC uses. */
  datatype Proc = Proc(
    flags: set<Flag>,
    msg: Addr,
    recvfrom: int,
    sendto: int,
    hasIntMsg: bool,
    qSending: Link,
    nextSending: Link)

  ghost predicate Matches(proc: Proc, status: Status, marks: set<Flag>, pending: bool) {
    && proc.hasIntMsg == pending
    && (!status.Sending? ==> proc.nextSending == Nil)
    && match status
       case Ready =>
         proc.flags == marks && proc.msg == 0 && proc.recvfrom == NO_TASK && proc.sendto == NO_TASK
       case Sending(to, at) =>
         proc.flags == {SENDING} + marks && proc.msg == at && proc.recvfrom == NO_TASK && proc.sendto == to
       case Receiving(from, into) =>
         proc.flags == {RECEIVING} + marks && proc.msg == into && proc.recvfrom == from && proc.sendto == NO_TASK
       case Free =>
         proc.flags == {FREE_SLOT}
  }

  function Head(q: seq<Pid>): Link {
    if q == [] then Nil else To(q[0])
  }

  function After(q: seq<Pid>, i: nat): Link {
    if i + 1 < |q| then To(q[i + 1]) else Nil
  }

  /** The list that starts at d's q_sending runs through exactly the processes of q, in order. */
  ghost predicate Linked(table: seq<Proc>, d: Pid, q: seq<Pid>)
    requires |table| == NR_PROCS
  {
    && table[d].qSending == Head(q)
    && forall i :: 0 <= i < |q| ==> table[q[i]].nextSending == After(q, i)
  }

  ghost predicate Represents(table: seq<Proc>, net: Net) {
    && |table| == NR_PROCS && Sized(net)
    && (forall p: Pid :: Matches(table[p], net.status[p], net.marks[p], net.pending[p]))
    && (forall d: Pid :: Linked(table, d, net.queue[d]))
  }

  class ProcessTable {
    var table: seq<Proc>
    var memory: seq<Memory>
    ghost var net: Net

    ghost predicate Valid()
      reads this
    {
      Inv(net) && Represents(table, net) && net.memory == memory
    }

    /** The walk along p_sendto.  It ends because the graph is acyclic, and it finds the
        sender exactly when the sender can be reached from the destination. */
    method Deadlock(src: Pid, dest: Pid) returns (found: bool)
      requires Valid() && src != dest
      ensures found <==> Reaches(net.status, dest, src)
    {
      ghost var rank: seq<nat> :| Ranked(net.status, rank);
      var p: Pid := dest;
      while true
        invariant p != src
        invariant Reaches(net.status, dest, src) <==> Reaches(net.status, p, src)
        decreases rank[p]
      {
        ReachesUnfold(net.status, p, src);
        if SENDING in table[p].flags {
          ReachesUnfold(net.status, net.status[p].to, src);
          if table[p].sendto == src {
            PrintChain(src, dest);
            return true;
          }
          p := table[p].sendto;
        } else {
          return false;
        }
      }
    }

    /** The second walk of deadlock, which prints the chain: it reaches src, and every process
        on the way holds a message. */
    method PrintChain(src: Pid, dest: Pid)
      requires Valid() && src != dest && Reaches(net.status, dest, src)
    {
      ghost var rank: seq<nat> :| Ranked(net.status, rank);
      var p: Pid := dest;
      while p != src
        invariant Reaches(net.status, p, src)
        decreases rank[p]
      {
        ReachesUnfold(net.status, p, src);
        assert table[p].msg != 0;
        p := table[p].sendto;
      }
    }

    method Unblock(p: Pid)
      requires |table| == NR_PROCS && table[p].flags == {}
    {
      assert table[p].flags == {};
    }

    /** Sends m from p to d; false means that the machine stopped at the deadlock panic or at
        a failed assert, and then nothing was changed. */
    method MsgSend(p: Pid, d: Pid, m: Addr) returns (ok: bool)
      requires Valid() && Running(net, p) && m != 0 && Load(memory[p], m).source == p
      modifies this
      ensures ok <==> !SendHalts(old(net), p, d)
      ensures Valid() && net == if ok then Send(old(net), p, d, m) else old(net)
      ensures !ok ==> table == old(table) && memory == old(memory)
    {
      if p == d {
        return false;
      }
      var cyclic := Deadlock(p, d);
      if cyclic {
        return false;
      }
      if RECEIVING in table[d].flags && (table[d].recvfrom == p || table[d].recvfrom == ANY) {
        assert table[d].msg != 0;
        if table[d].flags != {RECEIVING} {
          return false;
        }
        HandOver(p, d, m);
      } else {
        Enqueue(p, d, m);
      }
      return true;
    }

    /** The branch of msg_send for a destination that waits for the sender: copies the message and wakes
        the destination. */
    method HandOver(p: Pid, d: Pid, m: Addr)
      requires Valid() && Running(net, p) && m != 0 && Load(memory[p], m).source == p
      requires Awaits(net, d, p) && !SendHalts(net, p, d)
      modifies this
      ensures Valid() && net == Send(old(net), p, d, m)
    {
      SendKeepsInv(net, p, d, m);
      net := Send(net, p, d, m);
      memory := memory[d := memory[d][table[d].msg := Load(memory[p], m)]];
      table := table[d := table[d].(msg := 0, flags := table[d].flags - {RECEIVING}, recvfrom := NO_TASK)];
      Unblock(d);
      assert table[d].flags == {} && table[d].msg == 0 && table[d].recvfrom == NO_TASK && table[d].sendto == NO_TASK;
      assert table[p].flags == {} && table[p].msg == 0 && table[p].recvfrom == NO_TASK && table[p].sendto == NO_TASK;
      assert forall e: Pid :: Linked(old(table), e, net.queue[e]);
    }

    /** The last process on d's list. */
    method LastSender(d: Pid) returns (last: Pid)
      requires |table| == NR_PROCS && |net.queue| == NR_PROCS
      requires Linked(table, d, net.queue[d]) && net.queue[d] != []
      ensures last == net.queue[d][|net.queue[d]| - 1]
    {
      ghost var q, i := net.queue[d], 0;
      last := table[d].qSending.pid;
      while table[last].nextSending.To?
        invariant 0 <= i < |q| && last == q[i]
        decreases |q| - i
      {
        last := table[last].nextSending.pid;
        i := i + 1;
      }
    }

    /** Blocks p as a sender and appends it to d's list. */
    method Enqueue(p: Pid, d: Pid, m: Addr)
      requires Valid() && Running(net, p) && m != 0 && Load(memory[p], m).source == p
      requires !SendHalts(net, p, d) && !Awaits(net, d, p)
      modifies this
      ensures Valid() && net == Send(old(net), p, d, m)
    {
      assert Linked(table, d, net.queue[d]);
      var tail := Nil;
      if table[d].qSending.To? {
        var last := LastSender(d);
        tail := To(last);
      }
      Append(p, d, m, tail);
      SendKeepsInv(net, p, d, m);
      Appended(old(table), table, net, p, d, m);
      net := Send(net, p, d, m);
    }

    /** The writes of msg_send's blocking branch: the sender's fields, then the link to it. */
    method Append(p: Pid, d: Pid, m: Addr, tail: Link)
      requires |table| == NR_PROCS && Sized(net) && table[p].flags == {}
      requires p != d && d !in net.queue[d] && p !in net.queue[d]
      requires tail == if net.queue[d] == [] then Nil else To(net.queue[d][|net.queue[d]| - 1])
      modifies this`table
      ensures |table| == NR_PROCS && IsAppend(old(table), table, net.queue[d], p, d, m)
    {
      table := table[p := table[p].(flags := table[p].flags + {SENDING}, sendto := d, msg := m)];
      assert table[p].flags == {SENDING};
      if tail.To? {
        table := table[tail.pid := table[tail.pid].(nextSending := To(p))];
      } else {
        table := table[d := table[d].(qSending := To(p))];
      }
      table := table[p := table[p].(nextSending := Nil)];
    }

    /** Receives from s into m; false means a failed assert. */
    method MsgReceive(p: Pid, s: int, m: Addr) returns (ok: bool)
      requires Valid() && Running(net, p) && m != 0
      requires s == ANY || s == INTERRUPT || 0 <= s < NR_PROCS
      modifies this
      ensures ok <==> p != s
      ensures Valid() && net == if ok then Receive(old(net), p, s, m) else old(net)
    {
      if p == s {
        return false;
      }
      if table[p].hasIntMsg && (s == ANY || s == INTERRUPT) {
        TakeInterrupt(p, s, m);
        return true;
      }
      var from, prev := Nil, Nil;
      if s == ANY {
        from := table[p].qSending;
        assert Linked(table, p, net.queue[p]);
        assert from.To? ==> net.queue[p][0] in net.queue[p] && At(net.queue[p], 0, from.pid, prev);
      } else if s == INTERRUPT {
      } else if SENDING in table[s].flags && table[s].sendto == p {
        prev := FindSender(p, s);
        from := To(s);
      }
      if from.To? {
        TakeMessage(p, s, m, from.pid, prev);
      } else {
        BlockReceiver(p, s, m);
      }
      return true;
    }

    method TakeInterrupt(p: Pid, s: int, m: Addr)
      requires Valid() && Running(net, p) && m != 0 && (s == ANY || s == INTERRUPT) && net.pending[p]
      modifies this
      ensures Valid() && net == Receive(old(net), p, s, m)
    {
      ReceiveKeepsInv(net, p, s, m);
      net := Receive(net, p, s, m);
      memory := memory[p := memory[p][m := INT_MESSAGE]];
      table := table[p := table[p].(hasIntMsg := false)];
      assert table[p].flags == {} && table[p].msg == 0 && table[p].sendto == NO_TASK && !table[p].hasIntMsg;
      assert forall e: Pid :: Linked(old(table), e, net.queue[e]);
    }

    /** Walks p's list up to s; prev is the process before it, or null if s is first. */
    method FindSender(p: Pid, s: Pid) returns (prev: Link)
      requires Valid() && s in net.queue[p]
      ensures var q := net.queue[p];
              exists i :: At(q, i, s, prev)
    {
      ghost var q, i := net.queue[p], 0;
      assert Linked(table, p, q);
      prev := Nil;
      var x := table[p].qSending;
      assert x.To?;
      while x.To?
        invariant 0 <= i <= |q| && s !in q[..i]
        invariant x == if i < |q| then To(q[i]) else Nil
        invariant prev == if i == 0 then Nil else To(q[i - 1])
        decreases |q| - i
      {
        assert SENDING in table[s].flags;
        if x.pid == s {
          assert At(q, i, s, prev);
          return;
        }
        prev := x;
        x := table[x.pid].nextSending;
        i := i + 1;
      }
      assert false;
    }

    /** The branch of msg_receive that found a sender: unlink it, copy, wake it. */
    method TakeMessage(p: Pid, s: int, m: Addr, from: Pid, prev: Link)
      requires Valid() && Running(net, p) && m != 0 && p != s && ValidSource(p, s)
      requires !(net.pending[p] && (s == ANY || s == INTERRUPT))
      requires Chosen(net, p, s) == To(from) && from in net.queue[p]
      requires exists i :: At(net.queue[p], i, from, prev)
      modifies this
      ensures Valid() && net == Receive(old(net), p, s, m)
    {
      assert table[p].flags == {} && table[p].msg == 0 && table[p].recvfrom == NO_TASK && table[p].sendto == NO_TASK;
      assert table[p].qSending != Nil by { assert Linked(table, p, net.queue[p]); }
      assert table[from].flags == {SENDING} && table[from].msg != 0;
      assert table[from].recvfrom == NO_TASK && table[from].sendto == p;
      assert table[p].qSending == To(from) <==> prev == Nil by { FirstHasNoPrevious(table, net, p, from, prev); }
      ReceiveKeepsInv(net, p, s, m);
      Removed(table, net, p, s, m, from, prev);
      memory := memory[p := memory[p][m := Load(memory[from], table[from].msg)]];
      table := Unlink(table, p, from, prev);
      table := table[from := table[from].(msg := 0, sendto := NO_TASK, flags := table[from].flags - {SENDING})];
      Unblock(from);
      net := Receive(net, p, s, m);
    }

    /** Nobody to receive from: the caller blocks, and it was running before. */
    method BlockReceiver(p: Pid, s: int, m: Addr)
      requires Valid() && Running(net, p) && m != 0 && ValidSource(p, s)
      requires !(net.pending[p] && (s == ANY || s == INTERRUPT)) && Chosen(net, p, s) == Nil
      modifies this
      ensures Valid() && net == Receive(old(net), p, s, m)
    {
      ReceiveKeepsInv(net, p, s, m);
      net := Receive(net, p, s, m);
      table := table[p := table[p].(flags := table[p].flags + {RECEIVING}, msg := m, recvfrom := s)];
      assert table[p].flags == {RECEIVING};
      assert forall e: Pid :: Linked(old(table), e, net.queue[e]);
    }

    /** The interrupt handler's half: wakes a process that waits for an interrupt, or leaves
        the interrupt pending.  False means a failed assert. */
    method InformInt(t: Pid) returns (ok: bool)
      requires Valid()
      modifies this
      ensures ok <==> !InterruptHalts(old(net), t)
      ensures Valid() && net == if ok then Interrupt(old(net), t) else old(net)
    {
      if RECEIVING in table[t].flags && (table[t].recvfrom == INTERRUPT || table[t].recvfrom == ANY) {
        if table[t].flags != {RECEIVING} {
          return false;
        }
        DeliverInterrupt(t);
      } else {
        InterruptKeepsInv(net, t);
        net := Interrupt(net, t);
        table := table[t := table[t].(hasIntMsg := true)];
        assert forall e: Pid :: Linked(old(table), e, net.queue[e]);
      }
      return true;
    }

    /** The branch of inform_int for a process that waits for an interrupt. */
    method DeliverInterrupt(t: Pid)
      requires Valid() && table[t].flags == {RECEIVING}
      requires table[t].recvfrom == INTERRUPT || table[t].recvfrom == ANY
      modifies this
      ensures Valid() && net == Interrupt(old(net), t)
    {
      InterruptKeepsInv(net, t);
      net := Interrupt(net, t);
      var a := table[t].msg;
      memory := memory[t := memory[t][a := Load(memory[t], a).(source := INTERRUPT, kind := HARD_INT)]];
      table := table[t := table[t].(msg := 0, hasIntMsg := false, flags := table[t].flags - {RECEIVING},
                                    recvfrom := NO_TASK)];
      Unblock(t);
      assert table[t].msg == 0 && table[t].recvfrom == NO_TASK && table[t].sendto == NO_TASK;
      assert forall e: Pid :: Linked(old(table), e, net.queue[e]);
    }

    /** The system call: stamps the caller's number into its message, then sends or receives.
        After a halt only the stamp has been written. */
    method SysSendrec(send: bool, srcDest: int, m: Addr, caller: Pid) returns (ok: bool)
      requires Valid() && Running(net, caller) && m != 0
      requires 0 <= srcDest < NR_PROCS || (!send && (srcDest == ANY || srcDest == INTERRUPT))
      modifies this
      ensures Valid()
      ensures var a := if send then DoSend(caller, srcDest, m) else DoReceive(caller, srcDest, m);
              && (ok <==> !Halts(old(net), a))
              && net == if ok then Next(old(net), a) else Stamp(old(net), caller, m)
    {
      StampKeepsInv(net, caller, m);
      memory := memory[caller := memory[caller][m := Load(memory[caller], m).(source := caller)]];
      net := Stamp(net, caller, m);
      if send {
        ok := MsgSend(caller, srcDest, m);
      } else {
        ok := MsgReceive(caller, srcDest, m);
      }
    }

    /** do_fork's structure assignment: the child gets the parent's record and image. */
    method CopyProcess(parent: Pid, child: Pid)
      requires Valid() && ForkAllowed(net, parent, child)
      modifies this
      ensures Valid() && net == Fork(old(net), parent, child)
    {
      ForkKeepsInv(net, parent, child);
      net := Fork(net, parent, child);
      table := table[child := table[parent]];
      memory := memory[child := memory[parent]];
      assert forall e: Pid :: Linked(old(table), e, old(net).queue[e]);
    }
  }

  /** Takes the process from out of p's list: through the head, or through its predecessor. */
  function Unlink(table: seq<Proc>, p: Pid, from: Pid, prev: Link): (after: seq<Proc>)
    requires |table| == NR_PROCS
    ensures |after| == NR_PROCS
  {
    var t1 := if table[p].qSending == To(from)
              then table[p := table[p].(qSending := table[from].nextSending)]
              else if prev.To? then table[prev.pid := table[prev.pid].(nextSending := table[from].nextSending)]
              else table;
    t1[from := t1[from].(nextSending := Nil)]
  }

  /** The process behind no other on p's list is the one at its head. */
  lemma FirstHasNoPrevious(table: seq<Proc>, net: Net, p: Pid, from: Pid, prev: Link)
    requires |table| == NR_PROCS && Sized(net) && Linked(table, p, net.queue[p]) && Distinct(net.queue[p])
    requires exists i :: At(net.queue[p], i, from, prev)
    ensures table[p].qSending == To(from) <==> prev == Nil
  {
    var i :| At(net.queue[p], i, from, prev);
  }

  /** Removing position i from a sequence without duplicates removes that element. */
  lemma {:induction false} WithoutIsSplice(q: seq<Pid>, i: nat)
    requires i < |q| && Distinct(q)
    ensures Without(q, q[i]) == q[..i] + q[i + 1..]
  {
    if i == 0 {
    } else {
      assert q[0] != q[i];
      WithoutIsSplice(q[1..], i - 1);
      assert q[1..][..i - 1] == q[1..i];
      assert q[..i] == [q[0]] + q[1..i];
    }
  }

  function Woken(table: seq<Proc>, from: Pid): seq<Proc>
    requires |table| == NR_PROCS
  {
    table[from := table[from].(msg := 0, sendto := NO_TASK, flags := table[from].flags - {SENDING})]
  }

  ghost predicate At(q: seq<Pid>, i: int, from: Pid, prev: Link) {
    0 <= i < |q| && q[i] == from && prev == if i == 0 then Nil else To(q[i - 1])
  }

  /** The table after position i was taken out of p's list q. */
  ghost predicate IsRemoval(before: seq<Proc>, after: seq<Proc>, p: Pid, q: seq<Pid>, i: nat)
    requires |before| == |after| == NR_PROCS && i < |q|
  {
    && after[q[i]] == before[q[i]].(msg := 0, sendto := NO_TASK, flags := before[q[i]].flags - {SENDING},
                                    nextSending := Nil)
    && (i == 0 ==> after[p] == before[p].(qSending := before[q[i]].nextSending))
    && (i > 0 ==> after[q[i - 1]] == before[q[i - 1]].(nextSending := before[q[i]].nextSending))
    && forall x: Pid :: x != q[i] && (if i == 0 then x != p else x != q[i - 1]) ==> after[x] == before[x]
  }

  lemma UnlinkIsRemoval(before: seq<Proc>, p: Pid, q: seq<Pid>, i: nat, prev: Link)
    requires |before| == NR_PROCS && before[p].qSending == Head(q) && Distinct(q) && p !in q
    requires i < |q| && At(q, i, q[i], prev)
    ensures IsRemoval(before, Woken(Unlink(before, p, q[i], prev), q[i]), p, q, i)
  {
    assert q[i] in q;
    assert i > 0 ==> q[i - 1] != q[i] && q[0] != q[i];
  }

  lemma LinkedRemove(before: seq<Proc>, after: seq<Proc>, p: Pid, q: seq<Pid>, i: nat)
    requires |before| == |after| == NR_PROCS && Linked(before, p, q) && Distinct(q) && p !in q
    requires i < |q| && IsRemoval(before, after, p, q, i)
    ensures Linked(after, p, q[..i] + q[i + 1..])
  {
    var r := q[..i] + q[i + 1..];
    forall j | 0 <= j < |r|
      ensures after[r[j]].nextSending == After(r, j)
    {
      var k := if j < i then j else j + 1;
      assert r[j] == q[k] && q[k] != q[i];
      assert q[k] in q;
      if k != i - 1 {
        assert i > 0 ==> q[k] != q[i - 1];
        assert after[q[k]].nextSending == before[q[k]].nextSending;
      }
    }
  }

  lemma RemoveElsewhere(before: seq<Proc>, after: seq<Proc>, net: Net, p: Pid, i: nat, e: Pid)
    requires |before| == |after| == NR_PROCS
    requires QueuesOwned(net) && Linked(before, e, net.queue[e]) && e != p
    requires i < |net.queue[p]| && IsRemoval(before, after, p, net.queue[p], i)
    ensures Linked(after, e, net.queue[e])
  {
    var q := net.queue[e];
    forall j | 0 <= j < |q|
      ensures after[q[j]].nextSending == before[q[j]].nextSending
    {
      assert q[j] in q;
      assert q[j] !in net.queue[p];
    }
  }

  /** Nobody waits in two queues. */
  ghost predicate QueuesOwned(net: Net) {
    Sized(net) &&
    forall d: Pid, e: Pid, x: Pid {:trigger x in net.queue[d], x in net.queue[e]} ::
      x in net.queue[d] && x in net.queue[e] ==> d == e
  }

  lemma RemoveMatches(before: seq<Proc>, after: seq<Proc>, net: Net, p: Pid, i: nat, x: Pid)
    requires Inv(net) && |before| == |after| == NR_PROCS
    requires Matches(before[x], net.status[x], net.marks[x], net.pending[x])
    requires i < |net.queue[p]| && IsRemoval(before, after, p, net.queue[p], i)
    ensures Matches(after[x], net.status[net.queue[p][i] := Ready][x], net.marks[x], net.pending[x])
  {
    var q := net.queue[p];
    assert q[i] in q && (i > 0 ==> q[i - 1] in q && q[i - 1] != q[i]);
  }

  lemma Removed(before: seq<Proc>, net: Net, p: Pid, s: int, m: Addr, from: Pid, prev: Link)
    requires Inv(net) && Represents(before, net) && Running(net, p) && ValidSource(p, s)
    requires !(net.pending[p] && (s == ANY || s == INTERRUPT))
    requires Chosen(net, p, s) == To(from) && from in net.queue[p]
    requires exists i :: At(net.queue[p], i, from, prev)
    ensures Represents(Woken(Unlink(before, p, from, prev), from), Receive(net, p, s, m))
  {
    var i :| At(net.queue[p], i, from, prev);
    var q := net.queue[p];
    var r := Receive(net, p, s, m);
    var after := Woken(Unlink(before, p, from, prev), from);
    assert Linked(before, p, q);
    assert p !in q;
    UnlinkIsRemoval(before, p, q, i, prev);
    forall x: Pid
      ensures Matches(after[x], r.status[x], r.marks[x], r.pending[x])
    {
      RemoveMatches(before, after, net, p, i, x);
    }
    forall e: Pid
      ensures Linked(after, e, r.queue[e])
    {
      assert Linked(before, e, net.queue[e]);
      if e == p {
        LinkedRemove(before, after, p, q, i);
        WithoutIsSplice(q, i);
      } else {
        RemoveElsewhere(before, after, net, p, i, e);
      }
    }
  }

  /** The table after p was appended to d's list. */
  ghost predicate IsAppend(before: seq<Proc>, after: seq<Proc>, q: seq<Pid>, p: Pid, d: Pid, m: Addr)
    requires |before| == |after| == NR_PROCS
  {
    && after[p] == before[p].(flags := before[p].flags + {SENDING}, sendto := d, msg := m, nextSending := Nil)
    && after[d] == (if q == [] then before[d].(qSending := To(p)) else after[d])
    && (q != [] ==> after[q[|q| - 1]] == before[q[|q| - 1]].(nextSending := To(p)))
    && forall x: Pid :: x != p && (if q == [] then x != d else x != q[|q| - 1]) ==> after[x] == before[x]
  }

  lemma LinkedFrame(before: seq<Proc>, after: seq<Proc>, e: Pid, q: seq<Pid>)
    requires |before| == |after| == NR_PROCS && Linked(before, e, q)
    requires after[e].qSending == before[e].qSending
    requires forall i :: 0 <= i < |q| ==> after[q[i]].nextSending == before[q[i]].nextSending
    ensures Linked(after, e, q)
  {
  }

  lemma LinkedAppend(before: seq<Proc>, after: seq<Proc>, q: seq<Pid>, p: Pid, d: Pid, m: Addr)
    requires |before| == |after| == NR_PROCS && Linked(before, d, q)
    requires Distinct(q) && p !in q && p != d && d !in q
    requires IsAppend(before, after, q, p, d, m)
    ensures Linked(after, d, q + [p])
  {
    var r := q + [p];
    forall i | 0 <= i < |r|
      ensures after[r[i]].nextSending == After(r, i)
    {
      if i < |q| - 1 {
        assert q[i] != q[|q| - 1];
        assert q[i] != p;
      }
    }
  }

  lemma Appended(before: seq<Proc>, after: seq<Proc>, net: Net, p: Pid, d: Pid, m: Addr)
    requires Inv(net) && Represents(before, net) && Running(net, p) && p != d && !Awaits(net, d, p)
    requires |after| == NR_PROCS && IsAppend(before, after, net.queue[d], p, d, m)
    ensures Represents(after, Send(net, p, d, m))
  {
    var r := Send(net, p, d, m);
    forall x: Pid
      ensures Matches(after[x], r.status[x], r.marks[x], r.pending[x])
    {
      AppendMatches(before, after, net, p, d, m, x);
    }
    forall e: Pid
      ensures Linked(after, e, r.queue[e])
    {
      if e == d {
        assert p !in net.queue[d] && d !in net.queue[d];
        LinkedAppend(before, after, net.queue[d], p, d, m);
      } else {
        AppendElsewhere(before, after, net, p, d, m, e);
      }
    }
  }

  lemma AppendMatches(before: seq<Proc>, after: seq<Proc>, net: Net, p: Pid, d: Pid, m: Addr, x: Pid)
    requires Inv(net) && Represents(before, net) && Running(net, p) && p != d && !Awaits(net, d, p)
    requires |after| == NR_PROCS && IsAppend(before, after, net.queue[d], p, d, m)
    ensures var r := Send(net, p, d, m); Matches(after[x], r.status[x], r.marks[x], r.pending[x])
  {
    var q := net.queue[d];
    assert Matches(before[x], net.status[x], net.marks[x], net.pending[x]);
    assert p !in q;
    assert q != [] ==> q[|q| - 1] in q;
  }

  lemma AppendElsewhere(before: seq<Proc>, after: seq<Proc>, net: Net, p: Pid, d: Pid, m: Addr, e: Pid)
    requires Inv(net) && Represents(before, net) && Running(net, p) && p != d && e != d
    requires |after| == NR_PROCS && IsAppend(before, after, net.queue[d], p, d, m)
    ensures Linked(after, e, net.queue[e])
  {
    var q := net.queue[e];
    assert Linked(before, e, q);
    forall i | 0 <= i < |q|
      ensures after[q[i]].nextSending == before[q[i]].nextSending
    {
      assert q[i] in q;
      assert q[i] !in net.queue[d];
    }
    LinkedFrame(before, after, e, q);
  }
}
