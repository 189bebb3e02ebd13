/** What the callers of fork, exit and wait are told, and who lives, hangs or waits afterwards; and that
    over every run each call is answered once. */
module LifeEffects {
  import opened ProcTable
  import opened Lifecycle

  /** A live process that does not wait for a child. */
  predicate Lives(s: State, i: Pid)
    requires |s.slots| == NR_PROCS
  {
    s.slots[i].marks == {}
  }

  predicate Waits(s: State, i: Pid)
    requires |s.slots| == NR_PROCS
  {
    WAITING in s.slots[i].marks
  }

  ghost predicate SameSlot(s: State, s': State, i: Pid) {
    Sized(s) && Sized(s') && s'.slots[i] == s.slots[i] && s'.ids[i] == s.ids[i]
  }

  /** The only new replies. */
  ghost predicate Tells(s: State, s': State, told: seq<Reply>) {
    s'.replies == s.replies + told
  }

  // ---- one call ------------------------------------------------------------

  /** c is born into the first free slot as a child of p, under a new number. */
  ghost predicate IsBorn(s: State, s': State, p: Pid, c: Pid) {
    && Sized(s) && Sized(s') && Free(s, c) && (forall i: Pid :: i < c ==> !Free(s, i))
    && Lives(s', c) && s'.slots[c].parent == p
    && s'.ids[c] == s.born && s'.born == s.born + 1
    && forall i: Pid :: i != c ==> SameSlot(s, s', i)
  }

  /** fork: the child is told that it is born and the parent which child it has, or, if no slot is free,
      the parent is told that it failed and nothing else happens. */
  lemma ForkEffect(s: State, p: Pid, size: nat, memory: nat)
    requires Inv(s) && Enabled(s, Fork(p, size)) && Step(s, Fork(p, size), memory).Next?
    ensures var s' := Step(s, Fork(p, size), memory).s;
            && s'.exits == s.exits && Sized(s')
            && (if exists i: Pid :: Free(s, i)
                then exists c: Pid :: IsBorn(s, s', p, c) && Tells(s, s', [Born(c), Forked(p, c)]) && c != p
                else Tells(s, s', [ForkFailed(p)]) && s'.born == s.born && forall i: Pid :: SameSlot(s, s', i))
  {
    hide Family, Accounts;
    ForkHaltsExactly(s, p, size, memory);
    var c := FirstFree(s.slots);
    if i: Pid :| Free(s, i) {
      assert s.slots[i].marks == {FREE_SLOT};
    }
    if c < NR_PROCS {
      var s' := Step(s, Fork(p, size), memory).s;
      assert Free(s, c) && IsBorn(s, s', p, c);
    }
  }

  /** The marks of the parent of p after p has left. */
  ghost predicate ParentToldExactly(s: State, s': State, p: Pid, status: int) {
    && Sized(s) && Sized(s')
    && var parent := s.slots[p].parent;
       if Waits(s, parent)
       then Tells(s, s', [Status(parent, s.ids[p], p, status)]) && Free(s', p) && Lives(s', parent)
       else Tells(s, s', []) && Zombie(s', p) && s'.slots[p].status == status && s'.slots[p].parent == parent
  }

  /** An exit that completes: a waiting parent is told the status and waits no more, and the slot is
      free; otherwise p hangs with its status.  Children go to INIT, and everybody else stays. */
  lemma ExitEffect(s: State, p: Pid, status: int, quiet: seq<bool>, memory: nat)
    requires Inv(s) && Enabled(s, Exit(p, status, quiet)) && Step(s, Exit(p, status, quiet), memory).Next?
    ensures var s' := Step(s, Exit(p, status, quiet), memory).s;
            && ParentToldExactly(s, s', p, status) && s'.ids == s.ids && s'.born == s.born
            && s'.exits == s.exits[s.ids[p] := status]
            && forall i: Pid :: i != p ==>
                 && s'.slots[i].parent == (if s.slots[i].parent == p then INIT else s.slots[i].parent)
                 && s'.slots[i].status == s.slots[i].status
                 && (i != s.slots[p].parent ==> s'.slots[i].marks == s.slots[i].marks)
                 && (!Waits(s, i) ==> s'.slots[i].marks == s.slots[i].marks)
  {
    hide Family, Accounts, Leave, Orphans;
    LeaveIsHang(s, p, status);
    LeaverIsNoOrphan(s, p, status, quiet);
    var l := Leave(s, p, status).s;
    forall i: Pid | i != p {
      LeaveOthers(s, p, status, i);
    }
    LeaveOthers(s, p, status, INIT);
    OrphansEffect(l, p, 0, quiet);
    OrphansKeepBirths(l, p, 0, quiet);
    MarkOnly(s, s.slots[p].parent);
  }

  lemma MarkOnly(s: State, i: Pid)
    requires Inv(s)
    ensures |s.slots| == NR_PROCS
    ensures Waits(s, i) ==> s.slots[i].marks == {WAITING} && s.slots[i].marks - {WAITING} == {}
    ensures !Waits(s, i) ==> s.slots[i].marks - {WAITING} == s.slots[i].marks
  {
  }

  lemma {:induction false} OrphansKeepBirths(s: State, pid: Pid, i: nat, quiet: seq<bool>)
    requires Sized(s) && |quiet| == NR_PROCS && i <= NR_PROCS
    ensures Orphans(s, pid, i, quiet).Next? ==> Orphans(s, pid, i, quiet).s.born == s.born
    decreases NR_PROCS - i
  {
    if i == NR_PROCS {
    } else {
      var r := Adopt(s, pid, i, quiet[i]);
      if r.Next? {
        OrphansKeepBirths(r.s, pid, i + 1, quiet);
      }
    }
  }

  /** c is a child of p that hangs. */
  ghost predicate HangingChild(s: State, p: Pid, c: Pid)
    requires |s.slots| == NR_PROCS
  {
    Zombie(s, c) && s.slots[c].parent == p
  }

  /** wait: the status of a child that hangs, whose slot becomes free; or NO_TASK if no slot names the
      caller; or else the caller waits and is told nothing. */
  lemma WaitEffect(s: State, p: Pid, memory: nat)
    requires Inv(s) && Enabled(s, Wait(p))
    ensures Step(s, Wait(p), memory).Next?
    ensures var s' := Step(s, Wait(p), memory).s;
            && s'.born == s.born && s'.exits == s.exits && s'.ids == s.ids && Sized(s')
            && (if exists c: Pid :: HangingChild(s, p, c) then
                  exists c: Pid ::
                    && HangingChild(s, p, c) && Tells(s, s', [Status(p, s.ids[c], c, s.slots[c].status)])
                    && Free(s', c) && forall i: Pid :: i != c ==> SameSlot(s, s', i)
                else if HasChildren(s.slots, p) then
                  Tells(s, s', []) && Waits(s', p) && forall i: Pid :: i != p ==> SameSlot(s, s', i)
                else Tells(s, s', [NoTask(p)]) && forall i: Pid :: SameSlot(s, s', i))
  {
    hide Family, Accounts;
    var i := FirstZombie(s.slots, p);
    ParentLives(s, p);
    if i < NR_PROCS {
      assert HangingChild(s, p, i);
    }
  }

  lemma ParentLives(s: State, p: Pid)
    requires Inv(s) && Enabled(s, Wait(p))
    ensures Sized(s) && SendReturns(s, p)
  {
  }

  // ---- runs ----------------------------------------------------------------

  /** The callers of fork that were answered, in order. */
  ghost function ForksAnswered(replies: seq<Reply>): seq<Pid> {
    if replies == [] then []
    else
      var last := replies[|replies| - 1];
      ForksAnswered(replies[..|replies| - 1]) + if last.Forked? || last.ForkFailed? then [last.to] else []
  }

  ghost function ForksCalled(calls: seq<Call>): seq<Pid> {
    if calls == [] then []
    else (if calls[0].Fork? then [calls[0].p] else []) + ForksCalled(calls[1..])
  }

  /** How many answers to wait p has been given. */
  ghost function WaitsAnswered(replies: seq<Reply>, p: Pid): nat {
    if replies == [] then 0
    else
      var last := replies[|replies| - 1];
      WaitsAnswered(replies[..|replies| - 1], p) + if (last.Status? || last.NoTask?) && last.to == p then 1 else 0
  }

  ghost function WaitsCalled(calls: seq<Call>, p: Pid): nat {
    if calls == [] then 0
    else (if calls[0] == Wait(p) then 1 else 0) + WaitsCalled(calls[1..], p)
  }

  ghost function Asleep(s: State, p: Pid): nat
    requires |s.slots| == NR_PROCS
  {
    if Waits(s, p) then 1 else 0
  }

  lemma {:induction false} AnsweredConcat(a: seq<Reply>, b: seq<Reply>, p: Pid)
    ensures ForksAnswered(a + b) == ForksAnswered(a) + ForksAnswered(b)
    ensures WaitsAnswered(a + b, p) == WaitsAnswered(a, p) + WaitsAnswered(b, p)
  {
    if b == [] {
      assert a + b == a;
    } else {
      assert (a + b)[..|a + b| - 1] == a + b[..|b| - 1];
      AnsweredConcat(a, b[..|b| - 1], p);
    }
  }

  /** Short answers, as one call gives them. */
  lemma AnsweredShort(x: Reply, y: Reply, p: Pid)
    ensures ForksAnswered([x]) == if x.Forked? || x.ForkFailed? then [x.to] else []
    ensures WaitsAnswered([x], p) == if (x.Status? || x.NoTask?) && x.to == p then 1 else 0
    ensures ForksAnswered([x, y]) == ForksAnswered([x]) + ForksAnswered([y])
    ensures WaitsAnswered([x, y], p) == WaitsAnswered([x], p) + WaitsAnswered([y], p)
  {
    assert [x, y][..1] == [x];
    assert ForksAnswered([]) == [] && WaitsAnswered([], p) == 0;
    AnsweredConcat([x], [y], p);
    assert [x] + [y] == [x, y];
  }

  /** What one call adds to the answers. */
  ghost predicate Balances(s: State, c: Call, s': State, p: Pid)
    requires Sized(s) && Sized(s')
  {
    && ForksAnswered(s'.replies) == ForksAnswered(s.replies) + (if c.Fork? then [c.p] else [])
    && WaitsAnswered(s'.replies, p) + Asleep(s', p) ==
       WaitsAnswered(s.replies, p) + Asleep(s, p) + if c == Wait(p) then 1 else 0
  }

  lemma ForkBalances(s: State, q: Pid, size: nat, memory: nat, p: Pid)
    requires Inv(s) && Enabled(s, Fork(q, size)) && Step(s, Fork(q, size), memory).Next?
    ensures Sized(Step(s, Fork(q, size), memory).s) && Balances(s, Fork(q, size), Step(s, Fork(q, size), memory).s, p)
  {
    hide Family, Accounts, Shape, Step, ForksAnswered, WaitsAnswered;
    ForkEffect(s, q, size, memory);
    var s' := Step(s, Fork(q, size), memory).s;
    if i: Pid :| Free(s, i) {
      var c: Pid :| IsBorn(s, s', q, c) && Tells(s, s', [Born(c), Forked(q, c)]) && c != q;
      AnsweredShort(Born(c), Forked(q, c), p);
      AnsweredShort(Forked(q, c), Forked(q, c), p);
      AnsweredConcat(s.replies, [Born(c), Forked(q, c)], p);
      FreeIsNotAsleep(s, c);
      assert p == c || SameSlot(s, s', p);
    } else {
      AnsweredShort(ForkFailed(q), ForkFailed(q), p);
      AnsweredConcat(s.replies, [ForkFailed(q)], p);
      assert SameSlot(s, s', p);
    }
  }

  lemma FreeIsNotAsleep(s: State, c: Pid)
    requires Inv(s) && (Free(s, c) || Zombie(s, c))
    ensures Asleep(s, c) == 0
  {
  }

  lemma ExitBalances(s: State, q: Pid, status: int, quiet: seq<bool>, memory: nat, p: Pid)
    requires Inv(s) && Enabled(s, Exit(q, status, quiet)) && Step(s, Exit(q, status, quiet), memory).Next?
    ensures Sized(Step(s, Exit(q, status, quiet), memory).s)
    ensures Balances(s, Exit(q, status, quiet), Step(s, Exit(q, status, quiet), memory).s, p)
  {
    hide Family, Accounts, Step, ForksAnswered, WaitsAnswered;
    ExitEffect(s, q, status, quiet, memory);
    ExitKeepsInv(s, q, status, quiet);
    var c := Exit(q, status, quiet);
    var s' := Step(s, c, memory).s;
    StepKeepsInv(s, c, memory);
    FreeIsNotAsleep(s', q);
    var parent := s.slots[q].parent;
    AnsweredShort(Status(parent, s.ids[q], q, status), Status(parent, s.ids[q], q, status), p);
    AnsweredConcat(s.replies, [Status(parent, s.ids[q], q, status)], p);
    assert s.replies + [] == s.replies;
  }

  lemma WaitBalances(s: State, q: Pid, memory: nat, p: Pid)
    requires Inv(s) && Enabled(s, Wait(q))
    ensures Step(s, Wait(q), memory).Next? && Sized(Step(s, Wait(q), memory).s)
    ensures Balances(s, Wait(q), Step(s, Wait(q), memory).s, p)
  {
    hide Family, Accounts, Shape, Step, ForksAnswered, WaitsAnswered;
    WaitEffect(s, q, memory);
    var s' := Step(s, Wait(q), memory).s;
    if z: Pid :| HangingChild(s, q, z) {
      var c: Pid :| && HangingChild(s, q, c) && Tells(s, s', [Status(q, s.ids[c], c, s.slots[c].status)])
                    && Free(s', c) && forall i: Pid :: i != c ==> SameSlot(s, s', i);
      AnsweredShort(Status(q, s.ids[c], c, s.slots[c].status), NoTask(q), p);
      AnsweredConcat(s.replies, [Status(q, s.ids[c], c, s.slots[c].status)], p);
      FreeIsNotAsleep(s, c);
      StepKeepsInv(s, Wait(q), memory);
      FreeIsNotAsleep(s', c);
      assert p == c || SameSlot(s, s', p);
    } else if HasChildren(s.slots, q) {
      assert s.replies + [] == s.replies;
      assert p == q || SameSlot(s, s', p);
    } else {
      AnsweredShort(NoTask(q), NoTask(q), p);
      AnsweredConcat(s.replies, [NoTask(q)], p);
      assert SameSlot(s, s', p);
    }
  }

  lemma StepBalances(s: State, c: Call, memory: nat, p: Pid)
    requires Sized(s) && Inv(s) && Enabled(s, c) && Step(s, c, memory).Next?
    ensures Inv(Step(s, c, memory).s) && Sized(Step(s, c, memory).s) && Balances(s, c, Step(s, c, memory).s, p)
  {
    hide Family, Accounts, Shape, Step, Balances;
    StepKeepsInv(s, c, memory);
    match c
    case Fork(q, size) => ForkBalances(s, q, size, memory, p);
    case Exit(q, status, quiet) => ExitBalances(s, q, status, quiet, memory, p);
    case Wait(q) => WaitBalances(s, q, memory, p);
  }

  /** Over every run: the calls of fork are answered in their order, each once and to its caller; and a
      process has as many answers to wait as it has called wait, but for the call in which it is. */
  lemma {:induction false} RunAnswersOnce(s: State, calls: seq<Call>, memory: nat, s': State, p: Pid)
    requires Sized(s) && Inv(s) && Run(s, calls, memory, s')
    ensures Inv(s') && Sized(s')
    ensures ForksAnswered(s'.replies) == ForksAnswered(s.replies) + ForksCalled(calls)
    ensures WaitsAnswered(s'.replies, p) + Asleep(s', p) ==
            WaitsAnswered(s.replies, p) + Asleep(s, p) + WaitsCalled(calls, p)
    decreases |calls|
  {
    hide Inv, Step, Balances, ForksAnswered, WaitsAnswered, ForksCalled, WaitsCalled, Asleep;
    CalledOne(calls, p);
    if calls == [] {
    } else {
      var s1 := Step(s, calls[0], memory).s;
      StepBalances(s, calls[0], memory, p);
      RunAnswersOnce(s1, calls[1..], memory, s', p);
      Adds(s, calls[0], s1, calls[1..], s', p);
    }
  }

  lemma CalledOne(calls: seq<Call>, p: Pid)
    ensures calls == [] ==> ForksCalled(calls) == [] && WaitsCalled(calls, p) == 0
    ensures calls != [] ==>
              && ForksCalled(calls) == (if calls[0].Fork? then [calls[0].p] else []) + ForksCalled(calls[1..])
              && WaitsCalled(calls, p) == (if calls[0] == Wait(p) then 1 else 0) + WaitsCalled(calls[1..], p)
  {
  }

  lemma Adds(s: State, c: Call, s1: State, calls: seq<Call>, s': State, p: Pid)
    requires Sized(s) && Sized(s1) && Sized(s') && Balances(s, c, s1, p)
    requires ForksAnswered(s'.replies) == ForksAnswered(s1.replies) + ForksCalled(calls)
    requires WaitsAnswered(s'.replies, p) + Asleep(s', p) ==
             WaitsAnswered(s1.replies, p) + Asleep(s1, p) + WaitsCalled(calls, p)
    ensures ForksAnswered(s'.replies) ==
            ForksAnswered(s.replies) + ((if c.Fork? then [c.p] else []) + ForksCalled(calls))
    ensures WaitsAnswered(s'.replies, p) + Asleep(s', p) ==
            WaitsAnswered(s.replies, p) + Asleep(s, p) + ((if c == Wait(p) then 1 else 0) + WaitsCalled(calls, p))
  {
    hide ForksAnswered, WaitsAnswered, ForksCalled, WaitsCalled, Asleep;
  }
}
