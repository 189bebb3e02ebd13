/** fork, exit and wait (mm/fork2exit.c, mm/main.c) as steps of the memory manager, with the
    history of replies that a run leaves behind. */
module Lifecycle {
  import opened ProcTable

  const PROC_BASE := 0xA00000
  const PROC_IMAGE_SIZE := 0x100000
  const FIRST_FREE := 9

  /** The part of a process record that the memory manager reads and writes.  Of p_flags these are
      the marks WAITING, HANGING and FREE_SLOT; the kernel's SENDING and RECEIVING come and go. */
  datatype Slot = Slot(marks: set<Flag>, parent: Pid, status: int)

  datatype Reply =
    /** A child's exit status; id is the child's number in order of birth. */
    | Status(to: Pid, id: nat, child: Pid, status: int)
    /** The answer NO_TASK to a wait. */
    | NoTask(to: Pid)
    /** fork's answers to the child and to the parent. */
    | Born(child: Pid)
    | Forked(to: Pid, child: Pid)
    | ForkFailed(to: Pid)

  /** The process table with its history: ids numbers the processes in order of birth, exits are
      the statuses of all exits. */
  datatype State = State(slots: seq<Slot>, ids: seq<nat>, born: nat, exits: map<nat, int>, replies: seq<Reply>)

  datatype Call =
    | Fork(p: Pid, size: nat)
    /** quiet[i]: when the orphan in slot i is looked at, neither INIT nor slot i is SENDING or
        RECEIVING. */
    | Exit(p: Pid, status: int, quiet: seq<bool>)
    | Wait(p: Pid)

  /** A failed assert or a panic halts the machine.  Stuck is a memory manager that is blocked for
      ever in a send. */
  datatype Outcome = Next(s: State) | Halt | Stuck(s: State)

  ghost predicate Sized(s: State) {
    |s.slots| == NR_PROCS == |s.ids|
  }

  // ---- memory --------------------------------------------------------------

  /** alloc_mem's address for a process. */
  function Base(pid: Pid): int {
    PROC_BASE + (pid - FIRST_FREE) * PROC_IMAGE_SIZE
  }

  predicate MemoryFits(pid: Pid, size: nat, memory: nat) {
    size <= PROC_IMAGE_SIZE && Base(pid) + size < memory
  }

  /** Children's segments are disjoint, lie above the kernel's memory, and the part that is copied
      lies inside the segment and inside memory. */
  lemma SegmentsAreDisjoint(p: Pid, q: Pid, size: nat, memory: nat)
    requires FIRST_FREE <= p < q && MemoryFits(p, size, memory)
    ensures PROC_BASE <= Base(p) && Base(p) + PROC_IMAGE_SIZE <= Base(q)
    ensures Base(p) + size <= Base(p) + PROC_IMAGE_SIZE && Base(p) + size < memory
  {
  }

  // ---- the calls -----------------------------------------------------------

  predicate Free(s: State, i: Pid)
    requires |s.slots| == NR_PROCS
  {
    FREE_SLOT in s.slots[i].marks
  }

  predicate Zombie(s: State, i: Pid)
    requires |s.slots| == NR_PROCS
  {
    HANGING in s.slots[i].marks
  }

  function FirstFree(slots: seq<Slot>): (i: nat)
    ensures i <= |slots| && (forall j :: 0 <= j < i ==> slots[j].marks != {FREE_SLOT})
    ensures i < |slots| ==> slots[i].marks == {FREE_SLOT}
  {
    if slots == [] then 0 else if slots[0].marks == {FREE_SLOT} then 0 else 1 + FirstFree(slots[1..])
  }

  function FirstZombie(slots: seq<Slot>, p: Pid): (i: nat)
    ensures i <= |slots|
    ensures forall j :: 0 <= j < i ==> !(slots[j].parent == p && HANGING in slots[j].marks)
    ensures i < |slots| ==> slots[i].parent == p && HANGING in slots[i].marks
  {
    if slots == [] then 0
    else if slots[0].parent == p && HANGING in slots[0].marks then 0
    else 1 + FirstZombie(slots[1..], p)
  }

  /** Some slot names p as parent, whether or not a process lives in it. */
  predicate HasChildren(slots: seq<Slot>, p: Pid) {
    exists j :: 0 <= j < |slots| && slots[j].parent == p
  }

  /** do_fork and the replies of its caller; memory is the size of the machine's memory. */
  function ForkStep(s: State, p: Pid, size: nat, memory: nat): Outcome
    requires Sized(s)
  {
    var child := FirstFree(s.slots);
    if child < FIRST_FREE then Halt
    else if child >= NR_PROCS then Next(s.(replies := s.replies + [ForkFailed(p)]))
    else if !MemoryFits(child, size, memory) then Halt
    else Next(s.(slots := s.slots[child := s.slots[p].(parent := p)],
                 ids := s.ids[child := s.born],
                 born := s.born + 1,
                 replies := s.replies + [Born(child), Forked(p, child)]))
  }

  /** Sends the exit status to the parent and frees the slot. */
  function Cleanup(s: State, i: Pid): (r: State)
    requires Sized(s)
    ensures Sized(r)
  {
    var c := s.slots[i];
    s.(slots := s.slots[i := c.(marks := {FREE_SLOT})],
       replies := s.replies + [Status(c.parent, s.ids[i], i, c.status)])
  }

  /** A send to a process with a mark never returns: only the memory manager takes marks away, and
      no process with a mark is ever scheduled (Answers.SendBlocksExactly). */
  predicate SendReturns(s: State, to: Pid)
    requires Sized(s)
  {
    s.slots[to].marks == {}
  }

  function Finish(s: State, i: Pid): (r: Outcome)
    requires Sized(s)
    ensures r.Next? ==> Sized(r.s)
  {
    if SendReturns(s, s.slots[i].parent) then Next(Cleanup(s, i)) else Stuck(s)
  }

  /** An orphan goes to INIT, and is to be cleaned up at once if INIT and the orphan have exactly the
      flags WAITING and HANGING. */
  function Adopt(s: State, pid: Pid, i: Pid, quiet: bool): (r: Outcome)
    requires Sized(s)
    ensures r.Next? ==> Sized(r.s)
  {
    if s.slots[i].parent != pid then Next(s)
    else
      var s1 := s.(slots := s.slots[i := s.slots[i].(parent := INIT)]);
      if quiet && s1.slots[INIT].marks == {WAITING} && s1.slots[i].marks == {HANGING}
      then Finish(s1.(slots := s1.slots[i := s1.slots[i].(marks := {})]), i) else Next(s1)
  }

  function Orphans(s: State, pid: Pid, i: nat, quiet: seq<bool>): (r: Outcome)
    requires Sized(s) && |quiet| == NR_PROCS && i <= NR_PROCS
    ensures r.Next? ==> Sized(r.s)
    decreases NR_PROCS - i
  {
    if i == NR_PROCS then Next(s)
    else
      var r := Adopt(s, pid, i, quiet[i]);
      if r.Next? then Orphans(r.s, pid, i + 1, quiet) else r
  }

  /** do_exit up to the orphans: a waiting parent gets the status, otherwise the child hangs. */
  function Leave(s: State, p: Pid, status: int): (r: Outcome)
    requires Sized(s)
    ensures r.Next? ==> Sized(r.s)
  {
    var parent := s.slots[p].parent;
    var s1 := s.(slots := s.slots[p := s.slots[p].(status := status)], exits := s.exits[s.ids[p] := status]);
    if WAITING in s1.slots[parent].marks then
      Finish(s1.(slots := s1.slots[parent := s1.slots[parent].(marks := s1.slots[parent].marks - {WAITING})]), p)
    else Next(s1.(slots := s1.slots[p := s1.slots[p].(marks := s1.slots[p].marks + {HANGING})]))
  }

  function ExitStep(s: State, p: Pid, status: int, quiet: seq<bool>): (r: Outcome)
    requires Sized(s) && |quiet| == NR_PROCS
    ensures r.Next? ==> Sized(r.s)
  {
    var r := Leave(s, p, status);
    if r.Next? then Orphans(r.s, p, 0, quiet) else r
  }

  function WaitStep(s: State, p: Pid): (r: Outcome)
    requires Sized(s)
    ensures r.Next? ==> Sized(r.s)
  {
    var i := FirstZombie(s.slots, p);
    if i < NR_PROCS then Finish(s, i)
    else if HasChildren(s.slots, p) then
      Next(s.(slots := s.slots[p := s.slots[p].(marks := s.slots[p].marks + {WAITING})]))
    else Next(s.(replies := s.replies + [NoTask(p)]))
  }

  function Step(s: State, c: Call, memory: nat): Outcome
    requires Sized(s) && (c.Exit? ==> |c.quiet| == NR_PROCS)
  {
    match c
    case Fork(p, size) => ForkStep(s, p, size, memory)
    case Exit(p, status, quiet) => ExitStep(s, p, status, quiet)
    case Wait(p) => WaitStep(s, p)
  }

  /** Who can call: a user process without a mark, since no other one runs.  INIT never exits. */
  ghost predicate Enabled(s: State, c: Call)
    requires Sized(s)
  {
    && c.p >= INIT && s.slots[c.p].marks == {}
    && (c.Exit? ==> c.p != INIT && |c.quiet| == NR_PROCS)
  }

  // ---- the invariant -------------------------------------------------------

  ghost predicate Shape(s: State) {
    && Sized(s)
    && (forall i: Pid :: OneMark(s.slots[i].marks))
    && (forall i: Pid :: i < FIRST_FREE ==> !Free(s, i) && s.slots[i].parent == TASK_TTY)
    && (forall i: Pid :: i < INIT ==> s.slots[i].marks == {})
    && (forall i: Pid :: i > INIT && !Free(s, i) ==> s.slots[i].parent != i)
    && !Zombie(s, INIT)
  }

  predicate OneMark(marks: set<Flag>) {
    marks == {} || marks == {WAITING} || marks == {HANGING} || marks == {FREE_SLOT}
  }

  /** No process has a parent that is free or a zombie, and only INIT waits with a zombie child.
      Inside the orphan loop, slots from i on may still name pid. */
  ghost predicate Family(s: State, pid: int, i: int)
    requires Sized(s)
  {
    && (forall c: Pid :: !Free(s, c) && !(c >= i && s.slots[c].parent == pid) ==>
          !Free(s, s.slots[c].parent) && !Zombie(s, s.slots[c].parent))
    && (forall c: Pid :: Zombie(s, c) && !(c >= i && s.slots[c].parent == pid) && s.slots[c].parent != INIT ==>
          WAITING !in s.slots[s.slots[c].parent].marks)
  }

  /** Statuses are sent once each, after the exit and before the slot is free: of all processes
      that were ever born, exactly the zombies have exited without their status being sent. */
  ghost predicate Accounts(s: State)
    requires Sized(s)
  {
    && (forall i: Pid :: !Free(s, i) ==> s.ids[i] < s.born)
    && (forall i: Pid, j: Pid :: i < j && !Free(s, i) && !Free(s, j) ==> s.ids[i] != s.ids[j])
    && (forall i: Pid :: !Free(s, i) ==> (Zombie(s, i) <==> s.ids[i] in s.exits))
    && (forall i: Pid :: Zombie(s, i) ==> s.ids[i] in s.exits && s.exits[s.ids[i]] == s.slots[i].status)
    && (forall k :: 0 <= k < |s.replies| && s.replies[k].Status? ==> Settled(s, s.replies[k]))
    && (forall j, k :: 0 <= j < k < |s.replies| && s.replies[j].Status? && s.replies[k].Status? ==>
          s.replies[j].id != s.replies[k].id)
    && (forall id :: id in s.exits ==> id < s.born)
    && (forall id: nat :: id < s.born ==> Sent(s.replies, id) || Present(s, id))
  }

  ghost predicate Settled(s: State, r: Reply)
    requires Sized(s) && r.Status?
  {
    && r.id in s.exits && s.exits[r.id] == r.status
    && forall i: Pid :: !Free(s, i) ==> s.ids[i] != r.id
  }

  ghost predicate Sent(replies: seq<Reply>, id: nat) {
    exists k :: 0 <= k < |replies| && replies[k].Status? && replies[k].id == id
  }

  /** Process id is live or a zombie. */
  ghost predicate Present(s: State, id: nat)
    requires Sized(s)
  {
    exists i: Pid :: !Free(s, i) && s.ids[i] == id
  }

  ghost predicate Inv(s: State) {
    Sized(s) && Shape(s) && Family(s, -1, NR_PROCS) && Accounts(s)
  }

  // ---- fork ----------------------------------------------------------------

  /** The assert of do_fork holds: the tasks and the native processes are never freed.  So only
      the memory guard can stop a fork. */
  lemma ForkHaltsExactly(s: State, p: Pid, size: nat, memory: nat)
    requires Shape(s)
    ensures var child := FirstFree(s.slots);
            && child >= FIRST_FREE
            && (ForkStep(s, p, size, memory).Halt? <==> child < NR_PROCS && !MemoryFits(child, size, memory))
  {
    forall i: Pid | i < FIRST_FREE
      ensures s.slots[i].marks != {FREE_SLOT}
    {
      assert !Free(s, i);
    }
  }

  ghost function Child(s: State, p: Pid, child: Pid): State
    requires Sized(s)
  {
    s.(slots := s.slots[child := s.slots[p].(parent := p)], ids := s.ids[child := s.born], born := s.born + 1,
       replies := s.replies + [Born(child), Forked(p, child)])
  }

  lemma ForkShape(s: State, p: Pid, child: Pid)
    requires Shape(s) && child >= FIRST_FREE && Free(s, child) && !Free(s, p) && !Zombie(s, p)
    ensures Shape(Child(s, p, child))
  {
  }

  lemma ForkFamily(s: State, p: Pid, child: Pid)
    requires Shape(s) && Family(s, -1, NR_PROCS) && Free(s, child) && !Free(s, p) && !Zombie(s, p)
    ensures Family(Child(s, p, child), -1, NR_PROCS)
  {
    var s' := Child(s, p, child);
    forall c: Pid | !Free(s', c)
      ensures !Free(s', s'.slots[c].parent) && !Zombie(s', s'.slots[c].parent)
      ensures Zombie(s', c) && s'.slots[c].parent != INIT ==> WAITING !in s'.slots[s'.slots[c].parent].marks
    {
      if c != child {
        assert !Free(s, c) && !Free(s, s.slots[c].parent);
        assert Zombie(s', c) ==> Zombie(s, c);
      }
    }
  }

  lemma ForkAccounts(s: State, p: Pid, child: Pid)
    requires Shape(s) && Accounts(s) && Free(s, child) && !Free(s, p) && !Zombie(s, p)
    ensures Accounts(Child(s, p, child))
  {
    var s' := Child(s, p, child);
    assert forall k :: 0 <= k < |s'.replies| && s'.replies[k].Status? ==>
             k < |s.replies| && s'.replies[k] == s.replies[k];
    forall k | 0 <= k < |s.replies| && s.replies[k].Status?
      ensures Settled(s', s.replies[k])
    {
      assert Settled(s, s.replies[k]);
    }
    forall id: nat | id < s'.born
      ensures Sent(s'.replies, id) || Present(s', id)
    {
      if id == s.born {
        assert !Free(s', child) && s'.ids[child] == id;
      } else {
        Kept(s, s', id);
      }
    }
  }

  /** Replies stay, and so do processes in slots that are not freed. */
  lemma Kept(s: State, s': State, id: nat)
    requires Sized(s) && Sized(s') && s.replies <= s'.replies
    requires forall i: Pid :: !Free(s, i) ==> (!Free(s', i) && s'.ids[i] == s.ids[i]) || Sent(s'.replies, s.ids[i])
    ensures Sent(s.replies, id) || Present(s, id) ==> Sent(s'.replies, id) || Present(s', id)
  {
    if Sent(s.replies, id) {
      var k :| 0 <= k < |s.replies| && s.replies[k].Status? && s.replies[k].id == id;
      assert s'.replies[k] == s.replies[k];
    } else if Present(s, id) {
      var i: Pid :| !Free(s, i) && s.ids[i] == id;
    }
  }

  lemma ForkKeepsInv(s: State, p: Pid, size: nat, memory: nat)
    requires Inv(s) && Enabled(s, Fork(p, size)) && ForkStep(s, p, size, memory).Next?
    ensures Inv(ForkStep(s, p, size, memory).s)
  {
    hide Shape, Family, Accounts, Free, Zombie;
    ForkHaltsExactly(s, p, size, memory);
    var child := FirstFree(s.slots);
    Unmarked(s, p);
    if child < NR_PROCS {
      FreeMark(s, child);
      ForkShape(s, p, child);
      ForkFamily(s, p, child);
      ForkAccounts(s, p, child);
    } else {
      OtherReply(s, ForkFailed(p));
    }
  }

  lemma Unmarked(s: State, p: Pid)
    requires Sized(s) && s.slots[p].marks == {}
    ensures !Free(s, p) && !Zombie(s, p)
  {
  }

  lemma FreeMark(s: State, i: Pid)
    requires Sized(s) && s.slots[i].marks == {FREE_SLOT}
    ensures Free(s, i)
  {
  }

  /** Replies other than a child's status do not touch the accounts. */
  lemma OtherReply(s: State, r: Reply)
    requires Sized(s) && !r.Status?
    ensures Inv(s) ==> Inv(s.(replies := s.replies + [r]))
  {
    if Inv(s) {
      var s' := s.(replies := s.replies + [r]);
      assert forall k :: 0 <= k < |s'.replies| && s'.replies[k].Status? ==>
             k < |s.replies| && s'.replies[k] == s.replies[k];
      forall k | 0 <= k < |s.replies| && s.replies[k].Status?
        ensures Settled(s', s.replies[k])
      {
        assert Settled(s, s.replies[k]);
      }
      forall id: nat | id < s'.born
        ensures Sent(s'.replies, id) || Present(s', id)
      {
        Kept(s, s', id);
      }
    }
  }

  // ---- a status is sent ----------------------------------------------------

  lemma CleanupShape(s: State, i: Pid)
    requires Shape(s) && Zombie(s, i) && s.slots[i].parent != TASK_TTY
    ensures Shape(Cleanup(s, i))
  {
  }

  lemma CleanupFamily(s: State, i: Pid, pid: int, k: int)
    requires Shape(s) && Family(s, pid, k) && Zombie(s, i)
    ensures Family(Cleanup(s, i), pid, k)
  {
    var s' := Cleanup(s, i);
    forall c: Pid | !Free(s', c) && !(c >= k && s'.slots[c].parent == pid)
      ensures !Free(s', s'.slots[c].parent) && !Zombie(s', s'.slots[c].parent)
      ensures Zombie(s', c) && s'.slots[c].parent != INIT ==> WAITING !in s'.slots[s'.slots[c].parent].marks
    {
      assert c != i && !Free(s, c);
      assert Zombie(s', c) ==> Zombie(s, c);
    }
  }

  lemma NotYetSent(s: State, i: Pid)
    requires Sized(s) && Accounts(s) && !Free(s, i)
    ensures !Sent(s.replies, s.ids[i])
  {
    forall k | 0 <= k < |s.replies| && s.replies[k].Status?
      ensures s.replies[k].id != s.ids[i]
    {
      assert Settled(s, s.replies[k]);
    }
  }

  lemma CleanupSettles(s: State, i: Pid)
    requires Shape(s) && Accounts(s) && Zombie(s, i)
    ensures var s' := Cleanup(s, i);
            forall k :: 0 <= k < |s'.replies| && s'.replies[k].Status? ==> Settled(s', s'.replies[k])
  {
    var s' := Cleanup(s, i);
    assert !Free(s, i);
    forall k | 0 <= k < |s'.replies| && s'.replies[k].Status?
      ensures Settled(s', s'.replies[k])
    {
      if k < |s.replies| {
        assert Settled(s, s.replies[k]);
      }
    }
  }

  lemma CleanupAccounts(s: State, i: Pid)
    requires Shape(s) && Accounts(s) && Zombie(s, i)
    ensures Accounts(Cleanup(s, i))
  {
    hide Settled;
    var s' := Cleanup(s, i);
    var n := |s.replies|;
    assert !Free(s, i);
    NotYetSent(s, i);
    CleanupSettles(s, i);
    forall j, k | 0 <= j < k < |s'.replies| && s'.replies[j].Status? && s'.replies[k].Status?
      ensures s'.replies[j].id != s'.replies[k].id
    {
      assert j < n && s'.replies[j] == s.replies[j];
      assert k < n ==> s'.replies[k] == s.replies[k];
    }
    assert s'.replies[n].id == s.ids[i];
    forall id: nat | id < s'.born
      ensures Sent(s'.replies, id) || Present(s', id)
    {
      Kept(s, s', id);
    }
  }

  /** The accounts do not depend on parents or on who waits. */
  lemma SameAccounts(s: State, s': State)
    requires Sized(s) && Sized(s') && Accounts(s)
    requires s'.ids == s.ids && s'.born == s.born && s'.exits == s.exits && s'.replies == s.replies
    requires forall i: Pid :: Free(s', i) == Free(s, i) && Zombie(s', i) == Zombie(s, i)
    requires forall i: Pid :: s'.slots[i].status == s.slots[i].status
    ensures Accounts(s')
  {
    forall k | 0 <= k < |s'.replies| && s'.replies[k].Status?
      ensures Settled(s', s'.replies[k])
    {
      assert Settled(s, s.replies[k]);
    }
    forall id: nat | id < s'.born
      ensures Sent(s'.replies, id) || Present(s', id)
    {
      Kept(s, s', id);
    }
  }

  // ---- exit ----------------------------------------------------------------

  /** The process has exited and hangs. */
  ghost function Hang(s: State, p: Pid, status: int): State
    requires Sized(s)
  {
    s.(slots := s.slots[p := Slot(s.slots[p].marks + {HANGING}, s.slots[p].parent, status)],
       exits := s.exits[s.ids[p] := status])
  }

  ghost function Wake(s: State, p: Pid): State
    requires Sized(s)
  {
    s.(slots := s.slots[p := s.slots[p].(marks := s.slots[p].marks - {WAITING})])
  }

  /** do_exit never gets stuck before the orphans: the parent has no mark left when it is sent the
      status. */
  lemma LeaveIsHang(s: State, p: Pid, status: int)
    requires Shape(s) && s.slots[p].marks == {}
    ensures var parent := s.slots[p].parent;
            Leave(s, p, status) == Next(if WAITING in s.slots[parent].marks
                                        then Cleanup(Hang(Wake(s, parent), p, status), p) else Hang(s, p, status))
  {
    var parent := s.slots[p].parent;
    if WAITING in s.slots[parent].marks {
      assert parent != p && OneMark(s.slots[parent].marks);
      assert {WAITING} - {WAITING} == {};
      var w := s.slots[parent := s.slots[parent].(marks := {})];
      assert s.slots[p := s.slots[p].(status := status)][parent := s.slots[parent].(marks := {})] ==
             w[p := w[p].(status := status)];
      var r, t := Leave(s, p, status).s, Cleanup(Hang(Wake(s, parent), p, status), p);
      assert r.slots == t.slots;
    } else {
      assert {} + {HANGING} == {HANGING};
    }
  }

  lemma HangShape(s: State, p: Pid, status: int)
    requires Shape(s) && p > INIT && s.slots[p].marks == {}
    ensures Shape(Hang(s, p, status))
  {
    assert {} + {HANGING} == {HANGING};
  }

  lemma HangAccounts(s: State, p: Pid, status: int)
    requires Shape(s) && Accounts(s) && !Free(s, p) && !Zombie(s, p)
    ensures Accounts(Hang(s, p, status))
  {
    var s' := Hang(s, p, status);
    forall k | 0 <= k < |s'.replies| && s'.replies[k].Status?
      ensures Settled(s', s'.replies[k])
    {
      assert Settled(s, s.replies[k]);
    }
    forall id: nat | id < s'.born
      ensures Sent(s'.replies, id) || Present(s', id)
    {
      Kept(s, s', id);
    }
  }

  lemma HangFamily(s: State, p: Pid, status: int)
    requires Shape(s) && Family(s, -1, NR_PROCS) && !Free(s, p) && !Zombie(s, p)
    requires WAITING !in s.slots[s.slots[p].parent].marks
    ensures Family(Hang(s, p, status), p, 0)
  {
    var s' := Hang(s, p, status);
    forall c: Pid | !Free(s', c) && s'.slots[c].parent != p
      ensures !Free(s', s'.slots[c].parent) && !Zombie(s', s'.slots[c].parent)
      ensures Zombie(s', c) && s'.slots[c].parent != INIT ==> WAITING !in s'.slots[s'.slots[c].parent].marks
    {
      assert !Free(s, c);
      assert c != p && Zombie(s', c) ==> Zombie(s, c);
    }
  }

  /** Waking the parent keeps everything, and lets the child hang. */
  lemma WakeKeepsInv(s: State, p: Pid)
    requires Inv(s)
    ensures Inv(Wake(s, p))
  {
    hide Accounts;
    var s' := Wake(s, p);
    assert {WAITING} - {WAITING} == {} && {HANGING} - {WAITING} == {HANGING} && {FREE_SLOT} - {WAITING} == {FREE_SLOT};
    assert Family(s', -1, NR_PROCS) by {
      forall c: Pid | !Free(s', c)
        ensures !Free(s', s'.slots[c].parent) && !Zombie(s', s'.slots[c].parent)
        ensures Zombie(s', c) && s'.slots[c].parent != INIT ==> WAITING !in s'.slots[s'.slots[c].parent].marks
      {
        assert !Free(s, c) && (Zombie(s', c) ==> Zombie(s, c));
      }
    }
    SameAccounts(s, s');
  }

  /** Inside the orphan loop. */
  ghost predicate Orphaned(s: State, pid: Pid, i: nat) {
    Sized(s) && Shape(s) && Accounts(s) && Family(s, pid, i)
  }

  lemma LeaveKeeps(s: State, p: Pid, status: int)
    requires Inv(s) && p > INIT && s.slots[p].marks == {}
    ensures Leave(s, p, status).Next? && Orphaned(Leave(s, p, status).s, p, 0)
  {
    hide Family, Accounts, Leave;
    LeaveIsHang(s, p, status);
    var parent := s.slots[p].parent;
    if WAITING in s.slots[parent].marks {
      WakeKeepsInv(s, parent);
      var w := Wake(s, parent);
      HangShape(w, p, status);
      HangAccounts(w, p, status);
      HangFamily(w, p, status);
      var h := Hang(w, p, status);
      CleanupShape(h, p);
      CleanupFamily(h, p, p, 0);
      CleanupAccounts(h, p);
    } else {
      HangShape(s, p, status);
      HangAccounts(s, p, status);
      HangFamily(s, p, status);
    }
  }

  ghost function ToInit(s: State, i: Pid): State
    requires Sized(s)
  {
    s.(slots := s.slots[i := s.slots[i].(parent := INIT)])
  }

  lemma ToInitKeeps(s: State, pid: Pid, i: Pid)
    requires Orphaned(s, pid, i) && pid > INIT && s.slots[i].parent == pid
    ensures Orphaned(ToInit(s, i), pid, i + 1)
  {
    hide Accounts;
    var s' := ToInit(s, i);
    assert Family(s', pid, i + 1) by {
      forall c: Pid | !Free(s', c) && !(c >= i + 1 && s'.slots[c].parent == pid)
        ensures !Free(s', s'.slots[c].parent) && !Zombie(s', s'.slots[c].parent)
        ensures Zombie(s', c) && s'.slots[c].parent != INIT ==> WAITING !in s'.slots[s'.slots[c].parent].marks
      {
        assert !Free(s, c) && (Zombie(s', c) ==> Zombie(s, c));
      }
    }
    SameAccounts(s, s');
  }

  /** INIT and the orphan in slot c are found with exactly the flags WAITING and HANGING. */
  predicate ExactMatch(s: State, pid: Pid, c: Pid, quiet: bool)
    requires Sized(s)
  {
    s.slots[c].parent == pid && quiet && s.slots[INIT].marks == {WAITING} && s.slots[c].marks == {HANGING}
  }

  /** One round of the loop: on an exact match the memory manager blocks in the send to INIT, and
      otherwise the orphan just changes its parent. */
  lemma AdoptIsToInit(s: State, pid: Pid, i: Pid, quiet: bool)
    requires Sized(s) && pid != INIT
    ensures Adopt(s, pid, i, quiet) ==
            if s.slots[i].parent != pid then Next(s)
            else if ExactMatch(s, pid, i, quiet) then
              Stuck(ToInit(s, i).(slots := ToInit(s, i).slots[i := Slot({}, INIT, s.slots[i].status)]))
            else Next(ToInit(s, i))
  {
    if ExactMatch(s, pid, i, quiet) {
      assert HANGING in s.slots[i].marks && HANGING !in s.slots[INIT].marks;
    }
  }

  lemma AdoptKeeps(s: State, pid: Pid, i: Pid, quiet: bool)
    requires Orphaned(s, pid, i) && pid > INIT
    ensures var r := Adopt(s, pid, i, quiet); r.Next? ==> Orphaned(r.s, pid, i + 1)
  {
    hide Shape, Family, Accounts, Adopt;
    AdoptIsToInit(s, pid, i, quiet);
    if s.slots[i].parent == pid {
      ToInitKeeps(s, pid, i);
    } else {
      SkipsOther(s, pid, i);
    }
  }

  lemma SkipsOther(s: State, pid: Pid, i: Pid)
    requires Sized(s) && Family(s, pid, i) && s.slots[i].parent != pid
    ensures Family(s, pid, i + 1)
  {
  }

  lemma {:induction false} OrphansKeep(s: State, pid: Pid, i: nat, quiet: seq<bool>)
    requires i <= NR_PROCS && Orphaned(s, pid, i) && pid > INIT && |quiet| == NR_PROCS
    ensures var r := Orphans(s, pid, i, quiet); r.Next? ==> Orphaned(r.s, pid, NR_PROCS)
    decreases NR_PROCS - i
  {
    hide Orphaned, Adopt;
    OrphanedSize(s, pid, i);
    if i == NR_PROCS {
    } else {
      AdoptKeeps(s, pid, i, quiet[i]);
      var r := Adopt(s, pid, i, quiet[i]);
      if r.Next? {
        OrphansKeep(r.s, pid, i + 1, quiet);
      }
    }
  }

  lemma OrphanedSize(s: State, pid: Pid, i: nat)
    requires Orphaned(s, pid, i)
    ensures Sized(s)
  {
  }

  lemma ExitKeepsInv(s: State, p: Pid, status: int, quiet: seq<bool>)
    requires Inv(s) && Enabled(s, Exit(p, status, quiet))
    ensures !ExitStep(s, p, status, quiet).Halt?
    ensures ExitStep(s, p, status, quiet).Next? ==> Inv(ExitStep(s, p, status, quiet).s)
  {
    hide Shape, Accounts, Leave, Orphans;
    LeaveKeeps(s, p, status);
    OrphansKeep(Leave(s, p, status).s, p, 0, quiet);
    NeverHalts(Leave(s, p, status).s, p, 0, quiet);
  }

  lemma {:induction false} NeverHalts(s: State, pid: Pid, i: nat, quiet: seq<bool>)
    requires Sized(s) && |quiet| == NR_PROCS && i <= NR_PROCS
    ensures !Orphans(s, pid, i, quiet).Halt?
    decreases NR_PROCS - i
  {
    if i == NR_PROCS {
    } else {
      var r := Adopt(s, pid, i, quiet[i]);
      if r.Next? {
        NeverHalts(r.s, pid, i + 1, quiet);
      }
    }
  }

  // ---- wait ----------------------------------------------------------------

  ghost function Sleep(s: State, p: Pid): State
    requires Sized(s)
  {
    s.(slots := s.slots[p := s.slots[p].(marks := s.slots[p].marks + {WAITING})])
  }

  lemma SleepShape(s: State, p: Pid)
    requires Shape(s) && p >= INIT && s.slots[p].marks == {}
    ensures Shape(Sleep(s, p))
  {
    assert {} + {WAITING} == {WAITING};
  }

  lemma SleepFamily(s: State, p: Pid)
    requires Sized(s) && Family(s, -1, NR_PROCS)
    requires forall c: Pid :: Zombie(s, c) ==> s.slots[c].parent != p
    ensures Family(Sleep(s, p), -1, NR_PROCS)
  {
    var s' := Sleep(s, p);
    forall c: Pid | !Free(s', c)
      ensures !Free(s', s'.slots[c].parent) && !Zombie(s', s'.slots[c].parent)
      ensures Zombie(s', c) && s'.slots[c].parent != INIT ==> WAITING !in s'.slots[s'.slots[c].parent].marks
    {
      assert !Free(s, c) && (Zombie(s', c) ==> Zombie(s, c));
    }
  }

  lemma SleepKeepsInv(s: State, p: Pid)
    requires Inv(s) && p >= INIT && s.slots[p].marks == {}
    requires forall c: Pid :: Zombie(s, c) ==> s.slots[c].parent != p
    ensures Inv(Sleep(s, p))
  {
    hide Shape, Family, Accounts;
    SleepShape(s, p);
    SleepFamily(s, p);
    SameAccounts(s, Sleep(s, p));
  }

  lemma WaitKeepsInv(s: State, p: Pid)
    requires Inv(s) && Enabled(s, Wait(p))
    ensures WaitStep(s, p).Next? && Inv(WaitStep(s, p).s)
  {
    hide Shape, Family, Accounts;
    var i := FirstZombie(s.slots, p);
    if i < NR_PROCS {
      CleanupShape(s, i);
      CleanupFamily(s, i, -1, NR_PROCS);
      CleanupAccounts(s, i);
    } else if HasChildren(s.slots, p) {
      SleepKeepsInv(s, p);
    } else {
      OtherReply(s, NoTask(p));
    }
  }

  // ---- runs ----------------------------------------------------------------

  lemma StepKeepsInv(s: State, c: Call, memory: nat)
    requires Inv(s) && Enabled(s, c) && Step(s, c, memory).Next?
    ensures Inv(Step(s, c, memory).s)
  {
    hide Inv, Enabled, ForkStep, ExitStep, WaitStep;
    match c
    case Fork(p, size) => ForkKeepsInv(s, p, size, memory);
    case Exit(p, status, quiet) => ExitKeepsInv(s, p, status, quiet);
    case Wait(p) => WaitKeepsInv(s, p);
  }

  ghost predicate Run(s: State, calls: seq<Call>, memory: nat, s': State)
    decreases |calls|
  {
    if calls == [] then s == s'
    else
      && Sized(s) && Enabled(s, calls[0]) && Step(s, calls[0], memory).Next?
      && Run(Step(s, calls[0], memory).s, calls[1..], memory, s')
  }

  /** The table that tinix_main sets up. */
  function Boot(): (s: State)
    ensures Sized(s)
  {
    State(seq(NR_PROCS, i => Slot(if i < FIRST_FREE then {} else {FREE_SLOT}, TASK_TTY, 0)),
          seq(NR_PROCS, i => i), FIRST_FREE, map[], [])
  }

  lemma BootInv()
    ensures Inv(Boot())
  {
    var s := Boot();
    forall id: nat | id < s.born
      ensures Present(s, id)
    {
      assert !Free(s, id) && s.ids[id] == id;
    }
  }

  lemma {:induction false} RunKeepsInv(s: State, calls: seq<Call>, memory: nat, s': State)
    requires Inv(s) && Run(s, calls, memory, s')
    ensures Inv(s')
    decreases |calls|
  {
    hide Inv, Step, Free, Zombie;
    if calls == [] {
    } else {
      StepKeepsInv(s, calls[0], memory);
      RunKeepsInv(Step(s, calls[0], memory).s, calls[1..], memory, s');
    }
  }

  /** Every run from boot: nobody's parent is free or a zombie; only INIT can be marked as waiting
      while it has a zombie child; no two status replies are for the same process, each carries
      the status of its exit, and a process that was born is present until its status is sent. */
  lemma RunFromBoot(calls: seq<Call>, memory: nat, s: State)
    requires Run(Boot(), calls, memory, s)
    ensures Sized(s)
    ensures forall c: Pid :: !Free(s, c) ==> !Free(s, s.slots[c].parent) && !Zombie(s, s.slots[c].parent)
    ensures forall c: Pid :: Zombie(s, c) && s.slots[c].parent != INIT ==>
              WAITING !in s.slots[s.slots[c].parent].marks
    ensures forall j, k :: 0 <= j < k < |s.replies| && s.replies[j].Status? && s.replies[k].Status? ==>
              s.replies[j].id != s.replies[k].id
    ensures forall k :: 0 <= k < |s.replies| && s.replies[k].Status? ==>
              s.replies[k].id in s.exits && s.exits[s.replies[k].id] == s.replies[k].status
    ensures forall id: nat :: id < s.born ==> (Sent(s.replies, id) <==> !Present(s, id))
    ensures forall i: Pid :: !Free(s, i) ==> (Zombie(s, i) <==> s.ids[i] in s.exits)
  {
    hide Run, Shape;
    BootInv();
    RunKeepsInv(Boot(), calls, memory, s);
    forall k | 0 <= k < |s.replies| && s.replies[k].Status?
      ensures s.replies[k].id in s.exits && s.exits[s.replies[k].id] == s.replies[k].status
    {
      assert Settled(s, s.replies[k]);
    }
    forall id: nat | Present(s, id)
      ensures !Sent(s.replies, id)
    {
      var i: Pid :| !Free(s, i) && s.ids[i] == id;
      NotYetSent(s, i);
    }
  }

  // ---- what wait answers ---------------------------------------------------

  /** wait sends a status iff there is a zombie child, answers NO_TASK iff no slot at all names the
      caller, and otherwise puts the caller to sleep. */
  lemma WaitAnswers(s: State, p: Pid)
    requires Sized(s) && s.slots[p].marks == {}
    ensures WaitStep(s, p).Next?
    ensures var r := WaitStep(s, p).s.replies; var n := |s.replies|;
            && (|r| == n + 1 && r[n].Status? <==> exists c: Pid :: Zombie(s, c) && s.slots[c].parent == p)
            && (r == s.replies + [NoTask(p)] <==> !HasChildren(s.slots, p))
            && (r == s.replies <==> HasChildren(s.slots, p) && !exists c: Pid :: Zombie(s, c) && s.slots[c].parent == p)
  {
    var i := FirstZombie(s.slots, p);
    if i < NR_PROCS {
      assert Zombie(s, i) && s.slots[i].parent == p;
    }
  }

  /** NO_TASK means that there is no child.  The converse fails for a caller one of whose reaped
      children left its slot free with the old parent: a caller without children gets NO_TASK
      iff no free slot names it. */
  lemma NoTaskExactly(s: State, p: Pid)
    requires Sized(s) && s.slots[p].marks == {}
    ensures WaitStep(s, p).Next?
    ensures var childless := forall c: Pid :: !Free(s, c) ==> s.slots[c].parent != p;
            WaitStep(s, p).s.replies == s.replies + [NoTask(p)] <==>
            childless && forall c: Pid :: Free(s, c) ==> s.slots[c].parent != p
  {
    WaitAnswers(s, p);
    if forall c: Pid :: s.slots[c].parent != p {
      assert !HasChildren(s.slots, p);
    } else {
      var c: Pid :| s.slots[c].parent == p;
      assert s.slots[c].parent == p;
    }
  }

  // ---- what becomes of orphans ---------------------------------------------

  /** The first |found| rounds of the loop. */
  ghost function Handed(s: State, pid: Pid, found: seq<bool>): (r: Outcome)
    requires Sized(s) && |found| <= NR_PROCS
    ensures r.Next? ==> Sized(r.s)
  {
    if found == [] then Next(s)
    else
      var r := Handed(s, pid, found[..|found| - 1]);
      if r.Next? then Adopt(r.s, pid, |found| - 1, found[|found| - 1]) else r
  }

  lemma {:induction false} HandedIsOrphans(s: State, pid: Pid, i: nat, quiet: seq<bool>)
    requires Sized(s) && |quiet| == NR_PROCS && i <= NR_PROCS && Handed(s, pid, quiet[..i]).Next?
    ensures Orphans(s, pid, 0, quiet) == Orphans(Handed(s, pid, quiet[..i]).s, pid, i, quiet)
  {
    hide Adopt;
    if i > 0 {
      assert quiet[..i][..i - 1] == quiet[..i - 1];
      HandedIsOrphans(s, pid, i - 1, quiet);
    } else {
      assert quiet[..0] == [];
    }
  }

  ghost predicate SomeMatch(s: State, pid: Pid, i: nat, quiet: seq<bool>)
    requires Sized(s) && |quiet| == NR_PROCS
  {
    exists c: Pid :: c >= i && ExactMatch(s, pid, c, quiet[c])
  }

  /** The loop gets stuck iff some orphan is found with exact flags.  Then INIT still waits, an
      orphan has lost its mark and keeps its slot, and no status was sent; otherwise every slot
      that named pid names INIT, and nothing else has changed. */
  lemma {:induction false} OrphansEffect(s: State, pid: Pid, i: nat, quiet: seq<bool>)
    requires Sized(s) && |quiet| == NR_PROCS && i <= NR_PROCS && pid > INIT && s.slots[INIT].parent == TASK_TTY
    ensures var r := Orphans(s, pid, i, quiet);
            && !r.Halt? && Sized(r.s) && r.s.replies == s.replies && r.s.exits == s.exits && r.s.ids == s.ids
            && r.s.slots[INIT] == s.slots[INIT]
            && (r.Stuck? <==> SomeMatch(s, pid, i, quiet))
            && (r.Stuck? ==> exists c: Pid :: c >= i && ExactMatch(s, pid, c, quiet[c]) &&
                               r.s.slots[c] == Slot({}, INIT, s.slots[c].status))
            && (r.Next? ==> forall c: Pid :: r.s.slots[c] == if c >= i && s.slots[c].parent == pid
                                                               then s.slots[c].(parent := INIT) else s.slots[c])
    decreases NR_PROCS - i
  {
    hide Adopt;
    if i == NR_PROCS {
    } else {
      AdoptIsToInit(s, pid, i, quiet[i]);
      var r := Adopt(s, pid, i, quiet[i]);
      if r.Next? {
        OrphansEffect(r.s, pid, i + 1, quiet);
        MatchAhead(s, r.s, pid, i, quiet);
      } else {
        assert ExactMatch(s, pid, i, quiet[i]);
      }
    }
  }

  lemma MatchAhead(s: State, s': State, pid: Pid, i: Pid, quiet: seq<bool>)
    requires Sized(s) && Sized(s') && |quiet| == NR_PROCS && pid > INIT
    requires s'.slots[INIT] == s.slots[INIT] && forall c: Pid :: c > i ==> s'.slots[c] == s.slots[c]
    requires !ExactMatch(s, pid, i, quiet[i])
    ensures SomeMatch(s', pid, i + 1, quiet) <==> SomeMatch(s, pid, i, quiet)
  {
    if SomeMatch(s, pid, i, quiet) {
      var c: Pid :| c >= i && ExactMatch(s, pid, c, quiet[c]);
      assert ExactMatch(s', pid, c, quiet[c]);
    }
    if SomeMatch(s', pid, i + 1, quiet) {
      var c: Pid :| c >= i + 1 && ExactMatch(s', pid, c, quiet[c]);
      assert ExactMatch(s, pid, c, quiet[c]);
    }
  }

  lemma LeaveOthers(s: State, p: Pid, status: int, c: Pid)
    requires Shape(s) && s.slots[p].marks == {} && c != p
    ensures Leave(s, p, status).Next?
    ensures Leave(s, p, status).s.slots[c] ==
            if c == s.slots[p].parent then s.slots[c].(marks := s.slots[c].marks - {WAITING}) else s.slots[c]
  {
    LeaveIsHang(s, p, status);
    if c == s.slots[p].parent && WAITING !in s.slots[c].marks {
      assert s.slots[c].marks - {WAITING} == s.slots[c].marks;
    }
  }

  lemma ParentIsAlive(s: State, p: Pid)
    requires Inv(s) && !Free(s, p)
    ensures !Free(s, s.slots[p].parent) && !Zombie(s, s.slots[p].parent)
  {
  }

  /** An exit blocks the memory manager for ever iff it orphans a zombie that is found, like INIT,
      with exact flags. */
  lemma ExitSticksExactly(s: State, p: Pid, status: int, quiet: seq<bool>)
    requires Inv(s) && Enabled(s, Exit(p, status, quiet))
    ensures ExitStep(s, p, status, quiet).Stuck? <==>
            s.slots[p].parent != INIT && exists c: Pid :: ExactMatch(s, p, c, quiet[c])
  {
    hide Family, Accounts, Leave, Orphans;
    LeaveIsHang(s, p, status);
    ParentIsAlive(s, p);
    var l := Leave(s, p, status).s;
    LeaveOthers(s, p, status, INIT);
    OrphansEffect(l, p, 0, quiet);
    forall c: Pid | c != p {
      LeaveOthers(s, p, status, c);
    }
    assert !ExactMatch(s, p, p, quiet[p]);
    LeaverIsNoOrphan(s, p, status, quiet);
    if s.slots[p].parent != INIT {
      forall c: Pid | c != p
        ensures ExactMatch(l, p, c, quiet[c]) == ExactMatch(s, p, c, quiet[c])
      {
        MatchedIsNoParent(s, p, c);
      }
    }
  }

  /** The process that leaves does not adopt itself. */
  lemma LeaverIsNoOrphan(s: State, p: Pid, status: int, quiet: seq<bool>)
    requires Inv(s) && Enabled(s, Exit(p, status, quiet))
    ensures s.slots[p].parent != p
  {
  }

  lemma MatchedIsNoParent(s: State, p: Pid, c: Pid)
    requires Inv(s) && !Free(s, p)
    ensures Zombie(s, c) ==> c != s.slots[p].parent
  {
  }

  /** A zombie whose parent exits while INIT waits stays a zombie, beside a waiting INIT, whenever the
      exit completes. */
  lemma InitWaitsBesideZombie(s: State, p: Pid, status: int, quiet: seq<bool>, c: Pid)
    requires Inv(s) && Enabled(s, Exit(p, status, quiet)) && s.slots[p].parent != INIT
    requires WAITING in s.slots[INIT].marks && Zombie(s, c) && s.slots[c].parent == p
    ensures var r := ExitStep(s, p, status, quiet);
            r.Next? ==> WAITING in r.s.slots[INIT].marks && Zombie(r.s, c) && r.s.slots[c].parent == INIT
  {
    hide Family, Accounts, Leave, Orphans;
    LeaveIsHang(s, p, status);
    ParentIsAlive(s, p);
    OrphansEffect(Leave(s, p, status).s, p, 0, quiet);
    LeaveOthers(s, p, status, c);
    LeaveOthers(s, p, status, INIT);
  }

  // ---- who gets a status ---------------------------------------------------

  /** The status is that of a child of its receiver. */
  ghost predicate OwnChild(s: State, r: Reply)
    requires Sized(s) && r.Status?
  {
    !Free(s, r.child) && s.slots[r.child].parent == r.to && s.ids[r.child] == r.id
  }

  /** A status only goes to the parent, which waits for one or has just asked, at most one at a
      time. */
  lemma StatusOnlyWhenAsked(s: State, c: Call, memory: nat)
    requires Inv(s) && Enabled(s, c) && Step(s, c, memory).Next?
    ensures var s' := Step(s, c, memory).s;
            && s.replies <= s'.replies
            && (forall k :: |s.replies| <= k < |s'.replies| && s'.replies[k].Status? ==>
                  k == |s.replies| && OwnChild(s, s'.replies[k]) &&
                  (WAITING in s.slots[s'.replies[k].to].marks || c == Wait(s'.replies[k].to)))
  {
    hide Family, Accounts, Orphans, Leave;
    match c
    case Fork(p, size) => ForkHaltsExactly(s, p, size, memory);
    case Exit(p, status, quiet) =>
      LeaveIsHang(s, p, status);
      LeaveOthers(s, p, status, INIT);
      OrphansEffect(Leave(s, p, status).s, p, 0, quiet);
    case Wait(p) =>
  }

  // ---- runs from boot ------------------------------------------------------

  /** A fork that finds the slot `child` and enough memory. */
  lemma Forks(s: State, p: Pid, size: nat, memory: nat, child: Pid)
    requires Sized(s) && Enabled(s, Fork(p, size)) && child >= FIRST_FREE && MemoryFits(child, size, memory)
    requires s.slots[child].marks == {FREE_SLOT} && forall i: Pid :: i < child ==> s.slots[i].marks != {FREE_SLOT}
    ensures Step(s, Fork(p, size), memory) == Next(Child(s, p, child))
  {
    assert FirstFree(s.slots) == child;
  }

  lemma Sleeps(s: State, p: Pid, c: Pid, memory: nat)
    requires Sized(s) && s.slots[c].parent == p
    requires forall i: Pid :: HANGING in s.slots[i].marks ==> s.slots[i].parent != p
    ensures Step(s, Wait(p), memory) == Next(Sleep(s, p))
  {
    assert HasChildren(s.slots, p);
  }

  /** An exit without children and with a parent that does not wait. */
  lemma Hangs(s: State, p: Pid, status: int, quiet: seq<bool>, memory: nat)
    requires Shape(s) && Enabled(s, Exit(p, status, quiet)) && WAITING !in s.slots[s.slots[p].parent].marks
    requires forall c: Pid :: s.slots[c].parent != p
    ensures Step(s, Exit(p, status, quiet), memory) == Next(Hang(s, p, status))
  {
    LeaveIsHang(s, p, status);
    NoOrphans(Hang(s, p, status), p, 0, quiet);
  }

  lemma {:induction false} NoOrphans(s: State, pid: Pid, i: nat, quiet: seq<bool>)
    requires Sized(s) && |quiet| == NR_PROCS && i <= NR_PROCS && forall c: Pid :: s.slots[c].parent != pid
    ensures Orphans(s, pid, i, quiet) == Next(s)
    decreases NR_PROCS - i
  {
    if i == NR_PROCS {
    } else {
      NoOrphans(s, pid, i + 1, quiet);
    }
  }

  lemma RunLonger(s: State, c: Call, memory: nat, t: State, calls: seq<Call>, s': State)
    requires Sized(s) && Enabled(s, c) && Step(s, c, memory) == Next(t) && Run(t, calls, memory, s')
    ensures Run(s, [c] + calls, memory, s')
  {
    hide Step, Enabled;
    assert ([c] + calls)[1..] == calls;
  }

  const NO_MATCH := seq(NR_PROCS, _ => false)

  /** A process waits, gets its only child's status, waits again, and sleeps for ever. */
  lemma SecondWaitSleeps(size: nat, memory: nat, status: int) returns (calls: seq<Call>, s: State)
    requires MemoryFits(FIRST_FREE, size, memory)
    ensures Run(Boot(), calls, memory, s) && Sized(s)
    ensures WAITING in s.slots[INIT].marks && forall c: Pid :: !Free(s, c) ==> s.slots[c].parent != INIT
  {
    hide Step, Shape, Run, Enabled;
    var s1 := Child(Boot(), INIT, FIRST_FREE);
    var s2 := Hang(s1, FIRST_FREE, status);
    var s3 := Cleanup(s2, FIRST_FREE);
    s := Sleep(s3, INIT);
    FirstChild(size, memory);
    FirstExit(status, memory);
    FirstWait(status, memory);
    Sleeps(s3, INIT, FIRST_FREE, memory);
    calls := [Fork(INIT, size), Exit(FIRST_FREE, status, NO_MATCH), Wait(INIT), Wait(INIT)];
    assert Run(s, [], memory, s) by { NoCalls(s, memory); }
    RunLonger(s3, Wait(INIT), memory, s, [], s);
    RunLonger(s2, Wait(INIT), memory, s3, [Wait(INIT)] + [], s);
    RunLonger(s1, Exit(FIRST_FREE, status, NO_MATCH), memory, s2, [Wait(INIT)] + ([Wait(INIT)] + []), s);
    RunLonger(Boot(), Fork(INIT, size), memory, s1,
              [Exit(FIRST_FREE, status, NO_MATCH)] + ([Wait(INIT)] + ([Wait(INIT)] + [])), s);
    assert calls == [Fork(INIT, size)] +
                    ([Exit(FIRST_FREE, status, NO_MATCH)] + ([Wait(INIT)] + ([Wait(INIT)] + [])));
  }

  lemma NoCalls(s: State, memory: nat)
    ensures Run(s, [], memory, s)
  {
  }

  lemma FirstChild(size: nat, memory: nat)
    requires MemoryFits(FIRST_FREE, size, memory)
    ensures Enabled(Boot(), Fork(INIT, size))
    ensures Step(Boot(), Fork(INIT, size), memory) == Next(Child(Boot(), INIT, FIRST_FREE))
  {
    Forks(Boot(), INIT, size, memory, FIRST_FREE);
  }

  lemma FirstExit(status: int, memory: nat)
    ensures var s, c := Child(Boot(), INIT, FIRST_FREE), Exit(FIRST_FREE, status, NO_MATCH);
            Enabled(s, c) && Step(s, c, memory) == Next(Hang(s, FIRST_FREE, status))
  {
    Hangs(Child(Boot(), INIT, FIRST_FREE), FIRST_FREE, status, NO_MATCH, memory);
  }

  lemma FirstWait(status: int, memory: nat)
    ensures var s := Hang(Child(Boot(), INIT, FIRST_FREE), FIRST_FREE, status);
            && Enabled(s, Wait(INIT)) && Step(s, Wait(INIT), memory) == Next(Cleanup(s, FIRST_FREE))
            && Enabled(Cleanup(s, FIRST_FREE), Wait(INIT))
  {
    var s := Hang(Child(Boot(), INIT, FIRST_FREE), FIRST_FREE, status);
    assert s.slots[FIRST_FREE].parent == INIT && HANGING in s.slots[FIRST_FREE].marks;
    assert FirstZombie(s.slots, INIT) == FIRST_FREE;
  }

  /** Three generations below INIT; the youngest has exited, and INIT waits. */
  ghost function Generations(status: int): State {
    var s1 := Child(Boot(), INIT, 9);
    var s2 := Child(s1, 9, 10);
    var s3 := Child(s2, 10, 11);
    Sleep(Hang(s3, 11, status), INIT)
  }

  lemma GenerationsRun(size: nat, memory: nat, status: int) returns (calls: seq<Call>)
    requires MemoryFits(11, size, memory)
    ensures Run(Boot(), calls, memory, Generations(status))
  {
    hide Step, Run, Shape, Enabled;
    var s1 := Child(Boot(), INIT, 9);
    var s2 := Child(s1, 9, 10);
    var s3 := Child(s2, 10, 11);
    var s4 := Hang(s3, 11, status);
    var s5 := Sleep(s4, INIT);
    FirstChild(size, memory);
    SecondChild(size, memory);
    ThirdChild(size, memory);
    YoungestExits(status, memory);
    InitSleeps(status, memory);
    NoCalls(s5, memory);
    var c5 := [Wait(INIT)] + [];
    var c4 := [Exit(11, status, NO_MATCH)] + c5;
    var c3 := [Fork(10, size)] + c4;
    var c2 := [Fork(9, size)] + c3;
    calls := [Fork(INIT, size)] + c2;
    RunLonger(s4, Wait(INIT), memory, s5, [], s5);
    RunLonger(s3, Exit(11, status, NO_MATCH), memory, s4, c5, s5);
    RunLonger(s2, Fork(10, size), memory, s3, c4, s5);
    RunLonger(s1, Fork(9, size), memory, s2, c3, s5);
    RunLonger(Boot(), Fork(INIT, size), memory, s1, c2, s5);
  }

  lemma SecondChild(size: nat, memory: nat)
    requires MemoryFits(10, size, memory)
    ensures var s := Child(Boot(), INIT, 9);
            Enabled(s, Fork(9, size)) && Step(s, Fork(9, size), memory) == Next(Child(s, 9, 10))
  {
    Forks(Child(Boot(), INIT, 9), 9, size, memory, 10);
  }

  lemma ThirdChild(size: nat, memory: nat)
    requires MemoryFits(11, size, memory)
    ensures var s := Child(Child(Boot(), INIT, 9), 9, 10);
            Enabled(s, Fork(10, size)) && Step(s, Fork(10, size), memory) == Next(Child(s, 10, 11))
  {
    Forks(Child(Child(Boot(), INIT, 9), 9, 10), 10, size, memory, 11);
  }

  lemma YoungestExits(status: int, memory: nat)
    ensures var s, c := Child(Child(Child(Boot(), INIT, 9), 9, 10), 10, 11), Exit(11, status, NO_MATCH);
            Enabled(s, c) && Step(s, c, memory) == Next(Hang(s, 11, status))
  {
    Hangs(Child(Child(Child(Boot(), INIT, 9), 9, 10), 10, 11), 11, status, NO_MATCH, memory);
  }

  lemma InitSleeps(status: int, memory: nat)
    ensures var s := Hang(Child(Child(Child(Boot(), INIT, 9), 9, 10), 10, 11), 11, status);
            Enabled(s, Wait(INIT)) && Step(s, Wait(INIT), memory) == Next(Sleep(s, INIT))
  {
    Sleeps(Hang(Child(Child(Child(Boot(), INIT, 9), 9, 10), 10, 11), 11, status), INIT, 9, memory);
  }

  /** From boot, an exit can leave INIT waiting beside a zombie child, and it can block the memory
      manager for ever: it depends only on whether the flags are found exact. */
  lemma OrphanRuns(size: nat, memory: nat, status: int, quiet: seq<bool>) returns (calls: seq<Call>, s: State)
    requires MemoryFits(11, size, memory) && |quiet| == NR_PROCS
    ensures Run(Boot(), calls, memory, s) && Sized(s) && Enabled(s, Exit(10, status, quiet))
    ensures var r := ExitStep(s, 10, status, quiet);
            if quiet[11] then r.Stuck?
            else r.Next? && WAITING in r.s.slots[INIT].marks && Zombie(r.s, 11) && r.s.slots[11].parent == INIT
  {
    hide Run, Step, Leave, Orphans;
    calls := GenerationsRun(size, memory, status);
    s := Generations(status);
    GenerationsShape(status);
    BootInv();
    RunKeepsInv(Boot(), calls, memory, s);
    ExitSticksExactly(s, 10, status, quiet);
    ExitKeepsInv(s, 10, status, quiet);
    InitWaitsBesideZombie(s, 10, status, quiet, 11);
  }

  lemma GenerationsShape(status: int)
    ensures var s := Generations(status);
            && Sized(s) && s.slots[INIT].marks == {WAITING} && s.slots[10] == Slot({}, 9, 0)
            && s.slots[11] == Slot({HANGING}, 10, status)
            && forall c: Pid :: c != 11 ==> s.slots[c].parent != 10
  {
    assert {} + {WAITING} == {WAITING} && {} + {HANGING} == {HANGING};
  }
}
