/** The code of task_mm (mm/main.c) and of do_fork, do_exit, cleanup and do_wait
    (mm/fork2exit.c) on the process table. */
module MemoryManager {
  import opened ProcTable
  import opened Lifecycle

  predicate KernelFlags(t: seq<set<Flag>>) {
    |t| == NR_PROCS && forall i :: 0 <= i < NR_PROCS ==> t[i] <= {SENDING, RECEIVING}
  }

  type IpcTable = t: seq<set<Flag>> | KernelFlags(t) witness seq(NR_PROCS, _ => {})

  /** What a message to the memory manager asks for. */
  datatype Request = FORK(size: nat) | EXIT(status: int) | WAIT

  class Server {
    /** memory_size */
    const memory: nat
    /** The process table: marks, parents and exit statuses. */
    var table: seq<Slot>
    /** The kernel's flags of each process. */
    var ipc: IpcTable

    ghost var ids: seq<nat>
    ghost var born: nat
    ghost var exits: map<nat, int>
    ghost var replies: seq<Reply>

    ghost function Now(): State
      reads this
    {
      State(table, ids, born, exits, replies)
    }

    constructor (memory: nat)
      ensures this.memory == memory && Now() == Boot() && Inv(Now())
    {
      this.memory := memory;
      var s := Boot();
      table := s.slots;
      ipc := seq(NR_PROCS, _ => {});
      ids, born, exits, replies := s.ids, s.born, s.exits, s.replies;
      BootInv();
    }

    /** p_flags of a slot: a free one has no other flag. */
    function Flags(i: Pid): set<Flag>
      reads this
      requires |table| == NR_PROCS
    {
      if FREE_SLOT in table[i].marks then table[i].marks else table[i].marks + ipc[i]
    }

    /** send_recv with the file system: while the memory manager is blocked, other processes send
        and receive. */
    method AskFs()
      modifies this`ipc
    {
      ipc := *;
    }

    /** send_recv of an answer.  It returns iff the receiver has no mark (Answers.SendBlocksExactly);
        not ok means that the memory manager is blocked for ever. */
    method SendRecv(to: Pid, ghost r: seq<Reply>) returns (ok: bool)
      requires Sized(Now())
      modifies this`ipc, this`replies
      ensures ok <==> SendReturns(Now(), to)
      ensures replies == if ok then old(replies) + r else old(replies)
    {
      ok := table[to].marks == {};
      if ok {
        replies := replies + r;
        ipc := *;
      }
    }

    /** The slot is freed only behind the send. */
    method Cleanup(i: Pid) returns (ok: bool)
      requires Sized(Now())
      modifies this`table, this`ipc, this`replies
      ensures Finish(old(Now()), i) == if ok then Next(Now()) else Stuck(Now())
    {
      ok := SendRecv(table[i].parent, [Status(table[i].parent, ids[i], i, table[i].status)]);
      if ok {
        table := table[i := table[i].(marks := {FREE_SLOT})];
      }
    }

    method FindSlot() returns (i: nat)
      requires |table| == NR_PROCS
      ensures i == FirstFree(table)
    {
      i := 0;
      while i < NR_PROCS && Flags(i) != {FREE_SLOT}
        invariant 0 <= i <= NR_PROCS && forall j :: 0 <= j < i ==> table[j].marks != {FREE_SLOT}
        decreases NR_PROCS - i
      {
        i := i + 1;
      }
    }

    /** alloc_mem; not ok is a panic. */
    method AllocMem(pid: Pid, size: nat) returns (ok: bool, base: int)
      requires pid >= FIRST_FREE
      ensures ok <==> MemoryFits(pid, size, memory)
      ensures ok ==> base == Base(pid)
    {
      if size > PROC_IMAGE_SIZE {
        return false, 0;
      }
      base := PROC_BASE + (pid - NR_TASKS - NR_NATIVE_PROCS) * PROC_IMAGE_SIZE;
      ok := base + size < memory;
    }

    /** do_fork and its answers; size is that of the caller's segments.  It stops only on the panic
        of alloc_mem. */
    method DoFork(pid: Pid, size: nat) returns (ok: bool)
      requires Inv(Now()) && Enabled(Now(), Fork(pid, size))
      modifies this
      ensures Step(old(Now()), Fork(pid, size), memory) == if ok then Next(Now()) else Halt
      ensures ok ==> Inv(Now())
    {
      hide Shape, Family, Accounts;
      ghost var s := Now();
      ForkHaltsExactly(s, pid, size, memory);
      var child := FindSlot();
      if child < NR_TASKS + NR_NATIVE_PROCS {
        return false;
      }
      if child == NR_PROCS {
        ok := SendRecv(pid, [ForkFailed(pid)]);
      } else {
        table := table[child := table[pid].(parent := pid)];
        ipc := ipc[child := ipc[pid]];
        var base;
        ok, base := AllocMem(child, size);
        if !ok {
          return;
        }
        ids, born := ids[child := born], born + 1;
        AskFs();
        ok := SendRecv(child, [Born(child)]);
        assert ok;
        ghost var before := replies;
        ok := SendRecv(pid, [Forked(pid, child)]);
        assert replies == s.replies + [Born(child), Forked(pid, child)];
      }
      assert ok;
      ForkKeepsInv(s, pid, size, memory);
    }

    /** The parts of do_exit before the children. */
    method Depart(pid: Pid, status: int) returns (ok: bool)
      requires Sized(Now())
      modifies this
      ensures Leave(old(Now()), pid, status) == if ok then Next(Now()) else Stuck(Now())
    {
      var parent := table[pid].parent;
      AskFs();
      table := table[pid := table[pid].(status := status)];
      exits := exits[ids[pid] := status];
      ok := true;
      if WAITING in Flags(parent) {
        table := table[parent := table[parent].(marks := table[parent].marks - {WAITING})];
        ok := Cleanup(pid);
      } else {
        table := table[pid := table[pid].(marks := table[pid].marks + {HANGING})];
      }
    }

    /** One round of the loop over the children. */
    method AdoptSlot(pid: Pid, i: Pid) returns (ok: bool, ghost quiet: bool)
      requires Sized(Now()) && Shape(Now())
      modifies this`table, this`ipc, this`replies
      ensures Adopt(old(Now()), pid, i, quiet) == if ok then Next(Now()) else Stuck(Now())
    {
      hide Shape;
      ok, quiet := true, ipc[INIT] == {} && ipc[i] == {};
      MarksOnly(Now(), INIT);
      MarksOnly(Now(), i);
      if table[i].parent == pid {
        table := table[i := table[i].(parent := INIT)];
        ExactFlags(table[INIT].marks, ipc[INIT], WAITING);
        ExactFlags(table[i].marks, ipc[i], HANGING);
        if Flags(INIT) == {WAITING} && Flags(i) == {HANGING} {
          assert {HANGING} - {HANGING} == {};
          table := table[i := table[i].(marks := table[i].marks - {HANGING})];
          ok := Cleanup(i);
        }
      }
    }

    /** The loop over the children; not ok means that it is stuck in a send. */
    method HandOver(pid: Pid) returns (ok: bool, ghost quiet: seq<bool>)
      requires Orphaned(Now(), pid, 0) && pid > INIT
      modifies this`table, this`ipc, this`replies
      ensures |quiet| == NR_PROCS
      ensures Orphans(old(Now()), pid, 0, quiet) == if ok then Next(Now()) else Stuck(Now())
    {
      hide Shape, Family, Accounts, Adopt;
      ghost var s0 := Now();
      ghost var found: seq<bool> := [];
      var i := 0;
      while i < NR_PROCS
        invariant 0 <= i <= NR_PROCS && |found| == i && Orphaned(Now(), pid, i)
        invariant Handed(s0, pid, found) == Next(Now())
      {
        ghost var s1 := Now();
        ghost var q;
        ok, q := AdoptSlot(pid, i);
        AdoptKeeps(s1, pid, i, q);
        if !ok {
          quiet := found + [q] + seq(NR_PROCS - i - 1, _ => false);
          assert quiet[..i] == found;
          HandedIsOrphans(s0, pid, i, quiet);
          return;
        }
        assert (found + [q])[..i] == found;
        found := found + [q];
        i := i + 1;
      }
      ok, quiet := true, found;
      assert quiet[..NR_PROCS] == found;
      HandedIsOrphans(s0, pid, NR_PROCS, quiet);
    }

    /** do_exit; quiet records the flags that the loop found. */
    method DoExit(pid: Pid, status: int) returns (ok: bool, ghost quiet: seq<bool>)
      requires Inv(Now()) && pid > INIT && table[pid].marks == {}
      modifies this
      ensures |quiet| == NR_PROCS
      ensures ExitStep(old(Now()), pid, status, quiet) == if ok then Next(Now()) else Stuck(Now())
      ensures ok ==> Inv(Now())
    {
      hide Shape, Family, Accounts, Leave, Orphans;
      ghost var s := Now();
      LeaveKeeps(s, pid, status);
      ok := Depart(pid, status);
      ok, quiet := HandOver(pid);
      ExitKeepsInv(s, pid, status, quiet);
    }

    /** do_wait. */
    method DoWait(pid: Pid)
      requires Inv(Now()) && Enabled(Now(), Wait(pid))
      modifies this
      ensures WaitStep(old(Now()), pid) == Next(Now()) && Inv(Now())
    {
      hide Shape, Family, Accounts;
      ghost var s := Now();
      WaitKeepsInv(s, pid);
      var children, i := 0, 0;
      while i < NR_PROCS
        invariant 0 <= i <= NR_PROCS && Now() == s
        invariant forall j :: 0 <= j < i ==> !(table[j].parent == pid && HANGING in table[j].marks)
        invariant children > 0 <==> exists j :: 0 <= j < i && table[j].parent == pid
      {
        if table[i].parent == pid {
          children := children + 1;
          if HANGING in Flags(i) {
            var ok := Cleanup(i);
            assert ok;
            return;
          }
        }
        i := i + 1;
      }
      if children > 0 {
        table := table[pid := table[pid].(marks := table[pid].marks + {WAITING})];
      } else {
        var ok := SendRecv(pid, [NoTask(pid)]);
        assert ok;
      }
    }

    /** One round of task_mm: the request is one step of the lifecycle, and keeps its invariant.  Only
        a fork can halt, and only an exit can get stuck. */
    method Serve(pid: Pid, r: Request) returns (ok: bool, ghost c: Call)
      requires Inv(Now()) && Enabled(Now(), Plain(pid, r))
      modifies this
      ensures c.p == pid && Enabled(old(Now()), c) && (r.EXIT? <==> c.Exit?)
      ensures Step(old(Now()), c, memory) == if ok then Next(Now()) else if r.EXIT? then Stuck(Now()) else Halt
      ensures ok ==> Inv(Now())
    {
      hide Inv, ForkStep, ExitStep, WaitStep;
      ok, c := true, Plain(pid, r);
      match r
      case FORK(size) => ok := DoFork(pid, size);
      case EXIT(status) =>
        ghost var quiet;
        ok, quiet := DoExit(pid, status);
        c := Exit(pid, status, quiet);
      case WAIT => DoWait(pid);
    }
  }

  /** The call that a request makes, if nothing unusual happens in an exit. */
  ghost function Plain(pid: Pid, r: Request): Call {
    match r
    case FORK(size) => Fork(pid, size)
    case EXIT(status) => Exit(pid, status, seq(NR_PROCS, _ => false))
    case WAIT => Wait(pid)
  }

  lemma ExactFlags(marks: set<Flag>, ipc: set<Flag>, f: Flag)
    requires marks <= {WAITING, HANGING, FREE_SLOT} && ipc <= {SENDING, RECEIVING} && (f == WAITING || f == HANGING)
    ensures marks + ipc == {f} <==> marks == {f} && ipc == {}
  {
    if marks + ipc == {f} {
      assert forall x :: x in ipc ==> x in marks + ipc;
      assert f in marks + ipc;
    }
  }

  lemma MarksOnly(s: State, i: Pid)
    requires Shape(s)
    ensures s.slots[i].marks <= {WAITING, HANGING, FREE_SLOT}
    ensures FREE_SLOT in s.slots[i].marks ==> s.slots[i].marks == {FREE_SLOT}
  {
  }
}
