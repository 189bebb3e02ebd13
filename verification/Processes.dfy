/** The memory manager and the file system together: who lives in the process table, and who has
    files open.  A fork copies the open files with the record and then has the file system count
    them; an exit has it close them. */
module Processes {
  import opened ProcTable
  import L = Lifecycle
  import opened FsModel
  import opened FsInvariant
  import opened FsRefs
  import opened FsRun

  datatype World = World(mm: L.State, fs: State)

  datatype Step =
    /** An open, close, unlink, stat or transfer of a live process. */
    | File(r: Request)
    /** do_fork up to its message to the file system. */
    | Copy(p: Pid, size: nat)
    /** The file system's part of the fork; the memory manager is waiting for it. */
    | Count
    | Quit(p: Pid, status: int, quiet: seq<bool>)
    | Await(p: Pid)

  ghost predicate Sized(w: World) {
    L.Sized(w.mm) && Shaped(w.fs.fs)
  }

  predicate FileRequest(r: Request) {
    r.DoOpen? || r.DoClose? || r.DoUnlink? || r.DoStat? || r.DoTransfer?
  }

  /** The file system serves r. */
  ghost predicate Serves(w: World, r: Request, w': World)
    requires Sized(w)
  {
    && Allowed(w.fs, r) && Serve(w.fs.fs, r).Reply?
    && w' == World(w.mm, Advance(w.fs, r))
  }

  /** The memory manager serves c, and the call neither halts the machine nor gets stuck. */
  ghost predicate Manages(w: World, c: L.Call, memory: nat, w': World)
    requires Sized(w)
  {
    && w.fs.pend.Nobody? && L.Enabled(w.mm, c) && L.Step(w.mm, c, memory).Next?
    && w' == World(L.Step(w.mm, c, memory).s, w.fs)
  }

  /** The steps of the machine.  A fork that finds no slot is answered without the file system. */
  ghost predicate Takes(w: World, x: Step, memory: nat, w': World)
    requires Sized(w)
  {
    match x
    case File(r) => FileRequest(r) && w.mm.slots[r.p].marks == {} && Serves(w, r, w')
    case Copy(p, size) =>
      && w.fs.pend.Nobody? && L.Enabled(w.mm, L.Fork(p, size)) && L.ForkStep(w.mm, p, size, memory).Next?
      && w'.mm == L.ForkStep(w.mm, p, size, memory).s
      && var child := L.FirstFree(w.mm.slots);
         if child >= NR_PROCS then w'.fs == w.fs
         else w'.fs == w.fs.(fs := ForkCopy(w.fs.fs, p, child), pend := Forking(p, child, 0))
    case Count => w.fs.pend.Forking? && Serves(w, DoForkCount(w.fs.pend.child), w')
    case Quit(p, status, quiet) =>
      exists mid: World :: Sized(mid) && w.fs.pend.Nobody? && Serves(w, DoExit(p), mid) &&
                           Manages(mid, L.Exit(p, status, quiet), memory, w')
    case Await(p) => Manages(w, L.Wait(p), memory, w')
  }

  predicate Gone(s: L.State, i: Pid)
    requires |s.slots| == NR_PROCS
  {
    L.Free(s, i) || L.Zombie(s, i)
  }

  /** Free slots and zombies have no files. */
  ghost predicate NoFilesWhenGone(w: World)
    requires Sized(w)
  {
    forall i: Pid, fd :: Gone(w.mm, i) && 0 <= fd < NR_FILES ==> w.fs.fs.filp[i][fd] == NULL
  }

  ghost predicate Inv(w: World) {
    Sized(w) && L.Inv(w.mm) && FsRun.Inv(w.fs) && NoFilesWhenGone(w) && (w.fs.pend.Forking? ==> w.fs.pend.counted == 0)
  }

  // ---- what the file system leaves alone -----------------------------------

  /** A request on files touches only the row of the process that asks. */
  lemma FileKeepsRows(fs: Fs, r: Request, q: Pid)
    requires Shaped(fs) && (r.DoClose? ==> r.fd < NR_FILES) && (r.DoTransfer? ==> OpenFile(fs, r.p, r.fd))
    requires FileRequest(r) && Serve(fs, r).Reply? && q != r.p
    ensures Serve(fs, r).fs.filp[q] == fs.filp[q]
  {
    hide CreateFile, Remove, GetInode, Search, FirstNull, FreeDesc;
    match r
    case DoOpen(p, path, creat, rdwr) =>
      if creat {
        CreateKeepsRows(fs, path);
      }
    case DoUnlink(p, path) => UnlinkKeepsRows(fs, path);
    case _ =>
  }

  lemma CreateKeepsRows(fs: Fs, path: seq<bv8>)
    requires Shaped(fs)
    ensures CreateFile(fs, path).Created? ==> CreateFile(fs, path).fs.filp == fs.filp
  {
    hide GetInode, Least, Uniform, Fill, Prefix, NewInode, AddEntry;
  }

  lemma UnlinkKeepsRows(fs: Fs, path: seq<bv8>)
    requires Shaped(fs)
    ensures Unlink(fs, path).Reply? ==> Unlink(fs, path).fs.filp == fs.filp
  {
    hide GetInode, Search, Uniform, Fill, Prefix, LiveEnd, FirstBit;
  }

  lemma NextModel(s: State, r: Request)
    requires Shaped(s.fs) && Allowed(s, r) && Serve(s.fs, r).Reply?
    ensures Advance(s, r).fs == Serve(s.fs, r).fs
    ensures Advance(s, r).pend == if r.DoForkCopy? then Forking(r.parent, r.child, 0)
                                  else if r.DoForkCount? then Nobody else s.pend
  {
    hide Serve, Allowed, Creates, Fetches, Refused;
    assert r.DoForkCopy? || r.DoForkCount? ==> !Creates(s, r) && !Fetches(s, r) by { OnlyOpensCreate(s, r); }
  }

  lemma OnlyOpensCreate(s: State, r: Request)
    requires Shaped(s.fs)
    ensures Creates(s, r) ==> r.DoOpen?
    ensures Fetches(s, r) ==> r.DoUnlink?
  {
  }

  // ---- each step -----------------------------------------------------------

  lemma FileStep(w: World, r: Request, w': World)
    requires Inv(w) && FileRequest(r) && w.mm.slots[r.p].marks == {} && Serves(w, r, w')
    ensures Inv(w')
  {
    hide FsRun.Inv, L.Inv, Advance, Serve, Allowed;
    StepKeepsInv(w.fs, r);
    NextModel(w.fs, r);
    ShapedStays(w'.fs);
    AllowedServes(w.fs, r);
    forall i: Pid | Gone(w.mm, i)
      ensures w'.fs.fs.filp[i] == w.fs.fs.filp[i]
    {
      FileKeepsRows(w.fs.fs, r, i);
    }
  }

  lemma AllowedServes(s: State, r: Request)
    requires Shaped(s.fs) && Allowed(s, r)
    ensures (r.DoClose? ==> r.fd < NR_FILES) && (r.DoTransfer? ==> OpenFile(s.fs, r.p, r.fd))
  {
    hide Search;
  }

  lemma ShapedStays(s: State)
    requires FsRun.Inv(s)
    ensures Shaped(s.fs)
  {
  }

  /** The slot that do_fork takes has no files, as the file system's runs assume of a fork. */
  lemma ForkFindsNoFiles(w: World, p: Pid, size: nat)
    requires Inv(w) && w.fs.pend.Nobody? && L.Enabled(w.mm, L.Fork(p, size)) && L.FirstFree(w.mm.slots) < NR_PROCS
    ensures Allowed(w.fs, DoForkCopy(p, L.FirstFree(w.mm.slots)))
  {
    hide FsRun.Inv, L.Inv;
    assert L.Free(w.mm, L.FirstFree(w.mm.slots));
  }

  lemma CopyStep(w: World, p: Pid, size: nat, memory: nat, w': World)
    requires Inv(w) && Takes(w, Copy(p, size), memory, w')
    ensures Inv(w')
  {
    hide FsRun.Inv, L.Inv, Advance;
    L.ForkKeepsInv(w.mm, p, size, memory);
    LifecycleSized(w'.mm);
    var child := L.FirstFree(w.mm.slots);
    if child < NR_PROCS {
      ForkFindsNoFiles(w, p, size);
      StepKeepsInv(w.fs, DoForkCopy(p, child));
      NextModel(w.fs, DoForkCopy(p, child));
      CopyAdvances(w.fs, p, child);
      ShapedStays(w'.fs);
      NotGone(w.mm, p);
    }
  }

  lemma CopyAdvances(s: State, p: Pid, child: Pid)
    requires Shaped(s.fs) && Allowed(s, DoForkCopy(p, child))
    ensures Advance(s, DoForkCopy(p, child)) == s.(fs := ForkCopy(s.fs, p, child), pend := Forking(p, child, 0))
  {
    OnlyOpensCreate(s, DoForkCopy(p, child));
  }

  lemma NotGone(s: L.State, p: Pid)
    requires |s.slots| == NR_PROCS && s.slots[p].marks == {}
    ensures !Gone(s, p)
  {
  }

  lemma LifecycleSized(s: L.State)
    requires L.Inv(s)
    ensures L.Sized(s)
  {
  }

  lemma CountKeepsRows(s: State)
    requires FsRun.Inv(s) && s.pend.Forking? && s.pend.counted == 0
    ensures Shaped(s.fs) && ForkCount(s.fs, s.pend.child, 0).Reply?
    ensures ForkCount(s.fs, s.pend.child, 0).fs.filp == s.fs.filp
  {
    hide ForkCount, DiskOk, RefsOk;
    assert RefsOk(s.fs, s.leaks, s.pend, NULL) && Shaped(s.fs) by { ShapedStays(s); }
    ForkCountKeepsRefs(s.fs, s.leaks, s.pend.parent, s.pend.child, 0);
  }

  lemma CountStep(w: World, w': World)
    requires Inv(w) && w.fs.pend.Forking? && Serves(w, DoForkCount(w.fs.pend.child), w')
    ensures Inv(w')
  {
    hide FsRun.Inv, L.Inv, Advance, ForkCount;
    var r := DoForkCount(w.fs.pend.child);
    StepKeepsInv(w.fs, r);
    NextModel(w.fs, r);
    ShapedStays(w'.fs);
    CountKeepsRows(w.fs);
  }

  /** The file system closes everything before the process is a zombie or gone. */
  lemma ExitCloses(w: World, p: Pid, mid: World)
    requires Inv(w) && w.fs.pend.Nobody? && Serves(w, DoExit(p), mid)
    ensures Inv(mid) && forall fd :: 0 <= fd < NR_FILES ==> mid.fs.fs.filp[p][fd] == NULL
  {
    hide FsRun.Inv, L.Inv, Advance, Exit;
    StepKeepsInv(w.fs, DoExit(p));
    NextModel(w.fs, DoExit(p));
    ShapedStays(mid.fs);
    ExitEmptiesRow(w.fs, p);
  }

  lemma ExitEmptiesRow(s: State, p: Pid)
    requires FsRun.Inv(s) && s.pend.Nobody?
    ensures Shaped(s.fs)
    ensures Exit(s.fs, p, 0).Reply?
    ensures forall fd :: 0 <= fd < NR_FILES ==> Exit(s.fs, p, 0).fs.filp[p][fd] == NULL
    ensures forall q: Pid :: q != p ==> Exit(s.fs, p, 0).fs.filp[q] == s.fs.filp[q]
  {
    hide Exit;
    ExitKeepsRefs(s.fs, s.leaks, s.pend, p, 0);
  }

  /** Besides the process that exits, nobody becomes a zombie, and only zombies become free. */
  lemma ExitGone(s: L.State, p: Pid, status: int, quiet: seq<bool>, i: Pid)
    requires L.Inv(s) && L.Enabled(s, L.Exit(p, status, quiet)) && L.ExitStep(s, p, status, quiet).Next? && i != p
    ensures Gone(L.ExitStep(s, p, status, quiet).s, i) ==> Gone(s, i)
  {
    hide L.Family, L.Accounts, L.Leave, L.Orphans;
    L.LeaveIsHang(s, p, status);
    L.LeaveOthers(s, p, status, i);
    L.LeaveOthers(s, p, status, INIT);
    L.OrphansEffect(L.Leave(s, p, status).s, p, 0, quiet);
  }

  lemma ExitStep(w: World, p: Pid, status: int, quiet: seq<bool>, memory: nat, mid: World, w': World)
    requires Inv(w) && w.fs.pend.Nobody? && Serves(w, DoExit(p), mid) && Sized(mid)
    requires Manages(mid, L.Exit(p, status, quiet), memory, w')
    ensures Inv(w')
  {
    hide FsRun.Inv, L.Inv, Advance, L.ExitStep, Serve;
    ExitCloses(w, p, mid);
    L.ExitKeepsInv(mid.mm, p, status, quiet);
    LifecycleSized(w'.mm);
    forall i: Pid, fd | Gone(w'.mm, i) && 0 <= fd < NR_FILES
      ensures w'.fs.fs.filp[i][fd] == NULL
    {
      if i != p {
        ExitGone(mid.mm, p, status, quiet, i);
      }
    }
  }

  lemma WaitStep(w: World, p: Pid, memory: nat, w': World)
    requires Inv(w) && Manages(w, L.Wait(p), memory, w')
    ensures Inv(w')
  {
    hide FsRun.Inv, L.Inv, L.WaitStep;
    L.WaitKeepsInv(w.mm, p);
    LifecycleSized(w'.mm);
    forall i: Pid | Gone(w'.mm, i)
      ensures Gone(w.mm, i)
    {
      WaitGone(w.mm, p, i);
    }
  }

  lemma WaitGone(s: L.State, p: Pid, i: Pid)
    requires L.Inv(s) && L.Enabled(s, L.Wait(p)) && L.WaitStep(s, p).Next?
    ensures Gone(L.WaitStep(s, p).s, i) ==> Gone(s, i)
  {
    hide L.Family, L.Accounts;
  }

  lemma StepKeepsAll(w: World, x: Step, memory: nat, w': World)
    requires Inv(w) && Takes(w, x, memory, w')
    ensures Inv(w')
  {
    hide Inv, Serves, Manages;
    assert Sized(w) by { WorldSized(w); }
    match x
    case File(r) => FileStep(w, r, w');
    case Copy(p, size) => CopyStep(w, p, size, memory, w');
    case Count => CountStep(w, w');
    case Quit(p, status, quiet) =>
      var mid: World :| Sized(mid) && w.fs.pend.Nobody? && Serves(w, DoExit(p), mid) &&
                        Manages(mid, L.Exit(p, status, quiet), memory, w');
      ExitStep(w, p, status, quiet, memory, mid, w');
    case Await(p) => WaitStep(w, p, memory, w');
  }

  lemma WorldSized(w: World)
    requires Inv(w)
    ensures Sized(w)
  {
  }

  // ---- runs ----------------------------------------------------------------

  ghost predicate Follows(w: World, memory: nat, w': World) {
    Sized(w) && exists x :: Takes(w, x, memory, w')
  }

  /** Worlds that follow each other by steps. */
  ghost predicate Run(worlds: seq<World>, memory: nat) {
    forall i :: 0 <= i < |worlds| - 1 ==> Follows(worlds[i], memory, worlds[i + 1])
  }

  /** From boot and mkfs on, both invariants hold, and neither free slots nor zombies have files. */
  lemma {:induction false} RunFromStart(worlds: seq<World>, memory: nat, i: nat)
    requires Run(worlds, memory) && i < |worlds| && worlds[0].mm == L.Boot() && Initial(worlds[0].fs)
    ensures Inv(worlds[i])
  {
    hide Inv, Initial, Takes, L.Boot;
    if i == 0 {
      StartInv(worlds[0]);
    } else {
      RunFromStart(worlds, memory, i - 1);
      assert Follows(worlds[i - 1], memory, worlds[i - 1 + 1]);
      var x :| Takes(worlds[i - 1], x, memory, worlds[i]);
      StepKeepsAll(worlds[i - 1], x, memory, worlds[i]);
    }
  }

  /** In every such run the file system's part of a fork is one of its allowed requests. */
  lemma ForksAreAllowed(worlds: seq<World>, memory: nat, i: nat, p: Pid, size: nat)
    requires Run(worlds, memory) && i < |worlds| && worlds[0].mm == L.Boot() && Initial(worlds[0].fs)
    requires Sized(worlds[i]) && worlds[i].fs.pend.Nobody? && L.Enabled(worlds[i].mm, L.Fork(p, size))
    requires L.FirstFree(worlds[i].mm.slots) < NR_PROCS
    ensures Allowed(worlds[i].fs, DoForkCopy(p, L.FirstFree(worlds[i].mm.slots)))
  {
    hide Inv, Initial, Takes, Allowed, L.Boot;
    RunFromStart(worlds, memory, i);
    ForkFindsNoFiles(worlds[i], p, size);
  }

  lemma StartInv(w: World)
    requires w.mm == L.Boot() && Initial(w.fs)
    ensures Inv(w)
  {
    hide DiskOk, RefsOk, L.Inv;
    L.BootInv();
    LifecycleSized(w.mm);
    InitialDisk(w.fs);
    InitialRefs(w.fs);
    InitialShaped(w.fs);
  }
}
