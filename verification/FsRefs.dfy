/** The reference counts of the file system: fd_cnt counts the filp entries that point at a
    descriptor, and i_cnt counts the ways to an inode.  Both are conserved by every request,
    across the two phases of a fork. */
module FsRefs {
  import opened ProcTable
  import opened FsModel

  function One(p: int, q: int): nat {
    if p == q then 1 else 0
  }

  /** How often d occurs in a row of filp. */
  ghost function RowCount(row: seq<int>, d: int): nat {
    if row == [] then 0 else RowCount(row[..|row| - 1], d) + One(row[|row| - 1], d)
  }

  /** How often d occurs in the first k rows, leaving out row skip. */
  ghost function TableCount(filp: seq<seq<int>>, k: nat, skip: int, d: int): nat
    requires k <= |filp|
  {
    if k == 0 then 0
    else TableCount(filp, k - 1, skip, d) + (if k - 1 == skip then 0 else RowCount(filp[k - 1], d))
  }

  /** The references that the first k descriptors hold on inode slot i. */
  ghost function Reach(desc: seq<FileDesc>, k: nat, i: int): int
    requires k <= |desc|
  {
    if k == 0 then 0 else Reach(desc, k - 1, i) + (if desc[k - 1].inode == i then desc[k - 1].cnt else 0)
  }

  /** A fork in progress: the child's row is a copy of the parent's, and the file system has
      counted the first `counted` entries of it. */
  datatype Pending = Nobody | Forking(parent: Pid, child: Pid, counted: nat)

  ghost predicate PendingOk(fs: Fs, pend: Pending)
    requires Shaped(fs)
  {
    pend.Forking? ==>
      && pend.parent != pend.child && pend.counted <= NR_FILES
      && fs.filp[pend.child] == fs.filp[pend.parent]
  }

  /** The registered references to descriptor d. */
  ghost function Refs(fs: Fs, pend: Pending, d: int): nat
    requires Shaped(fs) && PendingOk(fs, pend)
  {
    if pend.Nobody? then TableCount(fs.filp, NR_PROCS, -1, d)
    else TableCount(fs.filp, NR_PROCS, pend.child, d) + RowCount(fs.filp[pend.child][..pend.counted], d)
  }

  ghost predicate FilpOk(filp: seq<seq<int>>) {
    forall p, fd :: 0 <= p < |filp| && 0 <= fd < |filp[p]| ==> NULL <= filp[p][fd] < NR_FILE_DESC
  }

  ghost predicate DescOk(fs: Fs, pend: Pending)
    requires Shaped(fs) && PendingOk(fs, pend)
  {
    forall d :: 0 <= d < NR_FILE_DESC ==>
      && fs.desc[d].cnt == Refs(fs, pend, d)
      && NULL <= fs.desc[d].inode < NR_INODE
      && (fs.desc[d].inode == NULL <==> fs.desc[d].cnt == 0)
  }

  /** leaks[i] counts the refused unlinks that kept a reference to slot i; extra is a slot with
      one more reference that the current request holds, or NULL. */
  ghost predicate InodesOk(fs: Fs, leaks: seq<nat>, extra: int)
    requires Shaped(fs)
  {
    && |leaks| == NR_INODE
    && forall i :: 0 <= i < NR_INODE ==>
         fs.cache[i].cnt == Reach(fs.desc, NR_FILE_DESC, i) + One(i, ROOT_SLOT) + leaks[i] + One(i, extra)
  }

  ghost predicate RefsOk(fs: Fs, leaks: seq<nat>, pend: Pending, extra: int) {
    && Shaped(fs) && PendingOk(fs, pend)
    && FilpOk(fs.filp) && DescOk(fs, pend) && InodesOk(fs, leaks, extra)
  }

  // ---- arithmetic of the counts --------------------------------------------

  lemma {:induction false} RowUpdate(row: seq<int>, fd: nat, x: int, d: int)
    requires fd < |row|
    ensures RowCount(row[fd := x], d) == RowCount(row, d) - One(row[fd], d) + One(x, d)
  {
    var last := |row| - 1;
    if fd == last {
      assert row[fd := x][..last] == row[..last];
    } else {
      assert row[fd := x][..last] == row[..last][fd := x];
      RowUpdate(row[..last], fd, x, d);
    }
  }

  lemma {:induction false} RowHas(row: seq<int>, fd: nat)
    requires fd < |row|
    ensures RowCount(row, row[fd]) >= 1
  {
    if fd == |row| - 1 {
    } else {
      RowHas(row[..|row| - 1], fd);
    }
  }

  lemma {:induction false} TableUpdate(filp: seq<seq<int>>, k: nat, skip: int, p: nat, row: seq<int>, d: int)
    requires k <= |filp| && p < |filp|
    ensures TableCount(filp[p := row], k, skip, d) ==
            TableCount(filp, k, skip, d) +
            (if p < k && p != skip then RowCount(row, d) - RowCount(filp[p], d) else 0)
  {
    if k == 0 {
    } else {
      TableUpdate(filp, k - 1, skip, p, row, d);
    }
  }

  /** Skipping a row leaves out just that row. */
  lemma {:induction false} TableSkip(filp: seq<seq<int>>, k: nat, skip: int, d: int)
    requires k <= |filp|
    ensures TableCount(filp, k, -1, d) ==
            TableCount(filp, k, skip, d) + (if 0 <= skip < k then RowCount(filp[skip], d) else 0)
  {
    if k == 0 {
    } else {
      TableSkip(filp, k - 1, skip, d);
    }
  }

  lemma {:induction false} TableHas(filp: seq<seq<int>>, k: nat, skip: int, p: nat, fd: nat)
    requires p < k <= |filp| && p != skip && fd < |filp[p]|
    ensures TableCount(filp, k, skip, filp[p][fd]) >= 1
  {
    if p == k - 1 {
      RowHas(filp[p], fd);
    } else {
      TableHas(filp, k - 1, skip, p, fd);
    }
  }

  lemma {:induction false} ReachUpdate(desc: seq<FileDesc>, k: nat, d: nat, f: FileDesc, i: int)
    requires k <= |desc| && d < |desc|
    ensures Reach(desc[d := f], k, i) ==
            Reach(desc, k, i) +
            (if d < k then (if f.inode == i then f.cnt else 0) - (if desc[d].inode == i then desc[d].cnt else 0) else 0)
  {
    if k == 0 {
    } else {
      ReachUpdate(desc, k - 1, d, f, i);
    }
  }

  lemma {:induction false} ReachHas(desc: seq<FileDesc>, k: nat, d: nat)
    requires d < k <= |desc| && forall e :: 0 <= e < k ==> desc[e].cnt >= 0
    ensures Reach(desc, k, desc[d].inode) >= desc[d].cnt
  {
    if d < k - 1 {
      ReachHas(desc, k - 1, d);
    } else {
      ReachNonnegative(desc, k - 1, desc[d].inode);
    }
  }

  lemma {:induction false} ReachNonnegative(desc: seq<FileDesc>, k: nat, i: int)
    requires k <= |desc| && forall e :: 0 <= e < k ==> desc[e].cnt >= 0
    ensures Reach(desc, k, i) >= 0
  {
    if k == 0 {
    } else {
      ReachNonnegative(desc, k - 1, i);
    }
  }

  // ---- references that are there -------------------------------------------

  /** A process whose row is registered. */
  ghost predicate Registered(pend: Pending, p: Pid) {
    pend.Nobody? || pend.child != p
  }

  /** A registered filp entry leads to a descriptor in use and on to an inode in use: the null
      inode that do_close and fs_exit could meet is never there. */
  lemma EntryIsLive(fs: Fs, leaks: seq<nat>, pend: Pending, p: Pid, fd: nat)
    requires RefsOk(fs, leaks, pend, NULL) && Registered(pend, p) && fd < NR_FILES && fs.filp[p][fd] != NULL
    ensures var d := fs.filp[p][fd];
            && 0 <= d < NR_FILE_DESC && fs.desc[d].cnt >= 1 && 0 <= fs.desc[d].inode < NR_INODE
            && fs.cache[fs.desc[d].inode].cnt >= 1
  {
    var d := fs.filp[p][fd];
    TableHas(fs.filp, NR_PROCS, if pend.Nobody? then -1 else pend.child, p, fd);
    assert fs.desc[d].cnt == Refs(fs, pend, d);
    ReachHas(fs.desc, NR_FILE_DESC, d);
  }

  // ---- the requests --------------------------------------------------------

  /** p takes no part in a pending fork: its parent and its child wait for the memory manager. */
  ghost predicate Acts(pend: Pending, p: Pid) {
    pend.Forking? ==> p != pend.parent && p != pend.child
  }

  lemma SetEntry(fs: Fs, fs': Fs, pend: Pending, p: Pid, fd: nat, x: int, d: int)
    requires Shaped(fs) && Shaped(fs') && PendingOk(fs, pend) && Acts(pend, p) && fd < NR_FILES
    requires fs'.filp == fs.filp[p := fs.filp[p][fd := x]]
    ensures PendingOk(fs', pend)
    ensures Refs(fs', pend, d) == Refs(fs, pend, d) - One(fs.filp[p][fd], d) + One(x, d)
  {
    RowUpdate(fs.filp[p], fd, x, d);
    TableUpdate(fs.filp, NR_PROCS, if pend.Nobody? then -1 else pend.child, p, fs.filp[p][fd := x], d);
  }

  /** A change of inode counts that moves the extra reference. */
  lemma CountsMove(fs: Fs, fs': Fs, leaks: seq<nat>, pend: Pending, extra: int, extra': int)
    requires RefsOk(fs, leaks, pend, extra) && Shaped(fs')
    requires fs'.desc == fs.desc && fs'.filp == fs.filp
    requires forall i :: 0 <= i < NR_INODE ==>
               fs'.cache[i].cnt == fs.cache[i].cnt - One(i, extra) + One(i, extra')
    ensures RefsOk(fs', leaks, pend, extra')
  {
    assert DescOk(fs', pend) by {
      forall d | 0 <= d < NR_FILE_DESC
        ensures Refs(fs', pend, d) == Refs(fs, pend, d)
      {
      }
    }
  }

  /** A refused unlink turns the extra reference into a leak. */
  lemma Leak(fs: Fs, leaks: seq<nat>, pend: Pending, slot: nat)
    requires slot < NR_INODE && RefsOk(fs, leaks, pend, slot)
    ensures RefsOk(fs, leaks[slot := leaks[slot] + 1], pend, NULL)
  {
  }

  lemma LinkKeepsRefs(fs: Fs, leaks: seq<nat>, pend: Pending, p: Pid, fd: nat, d: nat, slot: nat, rdwr: bool)
    requires RefsOk(fs, leaks, pend, slot) && Acts(pend, p) && slot < NR_INODE
    requires fd < NR_FILES && fs.filp[p][fd] == NULL && d < NR_FILE_DESC && fs.desc[d].inode == NULL
    requires Connect(fs, p, fd, d, slot, rdwr).Reply?
    ensures RefsOk(Connect(fs, p, fd, d, slot, rdwr).fs, leaks, pend, NULL)
  {
    var fs' := Connect(fs, p, fd, d, slot, rdwr).fs;
    var f := FileDesc(rdwr, 0, 1, slot);
    assert fs.desc[d].cnt == 0;
    SetEntry(fs, fs', pend, p, fd, d, d);
    LinkDescs(fs, fs', pend, p, fd, d, f);
    forall i | 0 <= i < NR_INODE
      ensures Reach(fs'.desc, NR_FILE_DESC, i) == Reach(fs.desc, NR_FILE_DESC, i) + One(i, slot)
    {
      ReachUpdate(fs.desc, NR_FILE_DESC, d, f, i);
    }
  }

  lemma LinkDescs(fs: Fs, fs': Fs, pend: Pending, p: Pid, fd: nat, d: nat, f: FileDesc)
    requires Shaped(fs) && Shaped(fs') && PendingOk(fs, pend) && Acts(pend, p) && DescOk(fs, pend)
    requires fd < NR_FILES && fs.filp[p][fd] == NULL && d < NR_FILE_DESC && fs.desc[d].cnt == 0
    requires fs'.filp == fs.filp[p := fs.filp[p][fd := d]] && fs'.desc == fs.desc[d := f]
    requires f.cnt == 1 && 0 <= f.inode < NR_INODE
    ensures PendingOk(fs', pend) && DescOk(fs', pend)
  {
    SetEntry(fs, fs', pend, p, fd, d, d);
    forall e | 0 <= e < NR_FILE_DESC
      ensures fs'.desc[e].cnt == Refs(fs', pend, e)
      ensures NULL <= fs'.desc[e].inode < NR_INODE && (fs'.desc[e].inode == NULL <==> fs'.desc[e].cnt == 0)
    {
      SetEntry(fs, fs', pend, p, fd, d, e);
      assert fs.desc[e].cnt == Refs(fs, pend, e);
    }
  }

  /** Closing one entry: the state that do_close and each step of fs_exit leave. */
  ghost function Closed(fs: Fs, p: Pid, fd: nat): Fs
    requires Shaped(fs) && fd < NR_FILES
    requires 0 <= fs.filp[p][fd] < NR_FILE_DESC && 0 <= fs.desc[fs.filp[p][fd]].inode < NR_INODE
  {
    Drop(fs, fs.filp[p][fd]).(filp := fs.filp[p := fs.filp[p][fd := NULL]])
  }

  lemma CloseKeepsRefs(fs: Fs, leaks: seq<nat>, pend: Pending, p: Pid, fd: nat)
    requires RefsOk(fs, leaks, pend, NULL) && Acts(pend, p) && fd < NR_FILES && fs.filp[p][fd] != NULL
    ensures var d := fs.filp[p][fd];
            && 0 <= d < NR_FILE_DESC && 0 <= fs.desc[d].inode < NR_INODE && fs.cache[fs.desc[d].inode].cnt >= 1
            && RefsOk(Closed(fs, p, fd), leaks, pend, NULL)
  {
    EntryIsLive(fs, leaks, pend, p, fd);
    var d := fs.filp[p][fd];
    var fs' := Closed(fs, p, fd);
    SetEntry(fs, fs', pend, p, fd, NULL, d);
    CloseDescs(fs, fs', pend, p, fd);
    forall i | 0 <= i < NR_INODE
      ensures Reach(fs'.desc, NR_FILE_DESC, i) == Reach(fs.desc, NR_FILE_DESC, i) - One(i, fs.desc[d].inode)
    {
      ReachUpdate(fs.desc, NR_FILE_DESC, d, fs'.desc[d], i);
    }
  }

  lemma CloseDescs(fs: Fs, fs': Fs, pend: Pending, p: Pid, fd: nat)
    requires Shaped(fs) && PendingOk(fs, pend) && Acts(pend, p) && DescOk(fs, pend) && fd < NR_FILES
    requires 0 <= fs.filp[p][fd] < NR_FILE_DESC && 0 <= fs.desc[fs.filp[p][fd]].inode < NR_INODE
    requires fs' == Closed(fs, p, fd)
    ensures PendingOk(fs', pend) && DescOk(fs', pend)
  {
    SetEntry(fs, fs', pend, p, fd, NULL, 0);
    forall e | 0 <= e < NR_FILE_DESC
      ensures fs'.desc[e].cnt == Refs(fs', pend, e)
      ensures NULL <= fs'.desc[e].inode < NR_INODE && (fs'.desc[e].inode == NULL <==> fs'.desc[e].cnt == 0)
    {
      SetEntry(fs, fs', pend, p, fd, NULL, e);
      assert fs.desc[e].cnt == Refs(fs, pend, e);
    }
  }

  /** fs_exit never meets a null pointer, and leaves the process without files. */
  lemma {:induction false} ExitKeepsRefs(fs: Fs, leaks: seq<nat>, pend: Pending, p: Pid, fd: nat)
    requires RefsOk(fs, leaks, pend, NULL) && Acts(pend, p) && fd <= NR_FILES
    requires forall j :: 0 <= j < fd ==> fs.filp[p][j] == NULL
    ensures Exit(fs, p, fd).Reply?
    ensures RefsOk(Exit(fs, p, fd).fs, leaks, pend, NULL)
    ensures forall j :: 0 <= j < NR_FILES ==> Exit(fs, p, fd).fs.filp[p][j] == NULL
    ensures forall q: Pid :: q != p ==> Exit(fs, p, fd).fs.filp[q] == fs.filp[q]
    decreases NR_FILES - fd
  {
    if fd == NR_FILES {
    } else {
      if fs.filp[p][fd] == NULL {
        ExitKeepsRefs(fs, leaks, pend, p, fd + 1);
      } else {
        CloseKeepsRefs(fs, leaks, pend, p, fd);
        ExitKeepsRefs(Closed(fs, p, fd), leaks, pend, p, fd + 1);
      }
    }
  }

  // ---- fork ----------------------------------------------------------------

  lemma {:induction false} EmptyRow(row: seq<int>, d: int)
    requires d != NULL && forall j :: 0 <= j < |row| ==> row[j] == NULL
    ensures RowCount(row, d) == 0
  {
    if row == [] {
    } else {
      EmptyRow(row[..|row| - 1], d);
    }
  }

  /** The memory manager's copy of a process record into a slot without files changes no
      registered count. */
  lemma ForkCopyKeepsRefs(fs: Fs, leaks: seq<nat>, parent: Pid, child: Pid)
    requires RefsOk(fs, leaks, Nobody, NULL) && parent != child
    requires forall j :: 0 <= j < NR_FILES ==> fs.filp[child][j] == NULL
    ensures RefsOk(ForkCopy(fs, parent, child), leaks, Forking(parent, child, 0), NULL)
  {
    var fs', pend := ForkCopy(fs, parent, child), Forking(parent, child, 0);
    forall d | 0 <= d < NR_FILE_DESC
      ensures Refs(fs', pend, d) == Refs(fs, Nobody, d)
    {
      TableSkip(fs.filp, NR_PROCS, child, d);
      EmptyRow(fs.filp[child], d);
      TableUpdate(fs.filp, NR_PROCS, child, child, fs.filp[parent], d);
      assert fs'.filp[child][..0] == [];
    }
  }

  lemma CountOne(row: seq<int>, k: nat, d: int)
    requires k < |row|
    ensures RowCount(row[..k + 1], d) == RowCount(row[..k], d) + One(row[k], d)
  {
    assert row[..k + 1][..k] == row[..k];
  }

  /** One step of fs_fork's loop. */
  lemma ShareKeepsRefs(fs: Fs, leaks: seq<nat>, parent: Pid, child: Pid, k: nat)
    requires RefsOk(fs, leaks, Forking(parent, child, k), NULL) && k < NR_FILES
    ensures var d := fs.filp[child][k];
            if d == NULL then RefsOk(fs, leaks, Forking(parent, child, k + 1), NULL)
            else 0 <= d < NR_FILE_DESC && 0 <= fs.desc[d].inode < NR_INODE &&
                 RefsOk(Share(fs, d), leaks, Forking(parent, child, k + 1), NULL)
  {
    var d, pend, pend' := fs.filp[child][k], Forking(parent, child, k), Forking(parent, child, k + 1);
    forall e | 0 <= e < NR_FILE_DESC
      ensures Refs(fs, pend', e) == Refs(fs, pend, e) + One(d, e)
    {
      CountOne(fs.filp[child], k, e);
    }
    if d != NULL {
      EntryIsLive(fs, leaks, pend, parent, k);
      var fs' := Share(fs, d);
      forall i | 0 <= i < NR_INODE
        ensures Reach(fs'.desc, NR_FILE_DESC, i) == Reach(fs.desc, NR_FILE_DESC, i) + One(i, fs.desc[d].inode)
      {
        ReachUpdate(fs.desc, NR_FILE_DESC, d, fs'.desc[d], i);
      }
      forall e | 0 <= e < NR_FILE_DESC
        ensures fs'.desc[e].cnt == Refs(fs', pend', e)
      {
        assert fs.desc[e].cnt == Refs(fs, pend, e);
      }
    }
  }

  /** fs_fork never meets a null pointer, and registers the whole row of the child. */
  lemma {:induction false} ForkCountKeepsRefs(fs: Fs, leaks: seq<nat>, parent: Pid, child: Pid, k: nat)
    requires RefsOk(fs, leaks, Forking(parent, child, k), NULL) && k <= NR_FILES
    ensures ForkCount(fs, child, k).Reply?
    ensures RefsOk(ForkCount(fs, child, k).fs, leaks, Nobody, NULL)
    ensures ForkCount(fs, child, k).fs.filp == fs.filp
    decreases NR_FILES - k
  {
    if k < NR_FILES {
      ShareKeepsRefs(fs, leaks, parent, child, k);
      var d := fs.filp[child][k];
      ForkCountKeepsRefs(if d == NULL then fs else Share(fs, d), leaks, parent, child, k + 1);
    } else {
      forall d | 0 <= d < NR_FILE_DESC
        ensures Refs(fs, Nobody, d) == Refs(fs, Forking(parent, child, k), d)
      {
        TableSkip(fs.filp, NR_PROCS, child, d);
        assert fs.filp[child][..k] == fs.filp[child];
      }
    }
  }
}
