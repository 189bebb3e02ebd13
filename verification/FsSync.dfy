/** The size of the root directory: in memory it is always right, and on disk it is right except
    between an unlink that trims the directory and the next file that is created. */
module FsSync {
  import opened Records
  import opened Directory
  import opened FsModel
  import opened FsInvariant
  import opened FsRefs
  import opened FsRun
  import opened FsNames

  ghost predicate RootSynced(fs: Fs)
    requires Shaped(fs)
  {
    fs.cache[ROOT_SLOT].disk == fs.view.recs[0]
  }

  /** The request removes a file whose entry is the last one of the directory. */
  ghost predicate RemovesLast(s: State, r: Request)
    requires Shaped(s.fs)
  {
    && Fetches(s, r) && !Refused(s, r)
    && FirstWith(Prefix(s.fs.view.slots, Entries(s.fs)), Search(s.fs, r.path)) == Entries(s.fs) - 1
  }

  /** Which requests leave the record of the root directory equal to the cached inode. */
  lemma RootSyncExactly(s: State, r: Request)
    requires Inv(s) && Allowed(s, r) && !HaltsWhen(s, r)
    ensures Serve(s.fs, r).Reply?
    ensures RootSynced(Serve(s.fs, r).fs) <==> Creates(s, r) || (RootSynced(s.fs) && !RemovesLast(s, r))
  {
    hide DiskOk, RefsOk, Search, CreateFile, FirstWith, Serve, HaltsWhen, Refused, Remove, GetInode;
    StepKeepsInv(s, r);
    if Creates(s, r) {
      CreateSyncs(s, r);
    } else if Fetches(s, r) && !Refused(s, r) {
      UnlinkSyncs(s, r);
    } else {
      OthersKeepDirectory(s, r);
    }
  }

  lemma CreateSyncs(s: State, r: Request)
    requires Inv(s) && Allowed(s, r) && Creates(s, r) && Serve(s.fs, r).Reply?
    ensures RootSynced(Serve(s.fs, r).fs)
  {
    hide DiskOk, RefsOk, Search, CreateFile, FirstWith, Fill, AddEntry, Least, Uniform, RunStart, NewInode, FreeRun;
    ConnectKeepsView(s, r);
    FreeInodeFacts(s.fs, s.owner);
    FreeRunFacts(s.fs, s.owner);
    CreatedHasRun(s, r);
    var slot, root := CreateShape(s.fs, s.owner, r.path);
  }

  lemma CreatedHasRun(s: State, r: Request)
    requires Inv(s) && Allowed(s, r) && Creates(s, r) && Serve(s.fs, r).Reply?
    ensures FreeRun(s.owner) < GRID
  {
    hide DiskOk, RefsOk, Search, CreateFile, FreeRun, Connect;
    StepKeepsInv(s, r);
    OwnerSize(s);
  }

  /** Removing a file does not write the root's record, and shortens the directory in memory iff
      its entry was the last one. */
  lemma RemoveSyncs(fs: Fs, owner: Owner, nr: U32, slot: nat)
    requires DiskOk(fs, owner) && slot < NR_INODE && nr != CMD_TAR_INODE
    requires fs.cache[slot].num == nr && fs.cache[slot].cnt == 1 && fs.cache[slot].disk.mode == I_REGULAR
    ensures nr >= 1 && Remove(fs, nr, slot).Reply?
    ensures var fs' := Remove(fs, nr, slot).fs;
            RootSynced(fs') <==>
            RootSynced(fs) && FirstWith(Prefix(fs.view.slots, Entries(fs)), nr) != Entries(fs) - 1
  {
    hide FirstWith, LiveEnd, Fill, DirOk, RecordsOk, MapsOk, Uniform, Prefix;
    RemoveKeepsDisk(fs, owner, nr, slot);
    InodeOnGrid(fs, owner, nr, slot);
    EntryOf(fs.view.slots, Entries(fs), owner, nr);
    RootNotBehind(fs, owner);
  }

  lemma RootNotBehind(fs: Fs, owner: Owner)
    requires DiskOk(fs, owner)
    ensures RootSize(fs) <= fs.view.recs[0].size && fs.cache[ROOT_SLOT].disk == fs.view.recs[0].(size := RootSize(fs))
    ensures RootSize(fs) == Entries(fs) * DIR_ENTRY_SIZE
  {
    assert AgreesWith(fs.cache[ROOT_SLOT], fs.view.recs[0]);
  }

  lemma UnlinkSyncs(s: State, r: Request)
    requires Inv(s) && Allowed(s, r) && Fetches(s, r) && !Refused(s, r) && Serve(s.fs, r).Reply?
    ensures RootSynced(Serve(s.fs, r).fs) <==> RootSynced(s.fs) && !RemovesLast(s, r)
  {
    hide DiskOk, RefsOk, Search, GetInode, Remove, FirstWith;
    var nr := Search(s.fs, r.path);
    SearchFinds(s.fs, s.owner, r.path);
    FetchOk(s.fs, s.owner, nr);
    var f := GetInode(s.fs.cache, s.fs.view.recs, nr);
    var fs1 := s.fs.(cache := f.cache);
    UnlinkLeaksExactly(s, r);
    RemoveSyncs(fs1, s.owner, nr, f.slot);
  }
}
