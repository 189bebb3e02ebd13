# A verified model of a small microkernel

The system is a teaching operating system: a kernel that passes messages by rendezvous, and three
servers on top of it, for files, for memory and processes, and for terminals.  This project models
its core and proves what the parts keep over whole runs.

| files | what they model |
|---|---|
| ProcTable, Rendezvous, Kernel, Scheduler | IPC: an abstract network of processes with one queue each, the linked lists of the process table that implement it, and the scheduler |
| Calls | what a system call comes to: one message for each receive, and what becomes of interrupts |
| Answers | the memory manager as a sender: when its answer arrives, and when it blocks it for ever |
| Bits, SectorMap, Records, Directory, FileIO | the disk as sectors: bitmaps, inode records, directory entries, and the byte transfer |
| FsModel, FsInvariant, FsRefs, FsRun, FsNames, FsSync | the file system without bytes: its requests, the consistency of disk and cache, the reference counts, whole runs, the directory as a map, and the record of the root directory |
| FsEffects | what callers see of each request: its return value, where all open entries lead, and all inodes |
| FsLongName | a run from mkfs to an inconsistent disk |
| FsLayout, Mkfs, FileSystem | the code of the file system on sectors, proved to be the one without bytes |
| FsFiles | the files as byte strings over whole runs |
| Lifecycle, LifeEffects, MemoryManager | fork, exit and wait as a state machine, what their callers are told, and the code that implements it |
| Processes | the file system and the lifecycle as one machine |
| Tty, TtyProtocol, TtyAnswers | the key ring, the line discipline, the messages between callers, file system and terminal task, and how much a caller is answered with |
| ExecArgs | the argument block of exec |

A panic or a failed assert stops the machine: operations report it (`ok` is false, `Halt`), and no
claim is made about what follows.  An exit can also leave the memory manager in a send that never
returns (`Stuck`); runs of the lifecycle end there too.  Where code changes things in place, a class
or a method on an array has the code, and its contract equates the new state with a function of the
old one; the lemmas are about those functions.  Ghost fields (the abstract network, who occupies which
run of sectors, leaked references, the history of births and replies) exist for the proofs only.

## Assumptions of the main results

- File system runs start at mkfs on a disk of more than 0x8800 sectors whose data area starts below
  sector 2048.  Callers pass C strings, unlink with paths of fewer than 128 bytes, create files with
  names that fit, keep cmd.tar, and transfer within a regular file's sectors.
- IPC runs send to and fork processes of the table, and fork when nobody waits in the queues of the
  parent and of the free slot.
- INIT and the tasks do not exit, and only user processes that are not waiting for an answer call
  the memory manager.
- For the results about answers, terminal reads ask for at least one character, and a terminal has
  one pending read.

## Where the code departs from its comments or intent

- `fs/opera.c:269-271`, `include/fs.h:72-75`: a name of 12 characters overwrites a byte of the next
  entry (`FsInvariant.CreateConsistentExactly`), which a short run from mkfs reaches
  (`FsLongName.LongNameAfterUnlink`).
- `fs/opera.c:509-520`: an aligned run would be cleared wrongly (`SectorMap.ClearsExactlyWhen`); it
  does not occur (`FsInvariant.GridIsUnaligned`).
- `fs/opera.c:251-272`: an entry appended behind a full last sector is lost
  (`Directory.FullSectorLosesEntry`); the directory never gets that long (`FsInvariant.NewSlot`).
- `fs/opera.c:464-474`: a refused unlink keeps a reference (`FsRun.UnlinkLeaksExactly`), so the file can
  not be unlinked any more while the system runs (`FsEffects.RefusedForEver`).
- `fs/opera.c:438-443`: an unlink copies its path without the test on the length that open and stat
  have, so a path of 128 bytes or more overruns the buffer.
- `fs/opera.c:602-604`: an unlink of the last entry leaves the root's size on disk too large until the
  next create (`FsSync.RootSyncExactly`).
- `fs/opera.c:374-386`: a transfer past the limit is not clipped (`FileIO.MovesClippedExactly`), and a
  read past the end makes the file longer (`FileIO.ReadGrowsExactly`), also the root directory, which
  that breaks (`FsEffects.DirectoryReadExactly`, `FsFiles.DirectoryReadBreaks`).
- `fs/opera.c:160-187`: a full inode map gives 0 instead of a panic (`SectorMap.AllocImapBit`).
- `mm/fork2exit.c:138-141`: an orphaned zombie is cleaned up only if the flags match exactly, and then
  the send to INIT, which still has its mark, blocks the memory manager for ever
  (`Answers.ExactMatchBlocks`, `Lifecycle.ExitSticksExactly`); otherwise it stays a zombie beside a
  waiting INIT (`Lifecycle.InitWaitsBesideZombie`, `Lifecycle.OrphanRuns`).
- `mm/fork2exit.c:37-42`: the copied record includes the queue of senders, and overwrites that of the
  slot (`Rendezvous.ForkKeepsInvExactly`, `Answers.SendThenFork`).
- `mm/fork2exit.c:173-193`: freed slots count as children (`Lifecycle.NoTaskExactly`,
  `Lifecycle.SecondWaitSleeps`).
- `kernel/tty.c:135-136`: the last character of a line that fills the reader's buffer is shown twice
  (`Tty.ReadShows`).
- `kernel/tty.c:278-290`: a read of nothing is never answered, and a second read forgets the first
  (`TtyProtocol.HearStrandsExactly`, `TtyProtocol.ReadOfNothing`, `TtyProtocol.TwoReads`); keys typed
  without a pending read are dropped (`Tty.DropsWithoutReader`).

## Model

| member | source | states |
|---|---|---|
| Rendezvous.NobodyWaitsForItself | kernel/proc.c:158-182 | when the "is SENDING to" edges go down in some rank, no process is reachable from the one it is sending to |
| Rendezvous.NewEdgeKeepsAcyclic | kernel/proc.c:199-201 | the edge from sender to destination keeps the graph acyclic when the destination does not reach the sender, which is what the panic tests |
| Rendezvous.SendKeepsInv | kernel/proc.c:184-258 | a send that does not halt keeps the whole IPC invariant: queues list exactly the senders, nobody is blocked on a sender or an interrupt that is already there, messages are signed, no cycles |
| Rendezvous.ReceiveKeepsInv | kernel/proc.c:265-412 | so does every receive, from ANY, from INTERRUPT, or from one process |
| Rendezvous.InterruptKeepsInv | kernel/proc.c:415-451 | so does every interrupt that does not halt |
| Kernel.WithoutIsSplice | kernel/proc.c:358-368 | taking one sender out of a queue keeps the others in their order |
| Rendezvous.ForkKeepsInvExactly | mm/fork2exit.c:37-42 | for a parent on the way to its receive from the memory manager or blocked in it, and a free child slot: copying the record keeps the invariant iff nobody waits in the queue of the parent or of the slot |
| Answers.SendBlocksExactly | kernel/proc.c:224-243 | the memory manager's answer to a process on the way to its receive blocks it for ever, whatever anybody does, iff that process has a WAITING or HANGING mark |
| Answers.ExactMatchBlocks | mm/fork2exit.c:138-141 | behind the exact comparison of flags in do_exit the send to INIT does not halt, and blocks the memory manager for ever |
| Answers.ForkedChildGetsTheAnswer | mm/fork2exit.c:89-104 | whatever runs between the copy of the record and the memory manager's answer to the child, the child included, that answer never halts, and the child gets that message, at once or at its receive |
| Answers.SendThenFork | mm/fork2exit.c:37-42 | a run from boot in which a child sends to its parent before the parent's next fork: the copy then breaks the invariant |
| Rendezvous.ReleaseKeepsInv | mm/fork2exit.c:154 | overwriting the flags of a reaped process with FREE_SLOT keeps the invariant |
| Rendezvous.BootSatisfiesInv | kernel/main.c:62-134 | the process table of tinix_main satisfies the invariant |
| Rendezvous.StepKeepsInv | kernel/proc.c:83-451 | every enabled action that does not halt keeps the invariant |
| Rendezvous.StepConserves | kernel/proc.c:204-383 | no action loses, repeats, or alters a message between two processes |
| Rendezvous.RunIsSafe | kernel/proc.c:83-451 | over any run: invariant, conservation of messages for each pair, and true sources |
| Rendezvous.RunFromBootIsSafe | kernel/proc.c:83-451 | over any run from boot: what d got from s is what s sent to d, in order and payload, but for at most one message still in s's buffer; sources are true; nobody waits for itself |
| Rendezvous.RunKeepsOrder | kernel/proc.c:231-242 | a process that never asks for one particular sender gets all its messages in the order in which they were sent |
| Calls.ReceiveEndsWithMessage | kernel/proc.c:302-383 | a receive ends with one message that its process asked for: the letter handed over by that very step, with its true source, or an interrupt |
| Calls.LetterEndsBoth | kernel/proc.c:204-258 | a letter ends the receive of its destination and the send of its sender |
| Calls.StatusFollows | kernel/proc.c:184-451 | what each action makes of every process: ready by a message or by its letter, otherwise in its own call or where it was |
| Calls.ReceiveTakesWaiting | kernel/proc.c:302-342 | a receive does not block while somebody it asks for is waiting to be received |
| Calls.MemoryFollows | kernel/proc.c:204-383 | no buffer is written but that of a receive that ends, the stamped message of the caller, and what a process stores itself |
| Calls.MarksFollow | mm/fork2exit.c:125-143 | only the memory manager sets or takes away WAITING and HANGING |
| Calls.ReplacedRecords | mm/fork2exit.c:37-42 | a forked child is where its parent is, with the same marks, memory and pending interrupt; a released slot is free; nobody else is touched |
| Calls.DeadlockExactly | kernel/proc.c:198-201 | the deadlock panic comes iff the send would close a cycle of senders |
| Calls.InterruptsExactly | kernel/proc.c:282-300 | over every run from boot: a receive from ANY or INTERRUPT is given an interrupt at once iff one has come since its process was last given one |
| Calls.InterruptArrives | kernel/proc.c:415-451 | an interrupt ends the receive that waits for it, or is given, once, to the next receive from ANY or INTERRUPT, whatever happens in between |
| Kernel.ProcessTable.Deadlock | kernel/proc.c:158-182 | the chain walk terminates and returns true iff the sender is reachable from the destination |
| Kernel.ProcessTable.MsgSend | kernel/proc.c:184-258 | on the linked lists: halts iff the destination is the sender, reaches it, or is woken with other flags; otherwise the table represents the abstract send; all asserts hold |
| Kernel.ProcessTable.LastSender | kernel/proc.c:233-241 | the walk to the end of the list finds the last process of the queue |
| Kernel.ProcessTable.HandOver | kernel/proc.c:205-223 | the branch for a waiting destination is the abstract send |
| Kernel.ProcessTable.Append | kernel/proc.c:226-242 | the field writes that block a sender append it to the list and touch nothing else |
| Kernel.ProcessTable.Enqueue | kernel/proc.c:225-243 | the blocking branch of msg_send is the abstract send |
| Kernel.ProcessTable.MsgReceive | kernel/proc.c:265-412 | halts iff a process receives from itself; otherwise it is the abstract receive; all asserts hold |
| Kernel.ProcessTable.TakeInterrupt | kernel/proc.c:282-300 | a pending interrupt is delivered as the pseudo-message and cleared |
| Kernel.ProcessTable.FindSender | kernel/proc.c:331-342 | the search for one sender finds it with the process before it |
| Kernel.ProcessTable.TakeMessage | kernel/proc.c:302-383 | unlinking, copying and waking is the abstract receive; head and predecessor cases agree with the asserts on prev |
| Kernel.ProcessTable.BlockReceiver | kernel/proc.c:385-405 | with nobody to receive from the caller blocks |
| Kernel.ProcessTable.InformInt | kernel/proc.c:415-451 | an interrupt wakes a process that waits for one, or stays pending |
| Kernel.ProcessTable.DeliverInterrupt | kernel/proc.c:415-446 | the waking branch is the abstract interrupt |
| Kernel.ProcessTable.SysSendrec | kernel/proc.c:83-117 | the system call stamps the caller's number and performs the abstract action |
| Kernel.ProcessTable.CopyProcess | mm/fork2exit.c:37-42 | the record copy of do_fork is the abstract fork |
| Scheduler.BestIsUnique | kernel/proc.c:43-51 | the lowest-index runnable process with the most ticks is unique |
| Scheduler.Processor.Scan | kernel/proc.c:43-51 | one pass finds the lowest-index runnable process with the most positive ticks, if there is one |
| Scheduler.Processor.Refill | kernel/proc.c:53-57 | every runnable process gets its priority as ticks, nothing else changes |
| Scheduler.Processor.Schedule | kernel/proc.c:32-76 | with a process that has ticks or priority: at most one refill, and past the early return the best process is picked |
| Scheduler.RefillHelps | kernel/proc.c:53-57 | after a refill somebody can run iff a runnable process has positive priority |
| Scheduler.ShutDownNeverPicked | kernel/main.c:159-162 | a process without priority and ticks is never picked, before or after a refill |
| Bits.FirstClear | fs/opera.c:174-177 | the first clear bit of a byte |
| Bits.SetFrom | fs/opera.c:210-216 | sets consecutive clear bits of a byte up to a count, or meets a set one |
| Bits.ClearFrom | fs/opera.c:521-525 | clears consecutive set bits of a byte up to a count, or meets a clear one |
| SectorMap.AllocSmapBit | fs/opera.c:189-224 | sets exactly the run at the least clear bit b and returns b-1+n_1st_sect, across bytes and sectors; fails iff that run is not free or does not fit |
| SectorMap.AllocImapBit | fs/opera.c:160-187 | sets exactly the least clear bit and returns it; returns 0 and changes nothing when the map is full |
| SectorMap.ClearImapBit | fs/opera.c:485-491 | clears exactly the inode's bit; the assert fails iff it was clear |
| SectorMap.ClearsExactlyWhen | fs/opera.c:509-520 | the unlink walk visits as many bits as the file has iff the run starts off a byte boundary or has fewer than 8 bits |
| SectorMap.PartsAddUp | fs/opera.c:512-549 | first byte, whole bytes and last byte add up to that number |
| SectorMap.ClearBytes | fs/opera.c:527-540 | the whole-byte loop clears exactly its bits across sectors, or meets a byte that is not all ones |
| SectorMap.ClearSmapRun | fs/opera.c:496-551 | the walk succeeds iff all the bits it visits are set, and then clears exactly those |
| SectorMap.AllocateThenClear | fs/opera.c:197-223 | allocating a run and unlinking it restores the map sectors byte for byte iff the start is unaligned or the run shorter than 8 |
| Records.WordOfBytes | fs/misc.c:138-141 | a 32-bit word survives being stored as bytes |
| Records.InodeRoundTrip | fs/misc.c:130-144 | an inode stored into a sector reads back, and the other records of the sector are unchanged |
| Records.PutDirentSelf | fs/opera.c:268-271 | the stored entry reads back with the copied name |
| Records.PutDirentOther | fs/opera.c:268-271 | a name of full length also zeroes the low byte of the next entry's inode number; no other entry changes |
| Records.ClearedDirent | fs/opera.c:585-588 | the zeroed entry is empty, the others are unchanged |
| Directory.StripPath | fs/misc.c:16-36 | at most 12 characters after one leading slash; fails iff there is a slash among them |
| Directory.LookupFirst | fs/misc.c:60-67 | the lookup is the inode number of the first entry with that name |
| Directory.SearchSlots | fs/misc.c:57-74 | the sector loop is the lookup among the entries and one more |
| Directory.SearchFile | fs/misc.c:40-77 | root for the empty name, 0 for a bad path, otherwise that lookup |
| Directory.FindEntry | fs/opera.c:251-264 | the walk finds the first entry with a given inode number, and the end of the last live one before it |
| Directory.NewDirEntry | fs/opera.c:241-276 | the entry goes to the first hole or to the end, in the sector that the loops stop at |
| Directory.WithEntrySlots | fs/opera.c:251-271 | off a full last sector, exactly the entry and the damage to its successor change |
| Directory.FullSectorLosesEntry | fs/opera.c:251-272 | with a full last sector and no hole, the appended slot reads as the entry 32 before it did: the new entry is lost |
| Directory.RemoveDirEntry | fs/opera.c:563-606 | zeroes the first entry for the inode, and trims to the last live entry if it was the last one; the assert fails iff there is none |
| Directory.WithoutEntrySlots | fs/opera.c:585-588 | exactly that entry becomes empty |
| FsInvariant.InodeTableNeverFills | fs/misc.c:103-104 | with at most 19 live inodes, cached once each, a table slot is always free |
| FsInvariant.FetchOk | fs/misc.c:81-121 | fetching a live inode succeeds, raises one count, and keeps cache and disk consistent |
| FsInvariant.EvictThenGet | fs/misc.c:81-144 | an inode that is dropped from the table and fetched again comes back as it was |
| FsInvariant.SearchFinds | fs/misc.c:40-77 | a found name is the root or has a live entry with that padded name |
| FsInvariant.SearchMisses | fs/misc.c:60-67 | a live entry has the padded name iff the search returns its inode: the comparison past the end never matches |
| FsInvariant.SomeInodeFree | fs/opera.c:160-187 | fourteen files cannot use up the inode numbers: the bit found lies between the fixed inodes and the last file inode |
| FsInvariant.LeastIsFreeRun | fs/opera.c:197-216 | the least clear bit is the start of the first free run of the grid; the contiguity assert holds iff fewer than 14 files are live |
| FsInvariant.NewSlot | fs/opera.c:251-268 | a new entry goes into a hole or to the end, within the first sector |
| FsInvariant.CreateKeepsDisk | fs/opera.c:143-275 | create_file halts iff all 14 runs are taken, and otherwise keeps maps, records, directory and cache consistent |
| FsInvariant.CreateConsistentExactly | fs/opera.c:269-271 | after a create the disk is consistent iff the name has at most 11 bytes, or 12 and the entry behind it is empty |
| FsInvariant.GridIsUnaligned | fs/opera.c:509-520 | starts of created files are 1 modulo 8, so the aligned branch is not reached and unlink clears exactly the file |
| FsInvariant.RemoveKeepsDisk | fs/opera.c:482-606 | removing a closed regular file other than cmd.tar never halts, passes all asserts, and keeps everything consistent |
| FsRefs.EntryIsLive | fs/opera.c:283-302 | a registered filp entry leads to a descriptor and an inode in use |
| FsRefs.LinkKeepsRefs | fs/opera.c:103-109 | opening adds one reference to descriptor and inode |
| FsRefs.CloseKeepsRefs | fs/opera.c:283-302 | closing takes one reference off each and frees the descriptor at zero |
| FsRefs.ExitKeepsRefs | fs/main.c:379-396 | fs_exit never meets a null pointer, keeps the counts right, and leaves the process without files |
| FsRefs.ForkCopyKeepsRefs | mm/fork2exit.c:37-42 | the copied filp array is accounted for as a fork in progress |
| FsRefs.ForkCountKeepsRefs | fs/main.c:361-375 | fs_fork never meets a null pointer and registers every copied entry |
| FsRun.UnlinkLeaksExactly | fs/opera.c:464-474 | an unlink that fetched the inode leaves its count raised iff it is refused, and no other count changes |
| FsRun.StepKeepsInv | fs/main.c:44-78 | each request halts exactly in the listed cases (a path of 128 bytes or more in open and stat, full tables, a fifteenth file, an open for nothing, closing what is not open, unlinking what does not exist), and otherwise keeps disk, cache and reference counts consistent |
| FsRun.RunKeepsInv | fs/main.c:39-88 | so does every sequence of requests |
| FsRun.RunFromMkfs | fs/main.c:92-281 | from mkfs on, after any run: map bits are exactly bit 0 plus live inodes and disjoint runs, names are distinct, cached inodes equal their records, but for the root's size, which is at most that of its record, every count is the number of references plus root and leaks |
| FsEffects.OpenEffect | fs/opera.c:71-109 | opening an existing name returns the first free entry of the caller, which now leads to a descriptor of its own at position 0, with the inode that the name leads to; every other entry and every inode stay; an unknown name gives -1 |
| FsEffects.CreateEffect | fs/opera.c:79-109 | creating returns such an entry for the least free inode number, now an empty regular file on a free run; an existing name, or one with a slash inside, gives -1 and changes nothing |
| FsEffects.CloseEffect | fs/opera.c:283-302 | closing returns 0 and closes that entry; nobody else notices, also not those who share the descriptor |
| FsEffects.ExitEffect | fs/main.c:379-396 | exit closes all entries of the process, and nobody else notices |
| FsEffects.ForkCopyEffect | mm/fork2exit.c:37-42 | the child's entries lead to the parent's descriptors |
| FsEffects.ForkCountEffect | fs/main.c:361-375 | counting the copied entries changes nothing that anybody sees |
| FsEffects.UnlinkEffect | fs/opera.c:446-607 | unlink returns 0 and erases the inode iff it is a regular file not in use, and otherwise returns -1 and changes no inode; entries stay |
| FsEffects.StatEffect | fs/misc.c:193-240 | stat returns 0, or -1 for an unknown name, and changes nothing |
| FsEffects.TransferEffect | fs/opera.c:409-418 | a transfer moves the position of everybody who shares the descriptor by the bytes moved, and the file grows up to it; all other entries and inodes stay |
| FsEffects.InUseExactly | fs/opera.c:469-474 | an inode is in use iff it is the root's, somebody has it open, or a refused unlink has kept it |
| FsEffects.RefusedForEver | fs/opera.c:464-474 | once an unlink of a file has been refused, every later unlink of it in any run is refused, also when nobody has it open any more |
| FsEffects.DirectoryReadExactly | fs/opera.c:374-418 | reading the root directory as a file keeps the disk consistent iff the read ends within the directory |
| FsFiles.StepKeepsFiles | fs/opera.c:371-418 | every request does to the bytes of all files just what it says: a write overwrites at its position, a create adds an empty file, an unlink takes one away, and nothing else changes any file |
| FsFiles.RunKeepsFiles | fs/main.c:39-88 | over every run the disk holds those files |
| FsFiles.ReadGivesBytes | fs/opera.c:379-412 | a read within the file returns its bytes at the position, as many as were asked for |
| FsFiles.WriteTakesAll | fs/opera.c:374-386 | a write within the capacity of the file stores everything |
| FsFiles.WritesAppend | fs/opera.c:409-418 | two writes through one entry, with any run between that does not close it, move its position or store into the file: the second continues the first |
| FsFiles.ReadsContinue | fs/opera.c:409-418 | two reads through one entry, with any such run between, return consecutive bytes |
| FsFiles.FilesOfMkfs | fs/main.c:251-257 | after mkfs there is one file, cmd.tar, with the bytes of its sectors |
| FsFiles.ServedTakes | fs/main.c:44-78 | a request that the server serves is such a step |
| FsFiles.RwTakes | fs/opera.c:325-423 | a transfer that do_rw makes is such a step |
| FsFiles.DirectoryReadBreaks | fs/opera.c:374-418 | a run from mkfs in which reading a sector from "/" leaves a disk that is not consistent |
| FsSync.RootSyncExactly | fs/opera.c:602-604 | after a request that does not halt the cached root directory equals its record iff the request creates a file, or it did before and the request does not remove the last entry |
| FsLongName.LongNameAfterUnlink | fs/opera.c:269-271 | a run from mkfs after which a name of 12 bytes leaves a disk that no choice of owners makes consistent |
| Processes.StepKeepsAll | mm/fork2exit.c:37-143 | memory manager and file system together: every step keeps both invariants, and free slots and zombies have no files |
| Processes.RunFromStart | mm/main.c:23-51 | from boot and mkfs on, over every joint run of forks, exits, waits and file requests, both invariants hold and free slots and zombies have no files |
| Processes.ForksAreAllowed | mm/fork2exit.c:20-42 | over every joint run from boot and mkfs, the slot that fork copies into has no open files |
| FsNames.PaddedIsInjective | fs/misc.c:63 | names of at most 12 bytes without zeros are told apart by the comparison of padded names |
| FsNames.CreatingBindsOneName | fs/opera.c:143-158 | creating binds one name to the least free inode number; every other lookup is unchanged |
| FsNames.UnlinkingDropsOneName | fs/opera.c:563-604 | unlinking drops one name; every other lookup is unchanged |
| FsNames.OtherRequestsKeepNames | fs/main.c:44-78 | all other requests leave all lookups unchanged |
| FsNames.MkfsNames | fs/main.c:229-281 | after mkfs the five names, with or without a slash in front, lead to inodes 1 to 5: the root, the three terminals by minor number, and cmd.tar |
| FsNames.FixedStringsSpell | fs/main.c:263-281 | the five names are ".", "dev_tty0" to "dev_tty2" and "cmd.tar" |
| FsLayout.SetRecord | fs/misc.c:130-144 | writing one inode record changes that record and nothing else of maps, records and directory |
| FsLayout.StoreEntry | fs/opera.c:265-272 | storing an entry changes the directory only |
| FsLayout.DataOutsideView | fs/opera.c:394-405 | sectors behind the root directory do not show in maps, records or directory |
| Mkfs.WriteInodeMap | fs/main.c:170-178 | bits 0 to 5 of the inode map |
| Mkfs.WriteTarBits | fs/main.c:203-227 | the map bits of cmd.tar, sector after sector |
| Mkfs.WriteSectMap | fs/main.c:180-227 | the sector map has bit 0, the root directory's run and cmd.tar's run |
| Mkfs.WriteInodes | fs/main.c:229-258 | the records of the root, the ttys and cmd.tar |
| Mkfs.WriteRootDir | fs/main.c:263-281 | the five first entries |
| Mkfs.Format | fs/main.c:118-281 | the disk is formatted: the starting state of every run |
| FileSystem.Server.constructor | fs/main.c:92-116 | formatting and fetching the root inode leave a consistent server with nothing open |
| FileSystem.Server.GetInode | fs/misc.c:81-121 | the table walk is the abstract fetch; fails iff the table is full |
| FileSystem.Server.SyncInode | fs/misc.c:130-144 | writes one record, and no other sector region |
| FileSystem.Server.SearchFile | fs/misc.c:40-77 | the abstract search, with the server unchanged |
| FileSystem.Server.AllocBits | fs/opera.c:147-151 | both bitmaps as the abstract create changes them |
| FileSystem.Server.NewInode | fs/opera.c:227-239 | a fresh cache slot and its record |
| FileSystem.Server.AddToRoot | fs/opera.c:241-276 | entry, root size and root record as the abstract create changes them |
| FileSystem.Server.CreateFile | fs/opera.c:143-158 | create_file on bytes is the abstract create; it fails iff all runs are taken |
| FileSystem.Server.FirstFreeFd | fs/opera.c:48-58 | the first null entry of filp |
| FileSystem.Server.FirstFreeDesc | fs/opera.c:60-68 | the first descriptor without inode |
| FileSystem.Server.Attach | fs/opera.c:102-134 | connects process, descriptor and inode; fails iff the inode cannot be opened |
| FileSystem.Server.OpenTables | fs/opera.c:33-140 | the code of do_open is the abstract open, with the assert on the path length |
| FileSystem.Server.DoOpen | fs/opera.c:33-140 | halts exactly in the listed cases; otherwise the state advances as in the run model, stays consistent, and no file's sectors are written |
| FileSystem.Server.Release | fs/opera.c:293-300 | takes one reference off descriptor and inode and clears the entry |
| FileSystem.Server.DoClose | fs/opera.c:283-302 | halts iff the entry is not open; otherwise as in the run model |
| FileSystem.Server.ExitFiles | fs/main.c:379-396 | the loop of fs_exit is the abstract exit |
| FileSystem.Server.FsExit | fs/main.c:379-396 | never halts, and stays consistent |
| FileSystem.Server.CopyFilp | mm/fork2exit.c:37-42 | the copied array starts the fork of the run model |
| FileSystem.Server.ShareFiles | fs/main.c:361-375 | the loop of fs_fork is the abstract counting |
| FileSystem.Server.FsFork | fs/main.c:361-375 | never halts, and stays consistent |
| FileSystem.Server.ClearMaps | fs/opera.c:482-551 | the bitmap part of do_unlink clears inode bit and run; its asserts fail iff a bit was clear |
| FileSystem.Server.DropFromRoot | fs/opera.c:563-606 | the directory part of do_unlink; the new root size is not written to disk |
| FileSystem.Server.RemoveFile | fs/opera.c:480-606 | the removal on bytes is the abstract one and passes all asserts |
| FileSystem.Server.UnlinkPath | fs/opera.c:435-607 | the code of do_unlink is the abstract unlink, for paths that fit its buffer |
| FileSystem.Server.DoUnlink | fs/opera.c:435-607 | for paths that fit its buffer: halts iff the name does not exist; otherwise as in the run model, and no file's sectors are written |
| FileSystem.Server.StatPath | fs/misc.c:193-240 | the code of do_stat is the abstract stat, with the assert on the path length |
| FileSystem.Server.DoStat | fs/misc.c:193-240 | reports number, mode, device and size of the named inode as its record has them, and leaves the counts as they were |
| FileSystem.Server.MoveBytes | fs/opera.c:379-412 | the sector loop on the disk: bytes moved, bytes read, bytes stored, and maps, records and directory unchanged for a regular file |
| FileSystem.Server.MovePosition | fs/opera.c:409-418 | position, and size with its record when the position lies behind the end |
| FileSystem.Server.RwEntry | fs/opera.c:325-423 | the code of do_rw: refused, sent to the tty, or transferred as RwMoves says |
| FileSystem.Server.DoRw | fs/opera.c:312-424 | for every position and length within the disk: what is moved, what the tables become, and consistency when the bytes lie in a regular file's sectors |
| FileSystem.FilesDisjoint | fs/opera.c:227-239 | two regular files in use share no sector |
| FileSystem.WriteLeavesOtherFiles | fs/opera.c:393-406 | a write within one file's capacity leaves the contents of every other file, although whole windows are written back |
| FileSystem.CreatedFilesFit | fs/opera.c:381-393 | the windows of a transfer within a created file's capacity lie on the disk |
| FileIO.MovesAll | fs/opera.c:371-412 | within the size (read) or capacity (write), exactly len bytes are moved |
| FileIO.MovesClippedExactly | fs/opera.c:374-386 | the clipped length is moved iff nothing was asked for, the request stays within the limit, or the limit lies in an earlier sector |
| FileIO.ReadGrowsExactly | fs/opera.c:414-418 | a read makes the file longer iff it asks for more than the rest of it |
| FileIO.RdSects | fs/opera.c:394 | several sectors as one byte sequence |
| FileIO.WrSects | fs/opera.c:405 | stores the bytes of several sectors and nothing else |
| FileIO.WriteBack | fs/opera.c:393-406 | writing a window back with some bytes replaced changes just those bytes of the disk |
| FileIO.Transfer | fs/opera.c:371-412 | for every position, length and limit: the number of bytes moved, the bytes read, and a write that changes exactly its bytes |
| FileIO.WriteThenRead | fs/opera.c:397-405 | reading back what was written |
| FileIO.OtherBytesStay | fs/opera.c:393-406 | contents outside the written range stay |
| Lifecycle.SegmentsAreDisjoint | mm/main.c:62-75 | segments of different children are disjoint and above the kernel; the copied part ends inside its segment and below memory_size |
| Lifecycle.ForkHaltsExactly | mm/fork2exit.c:19-35 | a free slot is never one of the first nine, so the assert holds; fork stops iff the memory guard panics |
| Lifecycle.ForkKeepsInv | mm/fork2exit.c:14-106 | fork keeps the lifecycle invariant |
| Lifecycle.ExitKeepsInv | mm/fork2exit.c:109-144 | exit keeps it, through the loop over the orphans |
| Lifecycle.WaitKeepsInv | mm/fork2exit.c:169-194 | wait keeps it |
| Lifecycle.StepKeepsInv | mm/main.c:23-51 | every call keeps it |
| Lifecycle.BootInv | kernel/main.c:62-134 | the table of tinix_main satisfies it |
| Lifecycle.RunFromBoot | mm/fork2exit.c:109-155 | over any run from boot, up to an exit that gets stuck: no parent is free or a zombie, only INIT can wait beside a zombie child, each exit status is sent at most once and unaltered, and a process is present exactly until its status is sent |
| Lifecycle.WaitAnswers | mm/fork2exit.c:169-194 | wait sends a status iff there is a zombie child, NO_TASK iff no slot names the caller, and otherwise sleeps |
| Lifecycle.NoTaskExactly | mm/fork2exit.c:173-193 | NO_TASK means no child; a childless caller gets it iff no free slot still names it |
| Lifecycle.SecondWaitSleeps | mm/fork2exit.c:173-193 | a run from boot after which INIT waits for ever without any child |
| Lifecycle.OrphansEffect | mm/fork2exit.c:134-143 | the loop gets stuck iff an orphan is found with exact flags, and then nobody is freed or answered; otherwise it only makes INIT the parent of the orphans |
| Lifecycle.ExitSticksExactly | mm/fork2exit.c:134-143 | an exit leaves the memory manager in a send for ever iff the process is not INIT's child and orphans a zombie that is found, like INIT, with exact flags |
| Lifecycle.LeaveIsHang | mm/fork2exit.c:125-132 | the send before the loop always returns, because the parent has no mark left |
| Lifecycle.OrphanRuns | mm/fork2exit.c:134-143 | a run from boot whose next exit leaves INIT waiting beside a zombie child, or gets stuck, as the flags are found |
| Lifecycle.InitWaitsBesideZombie | mm/fork2exit.c:138 | an orphaned zombie stays one beside a waiting INIT whenever the exit completes |
| Lifecycle.StatusOnlyWhenAsked | mm/fork2exit.c:125-155 | a status goes only to the parent, which waits or has just asked, one at a time |
| LifeEffects.ForkEffect | mm/fork2exit.c:14-106 | fork tells the child that it is born and the parent which child it has, a new process in the first free slot with that parent; with no slot free it tells the parent that it failed and changes nothing |
| LifeEffects.ExitEffect | mm/fork2exit.c:109-144 | an exit that completes tells a waiting parent the status, wakes it and frees the slot, or leaves a zombie with its status; children go to INIT and nobody else changes |
| LifeEffects.WaitEffect | mm/fork2exit.c:169-194 | wait returns the status of a zombie child and frees its slot, or NO_TASK, or leaves the caller waiting |
| LifeEffects.RunAnswersOnce | mm/main.c:23-51 | over every run the calls of fork are answered once each, in order and to their callers, and a process has as many answers to wait as it has called wait, but for the call it is in |
| MemoryManager.Server.constructor | kernel/main.c:62-134 | the memory manager starts in the boot state |
| MemoryManager.Server.SendRecv | kernel/proc.c:224-243 | an answer is sent, or reported as stuck, iff the receiver has a mark |
| MemoryManager.Server.Cleanup | mm/fork2exit.c:147-155 | sends the status to the parent and then frees the slot; stuck, with the slot not freed, iff the parent has a mark |
| MemoryManager.Server.FindSlot | mm/fork2exit.c:20-27 | the first slot whose flags are exactly FREE_SLOT |
| MemoryManager.Server.AllocMem | mm/main.c:62-75 | the address for a process, or a panic iff the image does not fit |
| MemoryManager.Server.DoFork | mm/fork2exit.c:14-106 | the code is the fork step |
| MemoryManager.Server.Depart | mm/fork2exit.c:109-132 | do_exit up to the loop: status, the parent woken and answered, or a zombie |
| MemoryManager.Server.AdoptSlot | mm/fork2exit.c:136-142 | one round of the loop, which stays in the send when the flags match exactly |
| MemoryManager.Server.HandOver | mm/fork2exit.c:134-143 | the loop is the orphan step, with its stuck outcome |
| MemoryManager.Server.DoExit | mm/fork2exit.c:109-144 | the code is the exit step, with its stuck outcome |
| MemoryManager.Server.DoWait | mm/fork2exit.c:169-194 | the code is the wait step |
| MemoryManager.Server.Serve | mm/main.c:23-51 | one request is one step and keeps the invariant; only a fork halts and only an exit gets stuck |
| Tty.ReaderWaits | kernel/tty.c:120-133 | until a character completes the line, the read stays pending with the edited line |
| Tty.ReaderGets | kernel/tty.c:120-143 | a read of n is answered once, by the first newline or n-th character, with the edited line; what is typed behind is dropped |
| Tty.EndsOrNot | kernel/tty.c:135 | one of the two cases applies to every stream |
| Tty.DropsWithoutReader | kernel/tty.c:118-120 | without a pending read all keys are dropped |
| Tty.ReadShows | kernel/tty.c:120-143 | a completed read shows the echo of its line and then the completing character: a newline once, the last character of a full line twice |
| Tty.EchoShowsLine | kernel/tty.c:120-133 | what is shown, with its backspaces carried out, is the edited line |
| Tty.Terminal.constructor | kernel/tty.c:86-96 | an empty ring and no reader |
| Tty.Terminal.PutKey | kernel/tty.c:148-159 | the ring is a queue of at most 256 keys; a key for a full ring is lost |
| Tty.Terminal.TakeKey | kernel/tty.c:112-118 | takes the oldest key |
| Tty.Terminal.Handle | kernel/tty.c:120-144 | one character for the reader, with echo, is one step of the discipline; a completed line is in the reader's buffer |
| Tty.Terminal.Write | kernel/tty.c:108-146 | empties the ring into the discipline; the last completed line is in its reader's buffer |
| Tty.Terminal.DoRead | kernel/tty.c:278-290 | a new reader; an earlier one is forgotten |
| Tty.Terminal.DoWrite | kernel/tty.c:294-315 | all bytes reach the screen in order |
| TtyProtocol.StepKeepsInv | kernel/tty.c:49-82 | no RESUME_PROC is taken for the reply to DEV_OPEN, DEV_READ or DEV_WRITE, every waiting caller's answer is in exactly one place, and an answer finds its caller waiting |
| TtyProtocol.EveryCallIsAnsweredOnce | fs/main.c:40-88 | over every polite run without a panic: one SYSCALL_RET per call but the one in progress, no read gets more than it asked for, and every write is answered with its length |
| TtyAnswers.ReadReturnsItsLine | kernel/tty.c:120-143 | over every polite run from the start: each read that is heard is answered with the length of the line that its caller typed since, up to the first character that completes it |
| TtyProtocol.StrandedForever | kernel/tty.c:278-290 | a caller whose answer nobody holds waits for ever |
| TtyProtocol.HearStrandsExactly | kernel/tty.c:278-290 | a DEV_READ strands a caller iff it asks for nothing, or overwrites a pending read of another caller |
| TtyProtocol.ReadOfNothing | kernel/tty.c:278-290 | a run from the start in which a read of nothing strands its caller |
| TtyProtocol.TwoReads | kernel/tty.c:278-290 | a run from the start in which a second read on a terminal strands the first caller |
| ExecArgs.CountPointers | lib/unistd.c:149-152 | the first loop fails iff the pointers do not fit |
| ExecArgs.StoreArguments | lib/unistd.c:157-166 | the second loop packs all strings, or fails iff they do not fit |
| ExecArgs.Pack | lib/unistd.c:143-166 | packing succeeds iff the block is shorter than the stack, and then pointers lead to exactly the strings |
| ExecArgs.Relocate | mm/exec.c:78-85 | argc is the number of words before the first null word, and just those words move by delta |
| ExecArgs.RelocatedIsPacked | mm/exec.c:76-85 | the moved block is packed for its new address |
| ExecArgs.Load | mm/exec.c:55-67 | loads the segments in order; fails iff one does not fit the image |
| ExecArgs.SetUpArguments | mm/exec.c:69-89 | the block is copied out, relocated and stored at the top of the image |
| ExecArgs.DoExec | mm/exec.c:55-89 | segments, then arguments |
| ExecArgs.ArgumentsSurvive | mm/exec.c:69-92 | the new program finds argc and exactly the original strings, with a null pointer behind them, if no loaded segment touches the block |
| ExecArgs.SegmentIsLoaded | mm/exec.c:55-67 | a segment is at its address after the loop if no later one touches it |
| ExecArgs.ProgramIsLoaded | mm/exec.c:55-89 | and beside the arguments, in the image of the new program |
| ExecArgs.SegmentLosesArguments | mm/exec.c:57-74 | a segment over the block can lose all arguments |

## Left out

- driver/hd.c: port I/O and interrupts; a sector transfer is one read or write of the sector array.
- kernel/console.c, kernel/keyboard.c and in_process of kernel/tty.c: scan codes and the screen; a terminal gets keys and has a list of characters written.
- Segment descriptors, va2la, LDT and GDT: each process has its own memory, addressed by message buffer (IPC) or by byte (exec).
- The super block in sector 1 and read_super_block: the layout is computed from the disk size; i_dev is omitted because there is one device.
- kernel/main.c's test processes, the shell and untar: clients of the modelled services.
- lib/ipc.c: send_recv with BOTH appears as the send and the receive that it makes, as two actions of a process.
- do_open's message to the driver of a tty: it changes nothing in the file system.
- Integer overflow of positions and lengths in do_rw and of tick counts; sizes and sector numbers in inodes are 32-bit.
- The messages between the file system, the memory manager and their clients are actions of the IPC model on the one hand, and steps of the file system, lifecycle and terminal models on the other; only the lifecycle and the file system are composed (Processes), and a request is one step there.
- The file system's dealings with the disk during terminal requests: in the protocol it is then just busy.
- The part of do_exec that reads the program file: program headers and their bytes are parameters.
- Liveness: that a waiting process is eventually served depends on scheduling and on the devices.
- The class fields for tables (process table, inode table, descriptors, filp) are sequences that methods reassign; aliasing of pointers into them is not modelled, except for the lists of senders, which are links.
- FileIO.Transfer: byte counts and positions are natural numbers; a negative count from a caller is not modelled.
- Mkfs.Format: disks whose data area starts at sector 2048 or later (about four gigabytes) are excluded, because cmd.tar can then lie on the grid of runs on which files are created.
- FileSystem.Server.constructor: the same disks are excluded.
- FileSystem.Server.UnlinkPath: a path of 128 bytes or more is excluded, because do_unlink overruns its buffer (fs/opera.c:438-443) and what follows depends on the stack.
- FileSystem.Server.DoUnlink: the same paths are excluded.
- FileSystem.Server.DoRw: transfers to the root directory are described, but the consistency of the disk is claimed for regular files only; FsEffects.DirectoryReadExactly says when reading the directory breaks it, and what a write to the directory leaves in its entries is not described.
- FileSystem.Server.DoStat: the size reported for the root directory is the one in memory, which can differ from its record after a trimming unlink.
- Rendezvous.RunKeepsOrder: first come, first served is claimed for receivers that never ask for one particular sender, since a receive from one sender overtakes others by design.
- Kernel.ProcessTable.SysSendrec: a null message pointer is excluded, and so is a SEND to ANY or INTERRUPT, which passes the assert and then indexes the process table out of range.
- Kernel.ProcessTable.MsgSend: a null message pointer, which the branch that blocks does not test, is excluded.
- Rendezvous.StepKeepsInv: a null message pointer is excluded, and so is a SEND to a number outside the process table (the source indexes the table with ANY unchecked).
- Scheduler.Processor.Schedule: it requires that somebody can run after a refill, because the source loops for ever otherwise.
- Tty.Terminal.DoRead: a count larger than the reader's buffer, which the source does not test, is excluded.
- ExecArgs.SetUpArguments: a non-empty block must hold a null word, as for ExecArgs.Relocate.
- ExecArgs.DoExec: the block must still hold a null word after the segments are loaded.
- ExecArgs.Relocate: the block must hold a null word, which the source does not test; blocks packed by execv do.
- The registers eip and esp that do_exec sets, and the name that it gives the process.
- MemoryManager.Server.DoFork: the name of the child, its segment descriptors and the copy of the image are omitted; the image copy appears in Kernel.ProcessTable.CopyProcess.
