# xv6-64 with a file server: a verified model

This project models the parts of the kernel, its user-level file server and its user programs that keep state under
concurrency, crashes or pointer surgery, and proves what they keep. `dafny verify dfyconfig.toml` verifies all of it.

| area | files | main results |
|---|---|---|
| redo log and buffer cache | BufferCache, RedoLog, Log, GroupCommit | CrashAtomicity, EndOp, NoRunPanics, NoLogWriteFails |
| files across crashes | CrashSafety | RecoversFiles, CrashConsistency, OperationIsAtomic |
| processes and their mail | ProcTable, Lifecycle, Mailbox, DeadLetters | MailIsConserved, MessagesAreArguments, ExitedReceiver, NoLostWakeup, ProcessLifecycle |
| the file-server protocol | FsProtocol | SingleToken, OnlyRepliesEndCalls, EveryCallCompletes |
| block-mapped files | Blocks, Bitmap, BlockMap, FileSystem, FileIo | Readi, Writei, Itrunc, Filewrite |
| directories and paths | Directory, Path | DirLink, Namex |
| file server | DiskInode, ServerStore, ServerIo, ServerNames, ServerTables, ServerPaths, Server | Handle, Open, Namei, Write, CloseAllForOwner |
| runs of the file server | ServerRuns | BreakRoot, LoseBlock, LastSlot, AllTaken |
| read and write through the server | RemoteIo, ReadBack | SysRead, SysWrite, WriteThenRead |
| user-space allocator | FreeList, Umalloc | Malloc, Free |
| page tables | PageTree, PageCost, Vm | TranslateIsFlat, Allocuvm, Copyuvm, Freevm |
| shell and grep | ShellGrammar, Shell, Grep | ParsesGrammar, RoundTrip, Parsecmd, Match |
| pipes | Pipe, PipeProtocol | PipeRuns, CallIsKept, QuietNext |

Code that updates state in place is a class or an array with the same loops. Each method is proved against functions or
predicates on values, and the results about whole runs are lemmas about those. Where a source function is one long loop
body, the body is a method of its own. Locked regions are single steps, and a run is any interleaving of them. A result
of `None`, `Panic` or a false `ok` stands for a kernel panic or a `panic()` of the shell.

Conventions that matter when reading a contract:

- In the log and the cache a block is 128 words, and the header is encoded in words. In the file system a block is 512
  bytes, and indirect entries are little-endian words of it. `CrashSafety.Sees` ties the two together.
- In the kernel's file system the inodes are values beside the blocks. In the server they are the 64-byte structures in
  the inode blocks, and the slots of the inode cache are copies of them that may run ahead of the disk.
- The server is one object: the disk, its block buffers, the inode slots, the descriptors. Its invariant counts
  references: those in hand are a parameter, and at the head of the request loop there are none. It comes in three
  strengths. `Tables` is the bookkeeping and holds whatever the disk holds; `Valid` adds a well-formed file system, in
  which every used block has one owner; `Sound` adds directories whose entries lead to inodes in use. Every request
  keeps `Tables`; a contract says what the others add. Outside `Valid` the kernel may panic, because the server asks for
  a block that the disk does not have: a false `live`, or `Panic`.
- In the allocator, addresses and sizes count headers of 16 bytes. What sbrk answers is a parameter of `Malloc`: nothing,
  or memory above all memory it gave before, ending below 2^32 headers, so that 32-bit sizes do not overflow.
- In the page tables a page is 512 words, and memory is indexed by frame. The nested loops of freevm are one method that
  calls itself for the next level.

Where the code does less than its comments or constants suggest, the code is modelled as it is and the exact condition
is proved:

- NBUF equals LOGSIZE. The blocks of a transaction are pinned until its commit, which needs a buffer for each log block,
  and readers hold buffers beside it. `EndOp` says exactly when bget panics in a commit. `PinnedBuffersStopCommit` and
  `ReaderStopsCommit` are runs that end so.
- mkfs makes a log of LOGSIZE blocks including its header, so log_write panics in some run as soon as an operation may
  log MAXOPBLOCKS blocks. A larger log does not help: then the commit panics for want of a buffer. `NoRunPanics` gives
  the bound for every log size and every number of buffers held by others, in both directions.
- filewrite computes the size of one operation from LOGSIZE, not MAXOPBLOCKS, which is more than admission allows for
  (`OperationBlocks`, `FilewriteCanPanic`).
- A sender blocked on a process looks only at its slot when it is woken. After the receiver's exit it may be told
  success by the zombie, by the free slot or by a process forked into it. `ExitedReceiver` says when, and when it is
  refused or sleeps on; `OneSuccessUntilReaped` bounds the successes; DeadLetters holds the runs.
- allocproc empties a new process's mailbox without the lock and wakes nobody. `NoLostWakeup` shows that this is the only
  step of any run that leaves a sender asleep on an empty mailbox, and `SenderIsStranded` is such a run.
- The server writes an inode out only after a write that grows the file. A failed write may leave blocks that only the
  slot in memory names; the request that drops the last reference loses them. `Close`, `CloseAllForOwner` and `Handle`
  say exactly when, and `LoseBlock` is such a run. Every file keeps its contents.
- The server lets a client write to a directory. `Write` and `Handle` say exactly which writes leave the directories
  sound, and `BreakRoot` is a run with one that does not. The tables stay sound in every request after it.
- The server's namei does not test for a missing slot for the root. `Namei`, `Open` and `Handle` say exactly when it
  faults. While the directories are sound and the root is the only one, as on a disk that mkfs made, no request leads
  there (`Handle`, `Safe`); with a subdirectory two requests do (`LastSlot`).
- namei and dirlookup take a missing slot for a missing file. `Open` says exactly which paths are found.
- dirlink exits the server on a failed write. `Handle` says that the disk or the root directory is full then.
- ialloc in the server marks an inode on disk before it asks for a slot, and keeps it taken if there is none.
- A killed writer that returns on a full pipe does not wake the readers. `QuietNext` shows this is the only step that
  leaves a sleeper on a satisfied condition.

## Model

| member | source | states |
|---|---|---|
| BufferCache.UnlinkRing | bio.c:132-133 | the two pointer updates take exactly one buffer out of the doubly linked ring |
| BufferCache.PushRing | bio.c:134-137 | the four pointer updates put a buffer at the front of the ring |
| BufferCache.ViewIs | bio.c:61-93 | the logical disk is the only one that agrees with every valid buffer, and with the disk where no buffer holds the block |
| BufferCache.BCache.constructor | bio.c:38-56 | binit links all buffers into one ring; over a disk that survived a reboot the cache shows exactly that disk and no buffer is busy |
| BufferCache.BCache.FindVictim | bio.c:81-92 | the backward scan finds the least recently released buffer that is clean and unreferenced; none only if every buffer is referenced or dirty |
| BufferCache.BCache.Bget | bio.c:61-93 | for a non-zero device: the buffer that already holds the block, else the least recently released clean unreferenced one; it panics exactly when neither exists, so a pinned dirty buffer is never recycled |
| BufferCache.BCache.Iderw | memide.c:35-60 | a dirty buffer goes to its block as one disk write, an invalid one is read from it |
| BufferCache.BCache.Bread | bio.c:95-106 | the latest contents of the block, and nobody's view of the disk changes; bget panics exactly when every buffer is busy and none holds the block |
| BufferCache.BCache.Bwrite | bio.c:108-116 | the disk gets the buffer's contents in one write and the view is unchanged |
| BufferCache.BCache.Brelse | bio.c:118-141 | the last release moves the buffer to the front of the ring, which stays a permutation of all buffers in order of release; the cache stays sound, and the view the same, exactly when a changed buffer was logged or written before |
| RedoLog.EncodeHead | log.c:98-113 | decoding an encoded log header gives the block numbers back |
| RedoLog.RecoveryIsIdempotent | log.c:115-122 | a crash after any number of recovery writes: recovering again gives the same home blocks |
| RedoLog.CrashWhileLogging | log.c:174-188 | until the header is written, recovery finds the home blocks as they were before the transaction |
| RedoLog.HeaderWriteCommits | log.c:98-113 | once the header is written, recovery finds the whole transaction in place |
| RedoLog.CommitIsAtomic | log.c:190-200 | after any k writes of a commit, recovery yields all of the transaction or none of it, and says which by k |
| RedoLog.AnyCrashCanHappen | log.c:115-200 | the runs leave no crash out: the machine may stop before or after each of the 2n + 2 disk writes of a commit of n blocks and each write of recovery, at no other count, and can always restart |
| RedoLog.StepRefines | log.c:69-231 | every event (begin, logged write, end with commit, crash inside commit or recovery, reboot) is that event of a machine of atomic transactions |
| RedoLog.RunRefines | log.c:69-231 | the same for whole runs |
| RedoLog.SpecRunHome | log.c:143-172 | in the atomic machine the home blocks are those of the start with the committed transactions applied in order |
| RedoLog.CrashAtomicity | log.c:69-231 | in every run, with crashes between any two block writes and inside recovery any number of times, recovery leaves the home blocks as they were after a whole number of transactions, and while the system is up readers see those plus the uncommitted changes |
| RedoLog.ViewOverlaysDisk | log.c:202-231 | what readers see is the disk under the logged changes, and nothing else |
| Log.LogDevice.BeginOp | log.c:124-141 | one pass of begin_op: admitted exactly if no commit runs and the logged blocks plus ten for each operation, this one included, are at most thirty; then it is the Begin of the model and of the admission protocol |
| Log.LogDevice.FindEntry | log.c:222-225 | the absorption scan finds the block's entry, or that there is none |
| Log.LogDevice.Update | log.c:202-231 | a change passed to log_write is the model's logged write; it fails in exactly the cases of log_write's panics and of bget's, whatever buffers other processes hold, and does not touch the disk |
| Log.LogDevice.QuietCommit | log.c:143-200 | with no buffer held by others that condition is n == NBUF |
| Log.LogDevice.WriteHead | log.c:98-113 | exactly one disk write, the encoded header; it fails exactly when bget cannot serve the header block |
| Log.LogDevice.WriteLog | log.c:174-188 | copies the changed blocks into the log in order; it fails exactly when bget cannot serve one of the log blocks, beside any set of clean buffers that other processes hold |
| Log.LogDevice.InstallTrans | log.c:68-82 | copies the logged blocks home in order and unpins them |
| Log.LogDevice.Commit | log.c:190-200 | exactly the model's sequence of disk writes; it fails exactly when something is logged and some block of the log cannot be served |
| Log.LogDevice.EndOp | log.c:143-172 | it panics while a commit runs; otherwise the last operation commits, and the call fails exactly when the pinned buffers and the clean ones held by others are all NBUF of them and some log block is not among them |
| Log.LogDevice.ReaderBread | fs.c:425-450 | bread by a process outside any operation changes nothing that the log keeps, and leaves the operations' invariant in place |
| Log.LogDevice.ReaderBrelse | fs.c:425-450 | nor does its brelse |
| Log.LogDevice.ReadHead | log.c:84-96 | the in-memory header is the one on disk |
| Log.LogDevice.constructor | log.c:53-66 | initlog on whatever a crash left behind performs exactly the model's recovery |
| Log.PinnedBuffersStopCommit | log.c:143-188 | with any log larger than LOGSIZE, three operations of MAXOPBLOCKS blocks run and the last end_op panics with all NBUF buffers pinned |
| Log.ReaderStopsCommit | log.c:143-188 | with the log of LOGSIZE blocks, three operations log NBUF - 1 blocks, another process reads a block, and the last end_op panics |
| GroupCommit.GroupCommitSafe | log.c:124-172 | in every reachable state: committing implies no operation is outstanding, logged block numbers are distinct, a sleeper in begin_op has an operation or commit to wake it, and end_op does not panic |
| GroupCommit.EveryEndWakes | log.c:154-171 | no end_op panics, and every end_op that leaves operations running, and every commit that does not panic, wakes all sleepers |
| GroupCommit.NoPanicIfPeakFits | log.c:124-231 | neither log_write nor a commit panics in any run in which each operation keeps to a budget whose peak fits the log and the buffers that others leave |
| GroupCommit.PanicIfPeakDoesNotFit | log.c:124-231 | for any larger budget there is a run in which log_write panics with the log full, or a commit for want of a buffer |
| GroupCommit.NoRunPanics | log.c:124-231 | the exact bound, both ways, for every log size, budget and number of buffers held by others; with none held it is MAXOPBLOCKS - 1 calls for the log that mkfs makes and for any larger one |
| GroupCommit.BeginIsAdmission | log.c:124-141 | the log admits an operation exactly when the protocol of concurrent operations does, and both go to the same state |
| GroupCommit.LogWriteIsStep | log.c:202-231 | log_write of a home block goes on in the log exactly when the protocol does not find the transaction too big, and both go to the same state |
| GroupCommit.EndIsStep | log.c:143-172 | end_op is that step of the protocol, for the last operation followed by its commit |
| GroupCommit.NoLogWriteFails | log.c:124-231 | in every run of the log on at least LOGSIZE blocks, with crashes between any two writes, in which no operation makes more than MAXOPBLOCKS - 1 log_write calls: no log_write of an operation fails, and no end_op |
| GroupCommit.FullCommitPanics | log.c:124-200 | with a log larger than LOGSIZE, operations of MAXOPBLOCKS calls reach a commit of NBUF blocks, which panics |
| GroupCommit.FilewriteCanPanic | file.c:141-159 | a full operation of filewrite, with whatever it logs at whatever offset, logs more than MAXOPBLOCKS blocks, so operations of that size that begin_op admits together reach a panic whatever the size of the log |
| FileIo.OperationBlocks | file.c:141-156 | the blocks that an operation passes to log_write: every block of its data, at most 14 of them and 13 or 14 if it is full, which is more than MAXOPBLOCKS; besides those no more than the bitmap, the inode and the indirect block, so on a disk with one bitmap block they fit LOGSIZE |
| FileIo.Filewrite | file.c:131-170 | all of the data is spliced in and n returned, or -1 exactly past MAXFILE blocks, with the operations before that in the file and the offset behind them; other files unchanged, "short filewrite" is out of reach, and each operation logs what OperationBlocks counts |
| CrashSafety.BytesWords | buf.h:1-11 | a block of words and a block of bytes are the same block |
| CrashSafety.RecoversLastView | log.c:115-231 | after any run, with crashes anywhere, recovery leaves exactly the home blocks that the kernel saw at the last commit |
| CrashSafety.RecoversFiles | log.c:115-231 | so the file system after recovery is the one of the last commit: bitmap, inodes and every block of every file |
| CrashSafety.CrashConsistency | log.c:115-231 | if operations leave the file system well formed at every commit, every crash leaves it well formed after recovery: each used block has one owner and none is lost |
| CrashSafety.ImageSees | fs.h:13-52 | every file system whose inodes fit the struct has an image in the home blocks, with its inodes in the inode blocks |
| CrashSafety.OperationIsAtomic | log.c:124-231 | an operation that takes the file system from fs to fs' and logs the blocks that differ: a crash after k writes of its commit recovers to fs', if the header was written, or to fs |
| ProcTable.FindPid | proc.c:573-577 | the first slot with the pid |
| ProcTable.Sendable | proc.c:517-535 | exactly the messages of types 1 to 4 and 100 to 102 with 0 to 128 bytes can be sent |
| ProcTable.SendOutcome | proc.c:557-615 | a send is delivered exactly if the message can be sent and the target is live, not killed and its mailbox empty; then that mailbox, and no other, holds the message under the sender's pid; it blocks exactly if the mailbox is full and the sender is not killed |
| ProcTable.SendToNobody | proc.c:573-581 | a send to a pid that nobody has is refused |
| ProcTable.RecvOutcome | proc.c:632-664 | a receiver gets exactly what its mailbox holds, which is empty afterwards, and the senders asleep on it run; with nothing there it sleeps, or gives up if killed |
| ProcTable.WaitOutcome | proc.c:251-289 | wait gives the pid of a zombie child exactly if there is one, and frees its slot; -1 exactly if there is none and no child at all or the caller is killed; otherwise it sleeps |
| ProcTable.KillOutcome | proc.c:460-478 | kill succeeds exactly if somebody has the pid: the first such process is marked killed and made runnable if it slept, and nobody else changes |
| ProcTable.PTable.Wakeup1 | proc.c:435-446 | makes runnable exactly the sleepers on the channel |
| ProcTable.PTable.SendLoop | proc.c:592-614 | one pass of the sending loop after a wakeup: the target's state is looked at only while its mailbox is full |
| ProcTable.PTable.IpcSend | proc.c:557-615 | to its return or first sleep, as SendOutcome says; so any OPEN, READ, WRITE or CLOSE of at most 128 bytes to a live, unkilled process with an empty mailbox is delivered and stands there under the sender's pid |
| ProcTable.PTable.IpcRecv | proc.c:632-664 | one pass: takes the message, empties the mailbox and wakes its senders, or sleeps on an empty one, or fails if killed |
| ProcTable.PTable.AllocProc | proc.c:41-54 | the locked part: the first unused slot becomes an embryo with the next pid, and keeps the mailbox it had |
| ProcTable.PTable.ClearMail | proc.c:56-60 | the unlocked part: the mailbox is emptied and nobody is woken |
| ProcTable.PTable.PassChildren | proc.c:227-234 | every child goes to init, and init is woken exactly if one of them is a zombie |
| ProcTable.PTable.Exit | proc.c:215-240 | empties the mailbox and wakes its senders, wakes the parent, passes the children to init, forgets the file server if it is the one that exits, and becomes a zombie |
| ProcTable.PTable.Wait | proc.c:251-289 | one pass: frees the first zombie child's slot and returns its pid, fails without children or if killed, else sleeps |
| ProcTable.PTable.Kill | proc.c:460-478 | marks the process killed and wakes it, or fails when there is none |
| Mailbox.MailIsConserved | proc.c:557-664 | in every state of every run, with forks, exits and waits: what was put in a slot's mailbox was received in order and unchanged, or dropped, or is in it, under its real sender's pid; and a received message went to another process than it was meant for exactly if its receiver had exited first |
| Mailbox.MessagesAreArguments | proc.c:557-615 | in every run, every message ever put in a mailbox, and every message of a blocked sender, is the argument of a send of that process to the process it was meant for, with the sender filled in |
| Mailbox.NoMessageTwice | proc.c:557-615 | in every run, the messages ever stored and those still to be stored are never more than the sends made |
| Mailbox.OneMessagePerZombie | proc.c:592-614 | a zombie is sent at most one message |
| Mailbox.OneSuccessUntilReaped | proc.c:592-614 | until wait reaps a process, at most one sender is told success after its exit |
| Mailbox.EarlierLateMessageIsGone | proc.c:592-614 | of two later successes the earlier message was dropped or went to a process it was not for |
| Mailbox.LiveReceiver | proc.c:592-614 | a sender blocked on a process that has not exited delivers exactly when the mailbox is empty, and is refused exactly when it is full and one of the two is killed |
| Mailbox.ExitedReceiver | proc.c:592-614 | a sender blocked on a process that has exited is told success exactly when the slot's mailbox is empty at its turn, refused exactly when it is full and the slot is a zombie's or free or one of the two is killed, and otherwise sleeps on a process it never asked for |
| Mailbox.StrandedNext | proc.c:56-60 | the only step that leaves a sender asleep on an empty mailbox is the unlocked clearing in allocproc, and it does so whenever a sender sleeps there |
| Mailbox.NoLostWakeup | proc.c:592-652 | in every run no receiver sleeps on a full mailbox, and a sender asleep on an empty one was left there by that step |
| Mailbox.SleepersRun | proc.c:592-652 | in every run, who sleeps is in wait, in the loop of receive or send on the channel of that loop, or on something else; and who sleeps for mail has none |
| DeadLetters.SecondSenderIsRefused | proc.c:592-614 | a run in which the first of two blocked senders is told success by a zombie and the second is refused |
| DeadLetters.BothSendersSucceed | proc.c:592-614 | a run in which both are told success, the zombie being reaped between their turns |
| DeadLetters.StrangerGetsTheMessage | proc.c:592-614 | a run in which the message is delivered to a process forked into the slot |
| DeadLetters.SenderIsStranded | proc.c:50-60 | a run that ends with a sender asleep on an empty mailbox |
| FsProtocol.SingleToken | sysfile.c:39-59 | each outstanding call has its request or reply in exactly one place: its own hands, the server's mailbox, the server, its mailbox |
| FsProtocol.ReplyMatches | sysfile.c:54-57 | a client only ever picks up the reply to its own request, so the mismatch branch is dead |
| FsProtocol.OnlyRepliesEndCalls | sysfile.c:39-59 | in every reachable state, every call for an OPEN, READ, WRITE or CLOSE that is over picked up a reply with the id of its request; none was refused |
| FsProtocol.CallStarts | sysfile.c:49-52 | a call takes the next id and otherwise sends what the client asks for |
| FsProtocol.IdsAreUnique | sysfile.c:49-50 | in every reachable state no two calls, over or not, have the same id |
| FsProtocol.NoCallIsLost | sysfile.c:39-59 | in every run a call made is outstanding with the same message from then on, until it is over |
| FsProtocol.ServerNeverBlocks | fsserver.c:481-495 | the server's reply is delivered at once |
| FsProtocol.SomeStepEnabled | sysfile.c:39-59 | while a call is outstanding and the server has not exited, some process can take a step |
| FsProtocol.RunLowersWork | sysfile.c:39-59 | every critical section of any process lowers one measure of work |
| FsProtocol.ServerStaysUp | fsserver.c:510-666 | in every run in which nobody asks for a SHUTDOWN the server does not exit |
| FsProtocol.EveryCallCompletes | sysfile.c:39-59 | so every schedule without new calls is finite, and where it stops with the server up every call has completed, one for an OPEN, READ, WRITE or CLOSE by picking up the reply with its id; no fairness is assumed |
| Lifecycle.ProcessLifecycle | proc.c:139-290 | in every state of every run parents are alive; a process is the child of the one that forked it, or of init once that one has exited; a parent asleep in wait has no zombie child; each exited child is reaped at most once and only after exiting; a slot being filled belongs to a process in fork |
| Blocks.ComposeBytes | fs.c:364-371 | a little-endian word is its four bytes |
| Blocks.PutWord | fs.c:364-371 | storing a word changes that word of the block and no other |
| Bitmap.OrBitTest | fs.c:60-63 | digit j of x or-ed with bit k |
| Bitmap.AndNotBitTest | fs.c:86 | digit j of x with bit k masked out |
| Bitmap.SetBit | fs.c:60-63 | setting a bit changes that bit of the block and no other |
| Bitmap.ResetBit | fs.c:81-86 | clearing a bit changes that bit of the block and no other |
| BlockMap.ExactlyOneName | fs.c:52-89 | in a well-formed file system a data block's bit is set exactly when one direct slot, indirect pointer or indirect slot names it, and no two name the same block |
| BlockMap.LinkKeepsWellFormed | fs.c:348-376 | linking a fresh block into an empty slot keeps the file system well formed |
| BlockMap.WriteKeepsWellFormed | fs.c:470-477 | writing a data block of a file keeps every name and every bit |
| BlockMap.WriteFileBlock | fs.c:470-477 | it changes that block of that file and no other block of any file |
| BlockMap.LinkFileBlock | fs.c:348-376 | it gives that slot a zeroed block and changes no block of any file |
| BlockMap.FreeOne | fs.c:390-407 | when itrunc reaches a slot the block it names is still marked |
| BlockMap.TruncKeepsWellFormed | fs.c:383-411 | freeing exactly the blocks of one inode keeps the file system well formed |
| BlockMap.TruncFileBlock | fs.c:383-411 | it takes every block of that file and no block of another |
| FileSystem.SpliceOneBlock | fs.c:470-477 | how one block write changes the bytes of a file, across block and direct/indirect boundaries |
| FileSystem.LogsSize | fs.c:453-484 | how many blocks that is at least and at most |
| FileSystem.Files.constructor | mkfs.c:82-165 | a disk of zeros with the blocks before the data marked is a valid file system of empty files |
| FileSystem.Files.FirstClear | fs.c:59-61 | the inner loop of balloc finds the first clear bit of a bitmap block |
| FileSystem.Files.Balloc | fs.c:52-72 | the lowest free block, marked and zeroed; it panics only with every block in use |
| FileSystem.Files.Bfree | fs.c:75-89 | clears the bit, and panics exactly if it is clear already |
| FileSystem.Files.Bmap | fs.c:348-376 | the address of block bn, allocated and zeroed if the file has none; it panics exactly past MAXFILE, or with every block in use; no other block of any file changes, and nothing is allocated where the block exists |
| FileSystem.Files.Itrunc | fs.c:383-411 | the file becomes empty, exactly its blocks are unmarked, no bfree panics, other files are unchanged |
| FileSystem.Files.Readi | fs.c:425-450 | -1 beyond the end or on wrap-around, otherwise exactly the slice of the file; nothing is allocated or changed |
| FileSystem.Files.Writei | fs.c:453-484 | -1 exactly outside the file or past MAXFILE blocks, otherwise the file is spliced, other files are unchanged, every file has exactly the blocks its size needs, and the inode on disk is up to date; balloc panics only with every block in use, and never in a write inside the file; the blocks it logs are those of the data and at most the bitmap, the indirect block and the inode |
| DiskInode.SetInodeAt | fs.c:202-218 | writing the 64 bytes of an inode changes that inode of the block and no other |
| DiskInode.InodeLayout | fs.h:29-36 | where each field of an inode lies in its 64 bytes: two bytes each for type, major, minor and nlink, four for the size and each address, little-endian |
| Directory.MapSet | fs.c:545-547 | using a free entry adds the name to the map and makes no duplicate |
| Directory.MapClear | sysfile.c:350-352 | clearing an entry removes its name from the map |
| Directory.SpliceEntry | fs.c:547 | writing 16 bytes at an entry sets or appends that entry |
| Directory.NameCmp | fs.c:488-493 | names compare equal exactly if they agree once cut to DIRSIZ |
| Directory.NameField | fs.c:545 | strncpy stores the name cut to DIRSIZ |
| Directory.Dirs.DirLookup | fs.c:497-521 | the map's value at the cut name with its place, or that there is none; nothing changes |
| Directory.Dirs.DirLink | fs.c:524-551 | adds the cut name to the map, or -1 exactly if it is there; no duplicates, other files unchanged |
| Directory.Dirs.ClearEntry | sysfile.c:339-352 | removes the cut name from the map, or fails exactly if it is not there; the panic of its writei is out of reach; other files unchanged |
| Path.WordFirst | fs.c:578-581 | the stretch up to the next slash is the first component |
| Path.Skipelem | fs.c:568-591 | the next non-empty component, cut to DIRSIZ, and the rest past any slashes; none exactly if there is no component left |
| Path.ParentIsPrefix | fs.c:613-616 | the parent of a path is what all but its last component leads to, if that is a directory |
| Path.Namespace.Namex | fs.c:597-629 | looking up a path is the fold of lookup over its components, for namei and nameiparent |
| ServerStore.FallBack | fsserver.c:143-166 | when a slot is dropped and its inode is again what the disk has, every file keeps its contents, and no block is lost exactly when slot and disk agreed |
| ServerStore.Format | mkfs.c:82-165 | a formatted disk: the root directory, no other inode in use, no block shared or lost |
| ServerIo.Store.constructor | fsserver.c:63-73 | the server starts in its invariant on every disk that is well formed with zeros in its free blocks |
| ServerIo.Store.UbufGet | fsserver.c:75-93 | one reference more to the buffer of the block, or to the first unreferenced one; none exactly if neither exists |
| ServerIo.Store.Ubread | fsserver.c:95-106 | the block as it is on disk; with at most one other reference held there is always a buffer |
| ServerIo.Store.Ubwrite | fsserver.c:108-110 | the disk block becomes the buffer's data |
| ServerIo.Store.Ubrelse | fsserver.c:112-114 | one reference less |
| ServerIo.Store.Balloc | fsserver.c:193-211 | the lowest free block, marked but not cleared; 0 exactly with every block in use; references balance whatever the bitmap holds |
| ServerIo.Store.Uiget | fsserver.c:122-141 | one reference more to the slot with the inode number, or to the first free slot; none exactly if neither exists; for an inode in use the file system stays sound |
| ServerIo.Store.Uilock | fsserver.c:143-160 | the slot holds the inode as the disk block has it, if it was not loaded; no file changes; the kernel panics exactly for an inode number whose block the disk does not have; references balance |
| ServerIo.Store.Uiput | fsserver.c:162-166 | one reference less; with the last one the inode falls back to what is on disk: every file keeps its contents, and no block is lost exactly when none was before and slot and disk agreed |
| ServerIo.Store.Uiupdate | fsserver.c:168-183 | the inode's 64 bytes on disk become the slot's; if they fit the file's blocks, no other inode or block changes and the file system stays sound; references balance in any case |
| ServerIo.Store.Bmap | fsserver.c:230-262 | in a sound file system as the kernel's bmap on the slot's inode, with 0 for out of range or out of blocks and no file changed then; whatever the blocks hold, only addresses of the slot change, and references balance |
| ServerIo.Store.Ureadi | fsserver.c:286-302 | in a sound file system exactly the slice of the file, and nothing allocated or changed; whatever the blocks hold, -1 or that many bytes, inside MAXFILE blocks; references balance |
| ServerIo.Store.Uwritei | fsserver.c:264-284 | in a sound file system the splice, with the inode on disk up to date if the file grew; or -1, only past MAXFILE blocks or with every block in use, with the length and every inode on disk kept and the bytes before the failing block in place; other files unchanged; whatever the blocks hold, the file does not shrink and references balance |
| ServerIo.Store.Ialloc | fsserver.c:416-434 | the first free inode gets the type and is otherwise empty, in its block on disk; 0 exactly if no inode is free, or no slot, and then the inode stays taken; references balance |
| ServerNames.FindIsMap | fsserver.c:304-319 | the first entry with a name is the map's value, where names are not repeated |
| ServerNames.SameWalk | fsserver.c:162-166 | when every file keeps its contents, every path leads where it led |
| ServerNames.DirsAfterWrite | fsserver.c:626-646 | after a write to a file the directories are sound exactly if it is not a directory, or its new bytes are whole entries of which the live ones lead to inodes in use |
| ServerNames.DirsAfterLink | fsserver.c:321-350 | so does setting one entry of a directory |
| ServerTables.SetSlot | fsserver.c:122-166 | which changes to one inode slot keep every reference count equal to the number of descriptors at the slot plus the references in hand, and every offset inside its file |
| ServerTables.FlagBits | fcntl.h:1-5 | the flags are O_WRONLY 1, O_RDWR 2 and O_CREATE 0x200 |
| ServerTables.SlotForIs | fsserver.c:122-141 | while one inode is held besides the descriptors, uiget has a slot for another exactly if that has one already, is the same, or a slot is spare |
| ServerTables.RootStays | fsserver.c:352-381 | a slot taken while the root is held leaves one for the root |
| ServerTables.LastIs | fsserver.c:471-479 | closing for a client takes the last reference of a slot exactly if the slot is open, and by that client alone |
| ServerPaths.UnameCmp | fsserver.c:53-56 | 0 exactly if the name is the field up to its first NUL |
| ServerPaths.LinkedMap | fsserver.c:321-350 | linking a new name adds it to the map and makes no duplicate |
| ServerPaths.CreatedIsFound | fsserver.c:537-581 | after OPEN has made a file for a path, in a root directory that did not have the name, the path leads to the new file exactly if it is a single name |
| ServerPaths.WalkFromRoot | fsserver.c:352-381 | if the root is the only directory, whatever a path leads to was got while the root was held |
| ServerPaths.SafeFound | fsserver.c:352-381 | so opening a file by its path leaves a slot for the root |
| Server.FileServer.constructor | fsserver.c:63-120 | the server starts in its invariant with every descriptor unused |
| Server.FileServer.Put | fsserver.c:162-166 | a reference in hand is given back; no block is lost exactly when none was before and the slot agreed with the disk or is still referenced |
| Server.FileServer.Dirlookup | fsserver.c:304-319 | in a sound file system a reference to the inode of the first entry with the name, read from the disk through the block buffers, and none exactly if there is no such entry or no slot; for arbitrary bytes in the directory no block buffer and no other reference is left over |
| Server.FileServer.Dirlink | fsserver.c:321-350 | in a sound file system -1 exactly if the name is found and has a slot; otherwise the first free entry, or a new one, leads to the inode; the server exits only if the disk is full or the directory at its largest; for arbitrary bytes no reference is left over |
| Server.FileServer.Namei | fsserver.c:352-381 | it dereferences 0 exactly if uiget has no slot for the root and the path has a component; in a sound file system it finds exactly the paths that the directories have and that there are slots for, step by step, and the slot found is the only reference left over; for arbitrary directories and inodes the tables stay sound |
| Server.FileServer.Create | fsserver.c:537-581 | on every path but the server's exit or a panic no reference is left over; in a sound file system a new file is the first free inode, empty, with one link and an entry in the root directory under the first name of the path, and no other file changed; a failure leaves at most that inode taken; the server exits only if the disk is full or the root directory at its largest |
| Server.FileServer.AllocRemoteFd | fsserver.c:448-462 | the lowest unused descriptor |
| Server.FileServer.Open | fsserver.c:534-597 | it faults exactly if uiget has no slot for the root and the path has a component; otherwise, for arbitrary directories and inodes on disk, exactly one descriptor changes, the lowest unused one, with the modes of the flags, or none with -1, and every count is right; in a sound file system it is for the file that the path leads to, as far as there are slots, or for a new one, and -1 only without a free descriptor, without O_CREATE, or for want of a slot, a free inode or a free name |
| Server.FileServer.Read | fsserver.c:599-624 | exactly the file's bytes from the descriptor's offset, at most IPC_DATA_SIZE of them, and the offset moves by as many; -1 without any change if the descriptor is not the client's or not readable; no file changes; whatever the disk holds, the tables stay sound |
| Server.FileServer.Write | fsserver.c:626-646 | the bytes are spliced in at the offset, which moves past them; -1 without any change if the descriptor is not the client's or not writable; -1 with offset and length kept and a prefix of the bytes in place, only past MAXFILE blocks or with every block in use; other files unchanged; the directories stay sound exactly if the file is not one or has sound bytes after that splice; whatever the disk holds, the tables stay sound |
| Server.FileServer.Close | fsserver.c:648-660 | exactly the client's descriptor is given up and its reference with it; every file keeps its contents; no block is lost exactly when none was before and the slot is still referenced or agreed with the disk |
| Server.FileServer.CloseAllForOwner | fsserver.c:471-479 | exactly the client's descriptors are given up; every file keeps its contents; no block is lost exactly when none was before and the slots that only this client had open agreed with the disk |
| Server.FileServer.Handle | fsserver.c:510-666 | every turn of the request loop. READ by the owner of a readable descriptor replies with the file's bytes from the offset, as many as asked for, as 128 or as there are, and moves the offset by as many; WRITE through a writable one puts up to 128 bytes at the offset and replies with their number, or -1 past MAXFILE blocks or with every block in use; CLOSE frees the descriptor; OPEN comes to what Open says; exit and shutdown close exactly the client's descriptors; anything else is refused and changes nothing. For arbitrary bytes on disk: no block buffer is held, buffers agree with the disk, live slots have distinct inodes, each slot's count is the number of descriptors at it and offsets are inside their files, before and after, and other clients' descriptors are kept; it faults exactly for an OPEN with no slot for the root. In a sound file system the directories stay sound exactly if a write to one leaves sound bytes in it, and no block is lost exactly if the slots that are given up agree with the disk |
| Server.Boot | fsserver.c:497-508 | a server started on a formatted disk is in the invariant that every turn keeps; no block is lost, no inode but the root is in use, and there is a slot for the root |
| ServerRuns.NotFull | fsserver.c:193-211 | if only one file has blocks, all of them direct, a disk with more data blocks than NDIRECT has a free one |
| ServerRuns.Crowded | fsserver.c:230-262 | a file with more than NDIRECT blocks takes at least NDIRECT + 2 |
| ServerRuns.BreakRoot | fsserver.c:510-666 | started on a formatted disk, OPEN of the root for writing and WRITE of one byte: the write succeeds, and the directories are no longer sound |
| ServerRuns.LoseBlock | fsserver.c:510-666 | started on a formatted disk with NDIRECT + 1 data blocks, OPEN of the root for writing, WRITE until the direct blocks are full, one more WRITE, which fails, and CLOSE: the directories are sound and a block is lost |
| ServerRuns.LastSlot | fsserver.c:534-597 | with one slot spare and none for the root, OPEN of a path through an open directory to a file that is not open succeeds, and the next OPEN faults |
| ServerRuns.AllTaken | fsserver.c:352-381 | a sound state, built with ialloc and the end of OPEN, in which every slot is referenced and none has the root: OPEN faults |
| RemoteIo.SysRead | sysfile.c:112-161 | for every n the chunk loop ends with the next min(n, size - off) bytes of the file, or with the full chunks that came before the server died, and moves the offset by as many; -1 exactly if nothing could be asked; no file changes |
| ReadBack.WriteThenRead | fsserver.c:510-666 | in any sound file system with two inode slots spare, any client opens any name that is not a directory's with O_CREATE, writes any message and closes, and any client opens the name and reads: the reply is the message; it fails only if every descriptor is in use, no inode is free, or the disk or the root directory is full |
| ReadBack.WalkAfterWrite | fsserver.c:626-646 | a write to a file that is not a directory leaves every path where it led |
| RemoteIo.SysWrite | sysfile.c:164-203 | the chunk loop splices all of the bytes at the offset; or its result is the bytes of the completed chunks, -1 if there is none, only when the server died, past MAXFILE blocks or with every block in use; nothing changes if the descriptor is not writable |
| RemoteIo.HasPrefix | sysfile.c:174-201 | the bytes that write reports are in the file behind the old offset |
| FreeList.ExactlyOneBlock | umalloc.c:24-90 | free and live blocks together are exactly the memory from sbrk, each unit in one block |
| FreeList.Apart | umalloc.c:24-90 | two blocks do not overlap |
| FreeList.ReplaceLinked | umalloc.c:33-42 | the pointer updates of free are all it takes to relink the ring |
| FreeList.InsertKeeps | umalloc.c:33-43 | giving a block back, joined to the neighbours it touches, keeps the ring in address order without touching neighbours and the tiling whole |
| FreeList.RemoveTiles | umalloc.c:76-77 | a block that fits exactly becomes live as it is |
| FreeList.SplitTiles | umalloc.c:78-82 | cutting a block: the lower part stays free, the upper part becomes live |
| FreeList.GrowTiles | umalloc.c:54-59 | new memory joins the tiling as one block |
| Umalloc.Units | umalloc.c:69 | the least number of header units that holds nbytes and a header |
| Umalloc.Heap.Search | umalloc.c:29-32 | the ring search of free terminates at the ring block below the freed one |
| Umalloc.Heap.Free | umalloc.c:24-44 | only the freed block leaves the live blocks, memory is unchanged, and the heap invariant holds |
| Umalloc.Heap.Lap | umalloc.c:74-86 | one lap finds a block that is large enough, or that there is none |
| Umalloc.Heap.Morecore | umalloc.c:46-61 | memory grows by exactly what sbrk gave, and then a large enough block is on the ring |
| Umalloc.Heap.Malloc | umalloc.c:63-90 | terminates, asking sbrk at most once and only if no free block is large enough; returns a fresh block with room for nbytes, or fails exactly if none is large enough and sbrk fails; the heap invariant holds |
| PageTree.PagesDisjoint | vm.c:401-429 | two user pages, of one address space or two, never share a frame |
| PageTree.TranslateIsFlat | vm.c:160-201 | following present entries from the PML4 gives exactly the flat map, for every address below 2^47, through tables whose entries are writable and for the user |
| PageTree.Attach | vm.c:197 | linking an unused page under a table keeps the tree |
| PageTree.AttachFlat | vm.c:225 | it adds one page to the flat map if the new node is a leaf, and nothing otherwise |
| PageTree.Detach | vm.c:330 | clearing a leaf's entry keeps the tree |
| PageTree.RootIn | vm.c:338-384 | every page of an address space hangs off its PML4 |
| PageCost.TablesCount | vm.c:160-201 | how many tables lie between the root and a range of pages |
| PageCost.Enough | vm.c:160-201 | and if a range has all its tables, exactly as many frames were taken as tables were missing |
| PageCost.TooFew | vm.c:160-201 | if a walk runs out of frames in the middle of a range, there were too few for the range at the start |
| PageCost.NewSpaceCost | vm.c:102-109 | in a new address space every table of a range is missing |
| Vm.UnmapFlat | vm.c:318-332 | junking a page and clearing its entry removes that page from its address space and changes no other page of any |
| Vm.Kernel.constructor | kalloc.c:25-47 | kinit1: every page above the kernel is on the free list |
| Vm.Kernel.Freerange | kalloc.c:40-47 | frees exactly the pages of the range |
| Vm.Kernel.Kalloc | kalloc.c:76-93 | pops the free list, and panics exactly when it is empty |
| Vm.Kernel.Kfree | kalloc.c:53-71 | junks and pushes the page; panics exactly outside the managed range |
| Vm.Kernel.Walk | vm.c:160-201 | the page table for an address; allocating, it takes one frame for each table that is missing, panics exactly if there are too few, and changes no user mapping; not allocating, it changes nothing |
| Vm.Kernel.Mappages | vm.c:212-232 | exactly the touched pages become the given frames with their contents; it succeeds exactly if none of them was mapped and there are as many free frames as tables missing for them |
| Vm.Kernel.Allocuvm | vm.c:278-306 | adds exactly the pages of the range, zeroed, user-writable and from the free list; no page of any space changes otherwise, and no page is lost; it succeeds exactly if none of the pages was mapped and there are as many free frames as pages and missing tables |
| Vm.Kernel.Deallocuvm | vm.c:312-334 | removes exactly the pages of the range, gives their frames back, and never panics |
| Vm.Kernel.Setupkvm | vm.c:102-109 | an address space without user pages, in one page from the free list, with the kernel's entry at 256 and no other; it panics exactly if there is none |
| Vm.Kernel.Copyuvm | vm.c:401-429 | pages 1 on of a fresh space hold equal contents with equal flags in frames that were free; nothing else changes; it succeeds exactly if those pages are mapped and there are free frames for them, for the tables above them and for the root |
| Vm.Kernel.FreeTree | vm.c:347-383 | frees a subtree bottom up, each page once, and reads no page that is already free |
| Vm.Kernel.Freevm | vm.c:338-384 | every page of the space, tables included, goes back to the free list exactly once; other spaces are unchanged |
| ShellGrammar.TokenIsWord | sh.c:298-302 | a word token is a maximal run of word characters |
| ShellGrammar.TokensOfLine | sh.c:268-311 | the tokens of a line are ts exactly if the line is ts with any runs of space, \t, \r, \n and \v before, after and between them, empty only where two tokens do not run together |
| ShellGrammar.FirstToken | sh.c:268-311 | gettoken takes the first of the tokens, with its kind and text, and leaves the others |
| ShellGrammar.LineSound | sh.c:347-449 | what parseline accepts is derived by the grammar, with that tree |
| ShellGrammar.LineComplete | sh.c:347-449 | what the grammar derives, parseline accepts with that tree, and stops behind it |
| ShellGrammar.ParsesGrammar | sh.c:330-449 | parsecmd gives a tree exactly if the grammar of commands, redirections, blocks, pipes, & and ; derives it from the tokens of the line, with fewer than ten words per command |
| ShellGrammar.PanicsOutsideGrammar | sh.c:330-449 | it panics exactly if the tokens derive nothing; and no tokens derive two trees |
| ShellGrammar.SpellingParses | sh.c:330-449 | tokens that derive a tree parse to it with any white space before, after and between them |
| ShellGrammar.RoundTrip | sh.c:330-449 | parsing the printed form of any command tree with fewer than ten words per command gives the tree back, with any white space before, after and between the tokens |
| Shell.Parser.Gettoken | sh.c:268-311 | the loops compute the token and advance the cursor past it |
| Shell.Parser.Parseredirs | sh.c:377-400 | the loop computes the grammar's redirections and terminates |
| Shell.Parser.Parseexec | sh.c:418-449 | the loop computes the grammar's command, or panics exactly where it does |
| Shell.Parser.Parseblock | sh.c:402-416 | likewise for a parenthesised line |
| Shell.Parser.Parsepipe | sh.c:364-375 | likewise for a pipe |
| Shell.Parser.Parseline | sh.c:347-362 | likewise for a line; the mutual recursion terminates |
| Shell.LineAreWords | sh.c:347-449 | every argument and file of a parsed tree is a maximal run of word characters of the line |
| Shell.Nulterminate | sh.c:451-496 | writes NULs at the ends of the tree's words and nowhere else |
| Shell.CutWord | sh.c:451-496 | with a NUL at the end of every word of the tree, each word is a string of its own |
| Shell.Parsecmd | sh.c:330-345 | the tree that the tokens of the line derive, with every argument and file a string in the buffer, exactly its token text and free of white space and symbols; a panic, exactly if they derive none, leaves the buffer alone |
| Grep.OccursEnd | grep.c:91-92 | a final $ occurs at the end of the text only |
| Grep.OccursOne | grep.c:93-94 | how a single character begins an occurrence |
| Grep.OccursStar | grep.c:98-106 | how a starred character begins an occurrence |
| Grep.ItemsRead | grep.c:84-96 | the items of a pattern are a reading of it: written out they are the pattern, no "c*" is two characters and no last "$" a character |
| Grep.OneReading | grep.c:84-96 | and they are the only reading |
| Grep.MatchHere | grep.c:84-96 | 1 exactly if the pattern's language has a string that the text continues with here |
| Grep.MatchStar | grep.c:98-106 | 1 exactly if the rest matches after some run of the starred character |
| Grep.Match | grep.c:72-82 | 1 exactly if the text contains a string of the pattern's language, at the start for a leading ^; terminates |
| PipeRing.CountersTell | pipe.c:85-116 | the 32-bit counters tell full and empty apart, and give the ring index, even after they wrap |
| PipeRing.Ring.Put | pipe.c:93 | the byte is appended to what the pipe holds |
| PipeRing.Ring.Take | pipe.c:116 | the oldest byte leaves the pipe |
| PipeRing.Ring.Read | pipe.c:113-117 | the copying loop takes as many bytes as there are, up to n, in order |
| PipeRing.Ring.Write | pipe.c:84-94 | the copying loop appends bytes until done or full |
| PipeProtocol.InvNext | pipe.c:59-121 | every step of every process keeps: bytes written are bytes read plus bytes held, in order; what a writer has put in, followed by what it has left, is its argument; a write that returned put in all of its argument, once and in order, and gives its length, or gives -1 with a part of it in, and nobody can read or it is killed; a read that returned gives the number of bytes it took; calls of a process return each once, in order |
| PipeProtocol.CallReturns | pipe.c:77-121 | a read waits only on an empty pipe that can still be written, and otherwise takes the oldest bytes, as many as it asked for or all there are; a write returns its length exactly if the rest of it fits, and waits only if it does not fit, somebody can read and it is not killed |
| PipeProtocol.CallIsKept | pipe.c:77-121 | in every run a call made with an argument is in progress with that argument from then on, until it has returned |
| PipeProtocol.QuietNext | pipe.c:59-121 | a step leaves no one asleep on a satisfied condition, except exactly when a killed writer returns on a full pipe having put bytes in while a reader sleeps |
| PipeProtocol.PipeRuns | pipe.c:59-121 | all of that for every run: conservation, writers' arguments and results always, no stranded sleeper while nobody is killed |
| PipeProtocol.KilledWriterStrandsReader | pipe.c:86-89 | a run with a kill that leaves a reader asleep beside a full pipe |

## Left out

- CrashSafety.CrashConsistency: that the operations of a group leave the file system well formed is its premise; it is what the contracts in FileSystem ensure for operations one after another, but their steps are not tied to the log's events.
- FileSystem.LogsSize: a logged data block is named by the slot that holds its address, which ownership makes its own, and an inode's block by the inode.
- Log.LogDevice.WriteLog: the clean buffers that other processes hold are those at the start; readers that come or go while the commit sleeps are not interleaved.
- Log.LogDevice.Commit: likewise.
- Log.LogDevice.EndOp: likewise; its exact condition is over the holders at the start of the commit.
- FileSystem.Files.Readi: device inodes, which go to the driver's table, are not modelled.
- FileSystem.Files.Writei: device inodes are not modelled; after a panic of balloc nothing is said about the state.
- ialloc in the kernel, and the reference counts and locks of iget, iput and ilock.
- Spin locks, sleep locks and memory ordering: each locked region is one step.
- Process identifiers do not wrap at 2^31.
- fork's copying of files and the working directory, the scheduler, and the kernel stack in allocproc.
- GroupCommit.GroupCommitSafe: which process a wakeup runs next is not modelled, only that all sleepers become runnable.
- GroupCommit.NoRunPanics: the number of buffers that others hold during a commit is a bound of the run, not the work of modelled readers.
- ServerIo.Store.Ubread: disk_request is assumed to succeed.
- ServerIo.Store.Balloc: that a new block reads as zeros needs free blocks that hold zeros, as mkfs leaves them and as the server, which frees none, keeps them; nothing else writes to the disk.
- ServerIo.Store.Uiget: after a reference to an inode that is free on disk, which only a damaged directory asks for, only the tables are known to be sound.
- ServerIo.Store.Uiupdate: for fields that do not fit the file's blocks, which the server writes only to a damaged file system, only the tables are known to be sound.
- ServerIo.Store.Ureadi: offsets whose sum with n passes 2^32 are excluded; the server's READ keeps both inside the file.
- ServerIo.Store.Uwritei: at an offset past the end of the file, which no descriptor has, only the tables are known to be sound.
- Server.FileServer.Handle: once a directory is damaged, an OPEN is known to keep the tables sound and no more; a negative nbytes in a READ or WRITE is excluded, sys_read and sys_write send none.
- ServerRuns.AllTaken: its state is not reached by requests alone; from a formatted disk they reach none while the directories are sound.
- ServerRuns.LastSlot: the subdirectory is given, because the server makes none.
- Server.FileServer.Open: after the server's exit, its fault on a missing root slot or a kernel panic nothing is said.
- RemoteIo.SysRead: the test of reply.nbytes against reply.result, which the server's replies always pass, is not modelled; the file system is assumed well formed.
- RemoteIo.SysWrite: the file system is assumed well formed.
- ReadBack.WriteThenRead: one message and a path of one name, with no other request in between.
- nameiparent, bfree and the console output of the server.
- FileIo.Filewrite: a negative n, pipes and devices.
- Umalloc.Heap.Malloc: programs are assumed to stay inside their blocks and sbrk to return header-aligned memory above the static header.
- Vm.Kernel.Kfree: a page that is on the free list already is excluded; the code does not test for it, and no caller modelled here frees a page twice.
- Vm.Kernel.Mappages: frames that are in use already are excluded; the code does not test for them, and its callers pass fresh ones.
- Vm.Kernel.Allocuvm: sizes between 2^47 and KERNBASE are excluded, because their addresses select the kernel half of the PML4.
- Vm.Kernel.Deallocuvm: old sizes above 2^47 are excluded, for the same reason.
- inituvm, loaduvm, copyout, copyin and clearpteu; the kernel's own page tables and the large pages behind entry 256.
- The branches of allocuvm, copyuvm and walkpgdir for a kalloc that returns 0, which it never does.
- The commands that the shell runs after parsing, and its built-in cd; `>>` parses to the same tree as `>`, as in the code.
- grep's line buffer: only the matcher is modelled.
- pipealloc, and freeing the pipe's page when both ends are closed.
- create, sys_link and the link counts of sys_unlink beyond the directory entry.
- Boot code, drivers, interrupts, the console, exec and system-call argument fetching.
