# Proved models of the xv6-updated kernel and schedulers

A Dafny model of the parts of this repository whose correctness is not obvious from reading one
function, with proofs about them. `dafny verify dfyconfig.toml` checks everything.

Code that changes things in place is modelled in place: classes and arrays whose methods are proved
equal to functions on values. What the repository promises is then proved of those functions, for
every input and every run. Concurrent code is a state machine whose steps are the regions under a
lock. Random numbers, the break returned by `sbrk`, whether memory is granted, and which process runs
next are parameters or free choices, so results hold for all of them.

**Crash-safe file system**

- `Blocks`: 512-byte blocks as bytes and as little-endian words.
- `LogRecovery`: the redo log as lists of block writes. A crash may fall between any two of them, also
  during recovery, any number of times.
- `LogCode`: `log.c` itself over a disk and the pinned blocks.
- `LogRuns`: any number of operations at once, group commit and crashes. `LogSim`: every call of
  `LogCode` is a path of this machine.
- `Bio`, `BioRuns`: the buffer ring with its links, and any number of cache users at once.
- `FsLayout`, `FsBlocks`, `FsFiles`, `FsTrunc`: the bitmap allocator, block mapping, byte-level reads
  and writes and truncation. A map from blocks to their one owner is the invariant.
- `FsCode`: `fs.c` itself. `FileWrite`: `filewrite` and what each of its transactions logs.
- `FsLog`: files on the log: any number of writes and truncations, each in one operation, group
  commits and crashes, and what the files hold after recovery.
- `Mkfs`: `mkfs.c`, which makes the first image. `MkfsReads`: what the kernel reads on it.

**Schedulers**

- `ExchangeSort`, `Sums`: the sort both real-time simulators share, and sums.
- `Edf`: earliest deadline first. `Rms`, `RmsResponse`, `RmsBound`: rate monotonic, its exact test
  and its utilization test. `Lottery`: lottery.

**Allocators**

- `Umalloc`: the circular free list of `umalloc.c`. Addresses count header-sized units.
- `VmPages`, `Vm`, `VmSpaces`, `VmCode`: the page pool and two-level page tables over one physical
  memory. A ghost map gives each page its one role. A page number stands for the physical and the
  kernel virtual address, which differ by a constant. `VmCount`: what free pages an operation needs.

**Processes, queues, matching**

- `Proc`, `ProcRuns`: the process table and the exit/wait protocol.
- `Pipe`, `PipeRuns`: pipes with wrapping counters. `MsgQueue`: typed messages. `Grep`: the matcher.

Seven promises turned out false of the code as it stands. The model keeps the code as it is, shows
where the promise fails, and proves the exact condition under which it holds.

- EDF with utilization at most 1 can miss deadlines shorter than the period
  (`Edf.ShortDeadlinesCanMiss`). It meets all deadlines exactly when the demand of every interval fits
  (`Edf.EdfExact`).
- The log is sized for `MAXOPBLOCKS` of 10 blocks per operation, but three operations of 10 overflow
  it. No operation panics exactly when each logs at most 9 (`LogRuns.LogSpaceExact`).
- The utilization test of RMS is said to be necessary. It is sufficient
  (`RmsBound.TestGuaranteesDeadlines`) but not necessary (`RmsBound.TestIsNotNecessary`); the exact
  test is `RmsResponse.DeadlinesExact`.
- `mkfs` with 30 files, or 62, 94 and so on, makes a root directory that claims a block it does not
  have. For every other number the image is a sound file system (`Mkfs.MkfsExact`).
- A full message queue loses its newest message when the oldest one is received
  (`MsgQueue.RecvExact`).
- A killed writer that fills a pipe can leave a reader asleep (`PipeRuns.ReaderWakeupExact`).
- `malloc` near the top of the 32-bit range returns too small a block (`Umalloc.PayloadExact`), and
  from 2^28 units on it asks `sbrk` for nothing or less and hands out memory the process does not
  have (`Umalloc.GrowthExact`, `Umalloc.Heap.Malloc`).

## Model

| member | source | states |
|---|---|---|
| `ExchangeSort.SortInPlace` | edf_premption.c:18-28 | the double loop in place computes `Sort` of the array by the key |
| `ExchangeSort.SortIsSortedPermutation` | rms_premption.c:17-27 | the result is ordered by the key and a permutation of the input |
| `Edf.TickInPlace` | edf_premption.c:40-75 | one trip of the tick loop computes `Tick` and takes one unit of time, idle or not |
| `Edf.EdfScheduling` | edf_premption.c:30-75 | whatever the table held: each row ends as a row handed in with some jobs done, arrival and deadline advanced by whole periods; and if the work of the table fits, every deadline still open lies beyond the end |
| `Edf.DemandIsNecessary` | README.md:330 | if any schedule at all meets every deadline, no interval has more work released and due in it than ticks |
| `Edf.DemandIsSufficient` | edf_premption.c:40-75 | if the demand of every interval fits, the simulator meets every deadline |
| `Edf.EdfExact` | edf_premption.c:30-75 | for any deadlines, the simulator never misses one if and only if every interval's demand fits |
| `Edf.TableExact` | edf_premption.c:36-38 | of the table as handed in: initialised, it meets every deadline if and only if the work it lists, by its own deadlines, fits every interval |
| `Edf.EdfIsOptimal` | README.md:355 | if any way of giving out the ticks meets all deadlines, so does the simulator |
| `Edf.EdfUtilizationExact` | README.md:321 | with deadlines no shorter than the period, all are met if and only if the exact utilization is at most 1 |
| `Edf.TableUtilizationExact` | edf_premption.c:36-75 | with deadlines no shorter than the period, a table handed in meets all of them if and only if its utilization is at most 1 |
| `Edf.ShortDeadlinesCanMiss` | edf_premption.c:135 | two tasks that pass the utilization test and miss a deadline |
| `Edf.DueJobsAreComplete` | edf_premption.c:54-65 | when the demand fits, every job due by the current time has been completed |
| `Rms.TickInPlace` | rms_premption.c:73-107 | one trip of the tick loop computes `Tick` and takes one unit of time |
| `Rms.RmsScheduling` | rms_premption.c:58-107 | whatever the table held: each row ends as a row handed in with some jobs done, arrivals advanced by whole periods, and the rows are in order of period |
| `Rms.PrefixRunsAlone` | rms_premption.c:73-107 | the first `k` processes evolve tick for tick as if the others were absent |
| `Rms.FirstNeverWaits` | rms_premption.c:76-101 | the first process finishes every job exactly its execution time after the arrival |
| `RmsResponse.TestSuffices` | rms_premption.c:58-107 | if one job and the demand above it fit in `x` up to the period, every job finishes within `x`, for any arrivals |
| `RmsResponse.TestNecessary` | rms_premption.c:58-107 | if the first job of a synchronous start is done by `r`, the test passes by `r` |
| `RmsResponse.ResponseExact` | rms_premption.c:58-107 | with a synchronous start, a process responds within `r` if and only if the test passes by `r` |
| `RmsResponse.DeadlinesExact` | README.md:375 | passing the test for every process is enough for all deadlines, and with a synchronous start exact |
| `RmsResponse.RmsIsOptimal` | README.md:408 | if some fixed priority order meets all deadlines of a synchronous start, the order by period does |
| `RmsResponse.TableExact` | rms_premption.c:58-71 | of the table as handed in: if its rows pass the test in some order, the simulator meets every deadline; with joint arrivals if and only if |
| `RmsBound.ProductBound` | rms_premption.c:58-107 | if the product of one plus each utilization is at most two, every deadline is met, for any arrivals |
| `RmsBound.TestGuaranteesDeadlines` | rms_premption.c:39-56 | whoever passes the utilization test over exact numbers, with the n-th root of two, meets every deadline, for any arrivals |
| `RmsBound.TableMeetsDeadlines` | rms_premption.c:39-107 | a table that passes the utilization test as handed in is never behind: at every time each row is one of the rows handed in with some jobs done, and its next deadline is ahead |
| `RmsBound.TestIsNotNecessary` | README.md:370-375 | two processes that fail the test, fill the time completely and never miss |
| `Lottery.AllocateTicketRanges` | lottery_sch_premption.c:19-30 | the loop gives each incomplete task the range after the tickets before it |
| `Lottery.CalculateTotalTickets` | lottery_sch_premption.c:33-41 | the loop sums the tickets of incomplete tasks |
| `Lottery.RangesPartition` | lottery_sch_premption.c:19-46 | each ticket from 1 to the total is in exactly one incomplete task's range, and no other ticket in any |
| `Lottery.ChancesAreTickets` | lottery_sch_premption.c:43-46 | of the possible draws, exactly as many pick a task as it has tickets in play |
| `Lottery.LotteryIsFair` | lottery_sch_premption.c:43-46 | of any full turn of the random numbers, exactly as many make a task win as it has tickets in play |
| `Lottery.Serve` | lottery_sch_premption.c:70-94 | the first incomplete task holding the ticket loses one unit, and its tickets if it completes |
| `Lottery.RoundServes` | lottery_sch_premption.c:53-104 | whatever is drawn, a round serves one task and takes one unit off the work |
| `Lottery.LotteryScheduling` | lottery_sch_premption.c:49-105 | for any ticket counts and draws the table ends as the rounds of the lottery leave it, when no tickets are left in play, and each slice went to a task holding tickets; unless tickets below zero outweigh some task, all holders are complete after the sum of their bursts, and everyone is if and only if none with work had no ticket |
| `LogRecovery.HeaderRoundTrip` | xv6-public/log.c:85-113 | reading a written header gives back the same block list |
| `LogRecovery.RecoveryRestarts` | xv6-public/log.c:69-122 | a recovery cut off after any number of writes, then run again, ends as the uninterrupted one |
| `LogRecovery.CommitIsAtomic` | xv6-public/log.c:177-202 | after any prefix of commit's writes recovery leaves home blocks exactly as before or exactly as after, by whether the header was written, and an empty log |
| `LogRecovery.CommitSurvivesCrashes` | xv6-public/log.c:69-122 | the same when recovery itself is interrupted any number of times |
| `LogRecovery.CommitCompletes` | xv6-public/log.c:192-202 | an uninterrupted commit installs the transaction and empties the log |
| `LogCode.Log.WriteLog` | xv6-public/log.c:177-190 | writes the pinned contents of the logged blocks to the log blocks, in order |
| `LogCode.Log.InstallTrans` | xv6-public/log.c:69-82 | copies the log blocks to their homes and unpins them |
| `LogCode.Log.WriteHead` | xv6-public/log.c:101-113 | writes the block list into the header block |
| `LogCode.Log.ReadHead` | xv6-public/log.c:85-96 | reads the block list from the header block |
| `LogCode.Log.RecoverFromLog` | xv6-public/log.c:115-122 | its block writes are exactly those of `Recover` |
| `LogCode.Log.Commit` | xv6-public/log.c:192-202 | its block writes are exactly `CommitWrites` of the logged blocks and their pinned contents, in that order |
| `LogCode.Log.EndOp` | xv6-public/log.c:145-174 | panics exactly during a commit; otherwise the last operation to end commits all logged blocks with their pinned contents, leaves the log empty and nothing pinned, and no commit is pending |
| `LogCode.Log.LogWrite` | xv6-public/log.c:213-233 | records a block once, pins it with its contents, leaves other cached blocks alone, and says when it panics |
| `LogRuns.NextKeeps` | xv6-public/log.c:125-233 | every step of every process, every commit write and every crash keeps the invariant |
| `LogRuns.CrashRecoversGroups` | xv6-public/log.c:115-122 | recovery from any reachable disk gives the effect of the committed groups, and of the open one exactly when its header is out |
| `LogRuns.GroupCommitIsSafe` | xv6-public/log.c:125-202 | in every reachable state a commit runs alone, and recovery gives the effect of a prefix of the groups |
| `LogRuns.EndOpNeverPanics` | xv6-public/log.c:151-152 | the panic in `end_op` is unreachable |
| `LogRuns.CommittedGroupsStay` | xv6-public/log.c:192-202 | later states only add groups, across crashes |
| `LogRuns.OneGroupPerOperation` | xv6-public/log.c:125-174 | all writes of an operation are in one group, the open one while it is outstanding |
| `LogRuns.LogSpaceExact` | xv6-public/log.c:126-141 | with 30 log blocks no run from the disk panics for space if and only if each operation logs at most 9 blocks |
| `LogRuns.AdmissionExact` | xv6-public/log.c:125-141 | an operation may begin if and only if no commit runs and 30 entries are enough should it and all outstanding ones log 10 further blocks each |
| `LogSim.Begin` | xv6-public/log.c:125-141 | admits the operation exactly when the machine of `LogRuns` can take its step, that is when no commit runs and 30 entries are enough for 10 further blocks of it and of each outstanding operation |
| `LogSim.Write` | xv6-public/log.c:213-233 | is the logging step of the machine, panics included |
| `LogSim.End` | xv6-public/log.c:145-174 | is a path of the machine from ending the operation to the end of the commit, if it was the last, and cannot panic |
| `LogSim.Reboot` | xv6-public/log.c:53-66 | after a crash at any point a new log made from the disk shows the state the machine's crash step leaves |
| `LogSim.RefusedGetsIn` | xv6-public/log.c:125-174 | from every reachable state there is a path of ending operations and commit writes, no crash among them, after which a refused operation may begin |
| `Bio.Cache.constructor` | xv6-public/bio.c:38-56 | `binit` links all 30 buffers into one ring, both ways round |
| `Bio.Cache.PushFront` | xv6-public/bio.c:134-137 | the four assignments put a buffer behind the head of the ring |
| `Bio.Cache.FindCached` | xv6-public/bio.c:69-76 | finds the first buffer in order of use that has the block |
| `Bio.Cache.FindVictim` | xv6-public/bio.c:81-91 | finds the least recently used buffer that is unreferenced and clean |
| `Bio.Cache.Get` | xv6-public/bio.c:61-93 | computes `Bget`: a reference more, or an emptied buffer, or the panic |
| `Bio.Cache.Drop` | xv6-public/bio.c:128-140 | drops a reference, and on the last moves the buffer to the front; the ring stays complete |
| `Bio.ToFrontComplete` | xv6-public/bio.c:130-138 | moving a buffer to the front keeps every buffer on the ring exactly once |
| `BioRuns.StepKeeps` | xv6-public/bio.c:61-141 | every step of every user keeps the cache invariant |
| `BioRuns.BgetPanicsExactly` | xv6-public/bio.c:92 | `bget` panics if and only if the block is in no buffer and all are referenced or dirty |
| `BioRuns.VictimIsLeastRecent` | xv6-public/bio.c:81-91 | in every run the buffer recycled is, of the unused clean ones, one whose last release is longest ago |
| `BioRuns.CacheHasRoom` | xv6-public/bio.c:81-92 | with fewer claims and dirty buffers than buffers, no `bget` panics |
| `BioRuns.ReadersExhaustCache` | xv6-public/bio.c:81-92 | the bound is sharp and what the log keeps dirty does not matter: a run to 30 users with a buffer each, nothing dirty, and a `bget` that panics |
| `BioRuns.BreadReturnsLatest` | xv6-public/bio.c:96-106 | a user for whom `bread` has returned finds the contents last given to the block it asked for |
| `BioRuns.DirtyStays` | xv6-public/bio.c:79-90 | a buffer changes its block only when clean and unused, and is cleaned only by writing it |
| `BioRuns.BlocksHaveOneBuffer` | xv6-public/bio.c:68-91 | no two buffers hold the same block of a device other than 0 |
| `BioRuns.NothingLost` | xv6-public/log.c:213-233 | what was last given to a block is on disk or pinned in a dirty buffer |
| `FsBlocks.ClaimKeeps` | xv6-public/fs.c:56-78 | a newly allocated block was owned by nobody, reads as zero, and nothing else changes |
| `FsBlocks.BmapKeeps` | xv6-public/fs.c:372-400 | mapping a block keeps ownership exact, all file contents and all inodes, and fills only the asked slot |
| `FsBlocks.BmapPresent` | xv6-public/fs.c:372-400 | a block already mapped is returned and nothing changes |
| `FsFiles.IupdateKeeps` | xv6-public/fs.c:220-236 | afterwards the disk inode equals the cached one; ownership, contents and sizes stay |
| `FsFiles.WriteInsideKeepsAddrs` | xv6-public/fs.c:493-510 | a write inside the file cannot halt and allocates nothing, so skipping `iupdate` is safe |
| `FsFiles.WriteiKeepsInv` | xv6-public/fs.c:481-511 | a write keeps exact ownership, files without holes, and the cached inode equal to the disk one |
| `FsFiles.WriteiRefinesBytes` | xv6-public/fs.c:481-511 | a write overwrites or extends the byte sequence at the offset and changes no other file; it is refused exactly past the end or beyond 71680 bytes, and halts exactly when the disk has fewer free blocks than it lacks |
| `FsFiles.ReadiRefinesBytes` | xv6-public/fs.c:452-476 | a read returns the clamped slice and changes nothing, so it never allocates |
| `FsFiles.ReadAfterWrite` | xv6-public/fs.c:452-511 | reading back what was written gives it back, across any blocks |
| `FsFiles.DeviceExact` | xv6-public/fs.c:452-488 | reads and writes go to a driver exactly for inodes of type 3 |
| `FsFiles.OwnershipExact` | xv6-public/fs.c:56-95 | a bitmap bit is set exactly for metadata and for blocks in some slot, and no block is in two slots |
| `FsFiles.WriteHaltsExactly` | xv6-public/fs.c:56-78 | a write runs into the out-of-blocks panic if and only if fewer blocks are free than the file has to grow by, the indirect block included; otherwise it takes exactly that many |
| `FsFiles.MissingIsGrowth` | xv6-public/fs.c:372-400 | what a write lacks depends only on the old size and the new end |
| `FsTrunc.BfreeOwned` | xv6-public/fs.c:81-95 | freeing an owned block cannot panic and clears only its bit |
| `FsTrunc.ItruncFreesOwnBlocks` | xv6-public/fs.c:407-435 | truncation never panics, frees exactly the blocks the inode owned, empties it, and changes no other file |
| `FsCode.FileSystem.BallocBlock` | xv6-public/fs.c:56-78 | the bitmap scan computes `Balloc` |
| `FsCode.FileSystem.BfreeBlock` | xv6-public/fs.c:81-95 | computes `Bfree` and panics when it does |
| `FsCode.FileSystem.BmapBlock` | xv6-public/fs.c:372-400 | computes `Bmap` |
| `FsCode.FileSystem.IupdateInode` | xv6-public/fs.c:220-236 | computes `Iupdate` |
| `FsCode.FileSystem.WriteiBytes` | xv6-public/fs.c:481-511 | the block loop computes `Writei`, with the same results and refusals; inodes of type 3, and no others, go to the driver with nothing changed |
| `FsCode.FileSystem.ReadiBytes` | xv6-public/fs.c:452-476 | the block loop computes `Readi`; inodes of type 3, and no others, go to the driver with nothing changed |
| `FsCode.FileSystem.ItruncInode` | xv6-public/fs.c:407-435 | the loops compute `Itrunc` |
| `FileWrite.ChunkLogsAtMostSeven` | xv6-public/file.c:133-152 | one transaction of `filewrite` logs at most 7 distinct blocks |
| `FileWrite.SmallWriteIsOneTransaction` | xv6-public/file.c:126-145 | a write of at most 1536 bytes is one `writei` in one transaction |
| `FileWrite.FilewriteRefinesBytes` | xv6-public/file.c:117-156 | the transactions together overwrite the file with a prefix of the data as long as the maximum size allows, and change no other file; they halt exactly when fewer blocks are free than the file would grow by |
| `FileWrite.File.Filewrite` | xv6-public/file.c:117-156 | the loop computes `WriteChunks`, moves the offset, and returns the length or -1 |
| `FsLog.Transfer` | xv6-public/fs.c:288-312 | the invariant and all contents survive unlocking one inode and locking another, on any disk that agrees from the inode blocks on |
| `FsLog.CallKeepsSound` | xv6-public/fs.c:407-511 | a write or truncation in a transaction leaves a sound image with the files changed as on byte sequences |
| `FsLog.NextKeeps` | xv6-public/file.c:133-152 | every step of every transaction, commit and crash keeps the disk, memory and the history of images tied together |
| `FsLog.CrashLeavesWholeWrites` | xv6-public/log.c:115-122 | wherever a crash strikes, also in recovery, the recovered disk is a sound file system whose files hold exactly the first so many completed transactions, at least the committed ones |
| `FsLog.StableWritesStay` | xv6-public/log.c:192-202 | committed transactions stay across any number of crashes |
| `FsLog.ReadersSeeAllWrites` | xv6-public/fs.c:452-476 | between transactions the buffer cache holds a sound file system with every completed write |
| `FsLog.ChunkCanBeLogged` | xv6-public/file.c:126-145 | the changes of one chunk of `filewrite` are the effect of logging at most 7 home blocks |
| `FsLog.TransactionsFit` | xv6-public/log.c:217-220 | with operations of at most 9 blocks no run of transactions on a 30-block log panics |
| `Mkfs.IappendLoop` | xv6-public/mkfs.c:256-297 | the loop computes `AppendLoop` |
| `Mkfs.LoopShows` | xv6-public/mkfs.c:256-297 | handing out blocks in order and writing the bitmap last does what `writei` with the bitmap allocator does |
| `Mkfs.IappendKeeps` | xv6-public/mkfs.c:256-297 | appending adds the bytes to the one file and keeps the image sound |
| `Mkfs.IallocKeeps` | xv6-public/mkfs.c:223-234 | a new inode is an empty file and changes no other |
| `Mkfs.MkfsExact` | xv6-public/mkfs.c:68-168 | every file's bytes are in its inode, the directory begins with the entries, the log is empty, and the image is sound if and only if the number of files is not 30 modulo 32 |
| `Mkfs.MkfsFinishesExactly` | xv6-public/mkfs.c:68-168 | it finishes if and only if inodes and blocks suffice and no file is too long |
| `Mkfs.ThirtyFilesUnsound` | xv6-public/mkfs.c:158-163 | with the parameters of the source, 30 empty files make an image that is not sound |
| `Mkfs.MkfsBoots` | xv6-public/mkfs.c:68-168 | otherwise the image is a first state for the runs of `FsLog` |
| `MkfsReads.MkfsFilesRead` | xv6-public/mkfs.c:127-156 | on any image it finishes, inode `2 + j` is a regular file: `readi` gives the clamped slice of file `j`, and neither call goes to a driver |
| `MkfsReads.MkfsRootReads` | xv6-public/mkfs.c:117-163 | inode 1 is a directory, and `readi` gives its entries in the order of the files, sound image or not |
| `Umalloc.PayloadExact` | xv6-public/umalloc.c:69 | the 32-bit unit count is enough for the bytes if and only if they are at most 2^32 - 8 |
| `Umalloc.GrowthExact` | xv6-public/umalloc.c:52-54 | the amount `sbrk` receives is the one meant if and only if it is under 2^28 units; from there on it is zero or negative, and zero exactly for 2^29 |
| `Umalloc.SbrkExact` | xv6-public/umalloc.c:54 | the process has the new units if and only if there are fewer than 2^28, and otherwise loses memory or keeps what it had |
| `Umalloc.HugeRequestGetsNothing` | xv6-public/umalloc.c:69 | a request of 2^32 - 4 bytes comes to one unit, with no byte of payload |
| `Umalloc.TwoGigabytesShrink` | xv6-public/umalloc.c:52-54 | a request of 2^31 bytes asks `sbrk` for -(2^31 - 8) bytes |
| `Umalloc.FreeSound` | xv6-public/umalloc.c:24-44 | freeing keeps the list ordered with no two adjoining blocks, and free and live blocks exactly covering the arena |
| `Umalloc.GrowSound` | xv6-public/umalloc.c:46-61 | adding new memory keeps the same, with the arena larger by it |
| `Umalloc.TakeSound` | xv6-public/umalloc.c:75-84 | cutting a block off keeps the same, with one live block more |
| `Umalloc.FreeLinked` | xv6-public/umalloc.c:33-43 | the header updates of `free` make the ring of the coalesced list |
| `Umalloc.TakeLinked` | xv6-public/umalloc.c:76-82 | the header updates of `malloc` make the ring of the shortened list |
| `Umalloc.Heap.FindPlace` | xv6-public/umalloc.c:30-32 | the search round the ring ends at the node just below the block, wherever it starts |
| `Umalloc.Heap.Free` | xv6-public/umalloc.c:24-44 | inserts and coalesces the block and keeps the heap invariant |
| `Umalloc.Heap.Morecore` | xv6-public/umalloc.c:46-61 | adds what was asked for, and never under 4096 units, at the break to the list, whatever `sbrk` made of the amount, or changes nothing when refused |
| `Umalloc.Heap.Search` | xv6-public/umalloc.c:74-88 | one trip finds the first block after `freep` that is large enough, or there is none |
| `Umalloc.Heap.Malloc` | xv6-public/umalloc.c:63-90 | for every request: a new live block of the units, or 0 exactly when no block is large enough and memory is refused; what the headers cover is what the process has, except exactly when 2^28 units or more were asked for, and then the block lies beyond the break |
| `VmCode.Machine.Kfree` | xv6-public/kalloc.c:59-77 | puts a held page on the free list inside the pages and keeps ownership exact |
| `VmCode.Machine.Kalloc` | xv6-public/kalloc.c:82-95 | takes a free page, or there is none |
| `VmCode.Machine.FreeRange` | xv6-public/kalloc.c:46-53 | frees exactly the whole pages between two addresses |
| `VmCode.Machine.WalkPgdir` | xv6-public/vm.c:35-55 | returns the table, made if asked with access left to its entries; no mapping changes |
| `VmCode.Machine.MapUser` | xv6-public/vm.c:60-80 | maps one user page, or changes nothing when no table can be had; it panics exactly on an entry in use |
| `VmCode.Machine.MapKernel` | xv6-public/vm.c:60-80 | maps a run of kernel pages to consecutive physical pages |
| `VmCode.Machine.SetupKvm` | xv6-public/vm.c:118-136 | a directory with exactly the kernel mappings out of free pages, or, if and only if fewer than 65 pages are free, every page as before |
| `VmCode.Machine.AllocUvm` | xv6-public/vm.c:221-249 | adds zeroed writable pages for the whole range, or on failure leaves none in it and, if there were none before, at most empty tables; an unmapped range fails if and only if fewer pages are free than it has pages and lacks tables, and it panics if and only if memory lasts to a page already mapped |
| `VmCode.Machine.DeallocUvm` | xv6-public/vm.c:255-279 | frees exactly the mapped pages of the range, despite skipping whole directory entries |
| `VmCode.Machine.FreeVm` | xv6-public/vm.c:283-298 | frees exactly the pages of the directory, each once, and touches no other page in use |
| `VmCode.Machine.CopyUvm` | xv6-public/vm.c:315-345 | a child with the contents and flags of the `n` pages of the parent on pages of its own, or the free pages as before; with all pages there it succeeds if and only if 65 + n + ceil(n / 1024) pages are free, and otherwise panics if and only if they last to the first missing page |
| `VmPages.FreeUser` | xv6-public/vm.c:269-276 | freeing a user page and clearing its entry keeps every page in exactly one role |
| `VmSpaces.MappedOnce` | xv6-public/vm.c:60-80 | no physical page is mapped at two user addresses of any directories, and none mapped is free or a table |
| `VmSpaces.BuiltThenFreed` | xv6-public/vm.c:342-344 | freeing a directory just built restores every page's role |
| `VmSpaces.CopyIsPrivate` | xv6-public/vm.c:325-340 | no page of the child is a page that was in use before, and those are unchanged |
| `VmSpaces.KernelIsDirectMap` | xv6-public/vm.c:105-116 | the kernel part in numbers: physical memory up to 224 MB at 2 GB, read-only between 1 MB and the data, devices at the top, nothing else |
| `Proc.AbandonAt` | xv6-public/proc.c:325-332 | the reparenting loop, whose wakeups fall in its middle, in one step for each slot |
| `Proc.ExitAt` | xv6-public/proc.c:315-336 | `exit` slot by slot: a zombie, its children now of init, and awake exactly a parent in `wait` and, if a child had exited, init |
| `Proc.Table.AllocProc` | xv6-public/proc.c:79-98 | takes the first unused slot and the next pid, or nothing |
| `Proc.Table.Wakeup1` | xv6-public/proc.c:493-501 | makes exactly the sleepers on the channel runnable and changes nothing else |
| `Proc.Table.ExitProc` | xv6-public/proc.c:315-336 | computes `Exit`: parent woken, children given to init, zombie |
| `Proc.Table.Wait` | xv6-public/proc.c:350-382 | reaps the first exited child and returns its pid; returns -1 if and only if no child has exited and the caller has none or is killed; otherwise sleeps on itself |
| `Proc.Table.KillPid` | xv6-public/proc.c:515-533 | fails if and only if nobody has the pid; otherwise the process is marked, runnable if it slept, and no other changes |
| `ProcRuns.StepKeeps` | xv6-public/proc.c:124-383 | every step of scheduler, fork, exit, wait, sleep, wakeup and kill keeps the invariant |
| `ProcRuns.ProcessTableIsSound` | xv6-public/proc.c:124-533 | in every run: nonzero pids distinct, running exactly when one CPU owns it, parents neither unused nor zombie, and whoever is asleep in `wait` has a child that has not exited and none that has |
| `ProcRuns.WaitReturnsFreshPids` | xv6-public/proc.c:358-370 | `wait` never returns a pid twice, and only positive ones |
| `ProcRuns.ForkMakesChild` | xv6-public/proc.c:240-286 | in every run, a finished `fork` leaves a runnable child of the caller with a pid nobody has and `wait` never returned |
| `ProcRuns.KilledIsAwake` | xv6-public/proc.c:515-533 | in every run, after `kill` of a nonzero pid whoever has it is marked and not asleep |
| `Pipe.Pipe.Write` | xv6-public/pipe.c:78-98 | one locked region stores as many bytes as fit and returns, fails or sleeps, through wrapping counters |
| `Pipe.Pipe.Read` | xv6-public/pipe.c:100-121 | one locked region delivers the oldest bytes up to the request, or sleeps or fails on an empty pipe |
| `Pipe.CountersTell` | xv6-public/pipe.c:85-116 | counters modulo 2^32 at most 512 apart tell empty and full apart and index the right slot |
| `PipeRuns.StepKeeps` | xv6-public/pipe.c:59-121 | every step of every reader, writer and closer keeps the invariant |
| `PipeRuns.PipeIsFifo` | xv6-public/pipe.c:59-121 | in every run delivered is a prefix of stored with at most 512 waiting, each writer's bytes in its own order, and writers sleep only on a full pipe with its read end open |
| `PipeRuns.CallsEndRightly` | xv6-public/pipe.c:78-121 | in every run a killed process never sleeps on the pipe, and a writer is done before its last byte only if killed or with the read end closed |
| `PipeRuns.ReadsDeliver` | xv6-public/pipe.c:100-121 | in every run a read delivers the oldest waiting bytes, as many as asked for or there are, and sleeps exactly on an empty open pipe when not killed |
| `PipeRuns.WritesStore` | xv6-public/pipe.c:78-98 | in every run a write stores the next bytes up to 512 waiting, and sleeps exactly when some are left, the read end is open and it is not killed |
| `PipeRuns.ReaderWakeupExact` | xv6-public/pipe.c:86-95 | a step strands a sleeping reader if and only if a writer that stored something leaves by the early return |
| `PipeRuns.ReadersNeverStranded` | xv6-public/pipe.c:100-112 | in a run without such a step readers sleep only on an empty pipe with its write end open |
| `PipeRuns.ReadersExact` | xv6-public/pipe.c:78-112 | over a whole run: readers sleep only on an empty pipe with its write end open if and only if no such step occurs |
| `PipeRuns.ReaderCanBeStranded` | xv6-public/pipe.c:86-89 | a run that leaves a reader asleep before 512 bytes |
| `PipeRuns.CloseIsFinal` | xv6-public/pipe.c:59-75 | once an end is closed nobody is asleep on the other side again: readers return at once with what is left, writers never wait |
| `MsgQueue.SafeStrCpy` | xv6-public/string.c:82-94 | copies the string up to 31 bytes, terminated, and leaves the bytes behind it |
| `MsgQueue.ClipStored` | xv6-public/sysproc.c:179 | a stored message is received as it was stored |
| `MsgQueue.Queue.Send` | xv6-public/sysproc.c:135-160 | appends the message, or fails on a full queue |
| `MsgQueue.Queue.Shift` | xv6-public/sysproc.c:182-184 | the wrapping loop moves every slot from the index up to the tail by one |
| `MsgQueue.Queue.Recv` | xv6-public/sysproc.c:163-195 | hands out the oldest match and leaves the list `RecvLeaves` gives |
| `MsgQueue.RecvExact` | xv6-public/sysproc.c:175-191 | the oldest match is removed and the rest kept in order, except exactly on a full queue with the match in slot head and messages not all the same |
| `MsgQueue.RecvCanDropTheNewest` | xv6-public/sysproc.c:182-186 | a full queue that keeps the received message and loses the newest |
| `MsgQueue.RunCanDropTheNewest` | xv6-public/sysproc.c:135-195 | 64 sends and one receive that reach such a queue: the run agrees with a list up to there and no longer |
| `MsgQueue.RunExact` | xv6-public/sysproc.c:135-195 | a run agrees with a list of at most 64 messages after every call if and only if no receive wraps |
| `MsgQueue.TypeIsFifo` | xv6-public/sysproc.c:135-195 | while none wraps, what was sent of a type is what was received followed by what waits |
| `Grep.MatchHere` | xv6-public/grep.c:85-96 | true exactly when the text begins with a word of the pattern's language, to its end if anchored |
| `Grep.MatchStar` | xv6-public/grep.c:99-106 | true exactly when some fitting prefix is followed by a match of the rest |
| `Grep.Match` | xv6-public/grep.c:72-82 | true exactly when some start, or only the first after a leading caret, begins a word of the pattern |
| `Grep.PlainIsSubstring` | xv6-public/grep.c:72-106 | a pattern of ordinary characters matches exactly the texts that contain it |
| `Grep.DotsCountCharacters` | xv6-public/grep.c:93-94 | a pattern of `n` dots matches exactly the texts of at least `n` characters |

## Left out

- File names, directories, link counts: path code in `fs.c` and `sysfile.c`. Counting links exactly
  needs exclusions that outweigh its value.
- `sys_copy`, shared memory and signal handlers: as written they deadlock, hit a panic, or run foreign
  code with the lock dropped.
- Device inodes: `readi` and `writei` hand them to drivers. The model says only that they do.
- Port I/O, interrupts, booting, spinlock memory ordering, context switches, system call arguments,
  the shell, small user programs: hardware or plumbing.
- The read loop of `grep`, the printed averages: output only.
- Wrap-around of the pid counter after 2^31 forks: pids are unbounded numbers here.
- LogSpaceExact: is for a log of 30 blocks, the size `mkfs.c` makes, on a disk with room for the blocks it logs.
- ChunkLogsAtMostSeven: is for images whose bitmap is one block, up to 4096 blocks. `mkfs.c` makes 1000.
- FilewriteRefinesBytes: other writers to the same file between two transactions are not modelled.
- WriteiRefinesBytes: the offset check of the code also refuses sums that wrap past 2^32; both refusals are one outcome.
- Malloc: the single loop of the source is its two trips here, before and after `morecore`.
- MapUser: is `mappages` for one user page; with `MapKernel` it covers every way `mappages` is called.
- MapKernel: is `mappages` for a run of kernel pages.
- TestGuaranteesDeadlines: is over exact numbers; the rounding of the program's floats is not modelled.
- RmsIsOptimal: is for processes that arrive together, where the fixed-priority test is exact.
- LotteryScheduling: if tickets below zero outweigh some task, it says when the loop ends, not which holders are complete.
- CrashLeavesWholeWrites: the transactions of different processes share a group but do not interleave block by block.
- MakeImage: the loop of `iappend` is a loop here; the rest works on image values, not on a file it seeks in.
- MkfsExact: is for images of under 4096 blocks, the limit `balloc` asserts. Where blocks or inodes run out, `mkfs.c` has no check; the model stops there.
- CopyUvm: takes sizes up to the kernel base, as process sizes are.
- ProcessTableIsSound: the scheduler may pick any runnable process, not only the next in the table.
