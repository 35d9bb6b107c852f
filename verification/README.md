# Verified models of qi-os

This project models the hard parts of qi-os, a small x86-64 operating system written in Rust, and proves
what they promise. The models follow the code branch by branch; code that changes state is modelled by
methods and classes that change state, each proved against a specification function, and the theorems are
about those functions.

| part | modules |
|---|---|
| FAT32 driver: chains, volume bytes, files, directories | `Bytes`, `FatChains`, `FatVolume`, `FatEntry`, `Fat32Driver`, `FatDirectory`, `FatFiles`, `FatFree`, `FatSystem` |
| Calendar: RTC time to Unix time to packed FAT date | `Calendar` |
| Xiangqi rules engine and game safety | `XiangqiPosition`, `XiangqiRules`, `XiangqiLaws`, `XiangqiGame`, `XiangqiSafety`, `XiangqiVerdict`, `XiangqiPlay` |
| Scheduler, timer, sleepers, fairness | `Scheduler`, `SchedulerSleep`, `SchedulerFairness`, `SchedulerKernel`, `SchedulerOverrun` |
| IRQ lock | `IrqLock` |
| Pipes: order, conservation, wake-ups | `Pipe`, `PipeWakeups`, `PipeKernel`, `PipeLostWakeup` |
| Physical frames and program loading | `FrameAllocator`, `ElfLoader` |
| Terminal buffer, repaint, drawing | `Terminal`, `TerminalDisplay`, `Graphics` |
| Path resolution through the entry cache | `Paths`, `DentryCache` |
| Types shared by all | `Wrappers` |

`dafny verify dfyconfig.toml` checks everything.

## Main results

- **Files.** On a well-formed volume a write splices the buffer into the file, a read returns the result,
  and every other file keeps its chain and bytes (`Fat32.WriteBuffer`, `WriteThenRead`, `OtherFileKept`).
  Over any run of creating, writing and deleting, the bytes of the volume refine a map from directory slots to
  files (`FatSystem.RunRefines`).
  Over any run of allocations, extensions and frees chains stay acyclic and disjoint (`FatChains.Run`), and
  freeing what was allocated restores the volume byte for byte (`FreeAfterLink`).
- **Games.** Legality, check and the general lookup are defined through one another; every board of every
  game keeps one general a side, at home, and no accepted move captures a general (`GameSafe`,
  `NoGeneralCaptured`, `PlayPanicsOnlyOffArray`). What each piece may do is stated in rows, columns and occupied
  squares (`XiangqiLaws`), and what a move is answered in attacked generals and accepted moves (`PlayExact`).
- **Threads.** In every run the ready queue holds exactly the ready threads, and a thread at index k runs
  within (k + 1) * 100 ticks (`Scheduler.ReachableOk`, `BoundedWaiting`). Sleepers wake at the first tick that is
  due and not before (`TimerWakes`, `NobodyOversleeps`). The interrupt-disable counter is
  the number of live guards, and scheduling while atomic happens exactly when the caller of the scheduler
  holds one (`IrqLock.ReachableOk`, `NeverAtomic`).
- **Pipes.** In every interleaving no wake-up is lost, chunks stay whole, and bytes are conserved exactly when
  no read meets a queue longer than its buffer (`PipeWakeups.ReachableOk`). Calls end when they should and return
  what they moved (`WriteEnds`, `ReadEnds`).
- **Frames, images, dates, pictures and paths.** Lowest good frame and hand-off (`NextFrame`, `HandOff`), exact
  ELF image (`ElfImage`), inverse calendars (`DecodeEncode`, `CountRecovered`), fast fills and the scroll buffer
  against simple forms (`FillContiguous`, `TerminalShowsPage`), cached against uncached lookup (`FindAll`).

## Where the code falls short of the obvious statement

Each of these is a theorem with the exact condition, or a concrete witness:

- Deleting an empty file frees reserved table entry 0 (`DeleteKeepsReserved`), and deleting a second one then
  never ends (`SecondDeletionHangs`, `ZeroExact`, `DeleteAt`).
- A write that runs out of clusters panics with every free cluster linked into a chain of no file
  (`Fat32.WriteBuffer`, `UsedUpKeeps`).
- `write_buffer` reports one byte more than it wrote (`Fat32.WriteBuffer`); the free scan ends two clusters
  early (`Fat32.GetFreeCluster`).
- A created file is found again exactly under a good 8.3 name (`NameRoundTrip`, `CreateThenFind`), and a name
  cut to eight characters can hide an older entry (`ShadowExact`).
- Elephants may go any diagonal distance of two or more, past whatever stands on the diagonal
  (`DiagonalsAlongFile`, `ElephantOverreach`, `CandidatesComplete`), and a general can never step back
  (`GeneralNeverRetreats`). A game can be declared lost although a long elephant move would be accepted
  (`VerdictExact`, `WrongVerdict`).
- More than 15 sleepers due at one tick overrun an array (`Scheduler.StepInv`, `SleepersDue`).
- A pipe read drops a byte when the queue is longer than its buffer (`ReadFifo`), and one with an empty
  buffer loses a wake-up (`EmptyReadLosesWakeup`).
- The date decoding wraps past the 32-bit day count (`DecodeEncode`) and the packed year outside 1980 to 2107
  (`DateUnpacks`).
- The bootloader issues a frame twice exactly when usable regions meet inside a page (`BootRepeatsExact`,
  `BootRepeats`); the hand-off to the kernel is sound all the same.
- One repaint after several lines can leave a stale row on the screen (`DisplayExact`, `LineLost`).
- Cached entries are never dropped, so a deleted file is still found (`FindAgain`, `StaleExact`).
- The full path of anything below a mount other than the root loses the mount point (`FullPathExact`,
  `Reopen`), and a name that ends in white space cannot be reopened by its path (`Reopen`).

## Model

| member | source | states |
|---|---|---|
| FatChains.ChainDistinct | kernel/src/fs/fat.rs:208-222 | every walk through the table that ends in an end-of-chain mark visits no cluster twice, so walks terminate |
| FatChains.ChainUnique | kernel/src/fs/fat.rs:393-403 | a chain is determined by its first cluster |
| FatChains.FreeListComplete | kernel/src/fs/fat.rs:424-436 | the first-fit scan misses no free cluster of the window it scans |
| FatChains.LinkIsChain | kernel/src/fs/fat.rs:438-461 | linking free clusters in order makes a chain that starts at the first and ends in an end-of-chain mark |
| FatChains.UnlinkLink | kernel/src/fs/fat.rs:438-470 | freeing what was just allocated gives back the same table |
| FatChains.LinkTakes | kernel/src/fs/fat.rs:438-461 | each round of the allocator finds the next of the clusters that were free before the first round |
| FatChains.ExtendIsChain | kernel/src/fs/fat.rs:578-604 | hanging freshly linked clusters behind the last cluster of a chain extends that chain |
| FatChains.StepKeepsChains | kernel/src/fs/fat.rs:438-470 | each allocation, extension or freeing, also one that panics half way, keeps all chains acyclic, pairwise disjoint and ended |
| FatChains.Run | kernel/src/fs/fat.rs:407-470 | over any run of allocations, extensions and frees, panicking ones included, all chains stay acyclic, pairwise disjoint and ended |
| FatVolume.GeometryOf | kernel/src/fs/fat.rs:283-294 | the geometry read from a well-formed parameter block places table and data area inside the volume |
| FatVolume.LayoutExact | kernel/src/fs/fat.rs:268-294 | in terms of the parameter block: entry 0 follows the reserved sectors, the sectors from there to cluster 2 are exactly those of the copies of the table, clusters follow each other, and no further one fits |
| FatVolume.CopiesKept | kernel/src/fs/fat.rs:407-422 | a change of table entries and clusters keeps the reserved sectors and every other copy of the table |
| FatVolume.LbaOfCluster | kernel/src/fs/fat.rs:268-270 | the sector number computed for a cluster is where the cluster starts |
| FatVolume.ClustersApart | kernel/src/fs/fat.rs:268-270 | different clusters occupy disjoint byte ranges |
| FatVolume.EntrySector | kernel/src/fs/fat.rs:272-281 | sector and offset computed for a table entry locate its four bytes inside one sector |
| FatVolume.PatchSector | kernel/src/fs/fat.rs:407-422 | read, patch, write back of one sector changes exactly the 28 value bits of one entry |
| FatVolume.PutEntryFat | kernel/src/fs/fat.rs:407-422 | storing an entry changes that entry of the table and no other |
| FatVolume.SameFatSameDisk | kernel/src/fs/fat.rs:407-422 | table contents and the bits outside it determine every byte of the volume |
| FatVolume.LinkDiskFat | kernel/src/fs/fat.rs:438-461 | linking on disk is linking in the table |
| FatVolume.LinkDiskSame | kernel/src/fs/fat.rs:438-461 | linking touches nothing but the value bits of the table, reserved bits included |
| FatVolume.FreeDiskFat | kernel/src/fs/fat.rs:463-470 | freeing on disk is freeing in the table |
| FatVolume.FreeDiskSame | kernel/src/fs/fat.rs:463-470 | freeing touches nothing but the value bits of the table |
| FatVolume.FreeAfterLink | kernel/src/fs/fat.rs:438-470 | allocating a chain and freeing it restores the volume byte for byte, the reserved top four bits included |
| FatVolume.PutDataCluster | kernel/src/fs/fat.rs:480-555 | a write inside one cluster changes the bytes of that cluster only |
| FatVolume.PutDataFat | kernel/src/fs/fat.rs:480-555 | a write inside a cluster does not touch the table |
| FatVolume.PutDataFlat | kernel/src/fs/fat.rs:557-633 | a write into the j-th cluster of a chain is a write at the matching position of the bytes of the chain |
| FatVolume.PutDataOutside | kernel/src/fs/fat.rs:480-555 | a write inside a cluster keeps every byte outside the clusters: reserved sectors, other copies of the table, reserved bits |
| FatVolume.SameTableSameDisk | kernel/src/fs/fat.rs:463-470 | two changes of one table that give the same table give the same volume, byte for byte |
| FatVolume.FatChangeKeepsCluster | kernel/src/fs/fat.rs:407-422 | changing the table changes no data cluster |
| FatEntry.DirEntry.SetFirstCluster | kernel/src/fs/fat.rs:155-158 | the two halves stored give the first cluster back |
| FatEntry.ParseSerialize | kernel/src/fs/fat.rs:109-145 | a directory entry read back from its 32 stored bytes is the entry that was stored |
| FatEntry.EntryLayout | kernel/src/fs/fat.rs:109-145 | each field lies at its offset in the on-disk entry, low byte first |
| Bytes.LittleEndian | kernel/src/fs/fat.rs:393-422 | four stored bytes are read lowest first |
| Fat32Driver.Fat32.constructor | kernel/src/fs/fat.rs:283-294 | a driver with the layout its parameter block gives |
| Fat32Driver.Fat32.GetNextCluster | kernel/src/fs/fat.rs:393-403 | reads the 28-bit entry of a cluster |
| Fat32Driver.Fat32.LinkClusters | kernel/src/fs/fat.rs:407-422 | the volume differs from before in one entry, whose reserved bits are kept |
| Fat32Driver.Fat32.GetFreeCluster | kernel/src/fs/fat.rs:424-436 | the lowest free cluster of the scanned window, or none exactly when it has none; the window ends two clusters early |
| Fat32Driver.FreeExact | kernel/src/fs/fat.rs:424-436 | the clusters to be had are exactly the free ones behind the root cluster and before the last two of the volume, in ascending order |
| Fat32Driver.Fat32.AllocClusters | kernel/src/fs/fat.rs:438-461 | links the n lowest free clusters and returns the first; panics exactly when there are fewer; asks for none, gets none |
| Fat32Driver.Fat32.WriteCluster | kernel/src/fs/fat.rs:472-555 | head, middle and tail sector writes are one overwrite at the cluster offset, every other byte of the disk unchanged |
| Fat32Driver.Fat32.UpdateDir | kernel/src/fs/fat.rs:635-643 | stores the entry at its place in the directory and changes nothing else |
| Fat32Driver.Fat32.ReadBuffer | kernel/src/fs/fat.rs:296-325 | copies the first bytes of the file, as many as buffer and size allow, leaves the rest of the buffer and the disk alone |
| Fat32Driver.Fat32.WalkTo | kernel/src/fs/fat.rs:568-576 | stands on the wanted cluster of the chain, or past its end, with the cluster before it at hand |
| Fat32Driver.Fat32.FindEnd | kernel/src/fs/fat.rs:584-593 | finds the last cluster of a chain |
| Fat32Driver.Fat32.WriteData | kernel/src/fs/fat.rs:612-625 | the chunked write loop is one overwrite of the bytes of the chain; returns one byte too many; other chains untouched |
| Fat32Driver.Fat32.ExtendChain | kernel/src/fs/fat.rs:578-604 | adds the lowest free clusters behind the chain, or gives an empty file its first cluster; panics exactly when too few are free, and has then linked all of them |
| Fat32Driver.Fat32.PrepareChain | kernel/src/fs/fat.rs:557-610 | the chain becomes long enough for the write and the driver stands on the cluster of the offset; panics exactly when too few clusters are free, with all of them linked |
| Fat32Driver.Fat32.WriteBuffer | kernel/src/fs/fat.rs:557-633 | the content becomes the old content overwritten and extended by the buffer, size and chain follow, every other byte of the volume is kept; panics exactly when too few clusters are free, with all of them linked |
| Fat32Driver.WriteFits | kernel/src/fs/fat.rs:557-604 | the extended chain holds the write and is exactly as long as the new size needs |
| Fat32Driver.WrittenFacts | kernel/src/fs/fat.rs:557-643 | allocation, data copy and entry update together give the spliced file and keep everything outside it |
| Fat32Driver.WrittenContent | kernel/src/fs/fat.rs:557-633 | a write at an offset inside the file splices the buffer into its content |
| Fat32Driver.WrittenRest | kernel/src/fs/fat.rs:557-643 | clusters and table entries outside the file and its directory slot keep their values, and so does every byte outside table and clusters |
| FatDirectory.SplitFirst | kernel/src/fs/fat.rs:327-334 | both parts around the first dot, which together give the name back |
| FatDirectory.SplitLast | kernel/src/fs/fat.rs:777-800 | both parts around the last dot, which together give the name back |
| FatDirectory.NameRoundTrip | kernel/src/fs/fat.rs:327-341 | a name matches the entry stored for it exactly when it is a good 8.3 name: one dot at most, parts that fit, no trailing blanks |
| FatDirectory.FieldExact | kernel/src/fs/fat.rs:336-341 | a part of a name matches a field exactly when the field holds its characters in capitals, then blanks |
| FatDirectory.CaseBlind | kernel/src/fs/fat.rs:327-341 | names that differ only in the case of letters match the same entries |
| FatDirectory.StoredExact | kernel/src/fs/fat.rs:777-805 | what is stored: each part in capitals, cut to its field, then blanks; never a small letter, every other character unchanged |
| FatDirectory.SameMatches | kernel/src/fs/fat.rs:327-341 | names that match one entry in common match the same entries |
| FatDirectory.ReadSlots | kernel/src/fs/fat.rs:353-391 | lists the live slots of a cluster with their places, up to the end mark |
| FatDirectory.ReadDirFromCluster | kernel/src/fs/fat.rs:353-391 | lists the live entries of the whole directory chain in order |
| FatDirectory.Find | kernel/src/fs/fat.rs:343-351 | the first listed entry that matches the name, or none |
| FatDirectory.FirstMatchExact | kernel/src/fs/fat.rs:343-351 | of several matching entries a lookup finds the first in the listing |
| FatDirectory.ScanSlots | kernel/src/fs/fat.rs:645-672 | the first free or deleted slot of a cluster, or none |
| FatDirectory.GetFreeDirentPos | kernel/src/fs/fat.rs:645-672 | the first free slot of the directory chain, or none exactly when it is full |
| FatDirectory.FreePositionExact | kernel/src/fs/fat.rs:645-672 | the place for a new entry is the first slot of the directory that is unused or deleted; there is none exactly when every slot is taken |
| FatDirectory.CreateFile | kernel/src/fs/fat.rs:777-816 | stores the new entry in the first free slot; panics, with the disk untouched, exactly when there is none or the extension is too long |
| FatDirectory.DirFilled | kernel/src/fs/fat.rs:645-672 | filling the first free slot inserts one entry into the listing and moves no other |
| FatDirectory.CreateThenFind | kernel/src/fs/fat.rs:327-391 | after creation under a name nothing matches, that name finds the new entry at its place exactly when it is a good visible 8.3 name; every name that does not match the stored entry finds what it found before |
| FatDirectory.FindAfterCreate | kernel/src/fs/fat.rs:327-391 | after any creation under a visible name, a lookup finds the new entry exactly when it matches and nothing before the filled slot does, and what it found before otherwise |
| FatDirectory.ShadowExact | kernel/src/fs/fat.rs:327-391 | a new entry hides an older one exactly when the name looked up matches the new one and the older one stands behind it |
| FatFiles.OtherFileKept | kernel/src/fs/fat.rs:557-643 | a write leaves the chain and the bytes of every other file alone, its chain stays disjoint from the grown one and its entry well placed |
| FatFiles.WriteThenRead | kernel/src/fs/fat.rs:296-325 | a read after a write returns a prefix of the old content spliced with the buffer |
| FatFiles.DeletedFacts | kernel/src/fs/fat.rs:838-842 | deletion changes only the freed entries and one directory slot |
| FatFiles.DeleteKeepsReserved | kernel/src/fs/fat.rs:838-842 | deletion keeps reserved entry 0 exactly when the file has a first cluster; deleting an empty file frees entry 0 |
| FatFiles.OtherFileSurvives | kernel/src/fs/fat.rs:838-842 | deleting a non-empty file frees its clusters and keeps chain and bytes of every other file |
| FatFiles.AllocIsStep | kernel/src/fs/fat.rs:438-461 | the allocator does to the table what the abstract allocation does, panicking or not |
| FatFiles.ExtendIsStep | kernel/src/fs/fat.rs:578-604 | extending a file does to the table what the abstract extension, or for an empty file the allocation, does, panicking or not |
| FatFiles.FreeIsStep | kernel/src/fs/fat.rs:463-470 | freeing a chain does to the table what the abstract freeing does |
| FatFree.LoopExact | kernel/src/fs/fat.rs:463-470 | on any table the simulated loop ends exactly when some number of turns reaches an end-of-chain mark, and leaves the table exactly when some number of turns does |
| FatFree.WalkEnds | kernel/src/fs/fat.rs:463-470 | on a walk the loop ends with exactly the walk freed |
| FatFree.ZeroExact | kernel/src/fs/fat.rs:463-470 | from entry 0, where deleting an empty file starts, the loop ends exactly when entry 0 heads a walk |
| FatFree.CycleEnds | kernel/src/fs/fat.rs:463-470 | a concrete two-cluster cycle on which the loop ends although there is no walk |
| FatFree.WalkFreed | kernel/src/fs/fat.rs:463-470 | from the head of a walk the loop leaves the volume with the walk freed, byte for byte |
| FatFree.FreeFrom | kernel/src/fs/fat.rs:463-470 | from any start on any table the loop ends, runs for ever or leaves the table as its simulation does, with that table and nothing else changed |
| FatFree.DeleteFile | kernel/src/fs/fat.rs:838-842 | for any entry and table, marks the entry deleted exactly when the loop ends; along a walk the result is that walk freed and one slot changed |
| FatFree.SecondDeletionHangs | kernel/src/fs/fat.rs:838-842 | after one empty file is deleted, deleting another never ends |
| FatSystem.CreateKeeps | kernel/src/fs/fat.rs:777-816 | creating a file keeps the volume good and adds one empty file to the map of files |
| FatSystem.WriteKeeps | kernel/src/fs/fat.rs:557-643 | writing a file keeps the volume good and overwrites the bytes of that one file |
| FatSystem.DeleteKeeps | kernel/src/fs/fat.rs:838-842 | deleting a file keeps the volume good and removes that one file from the map |
| FatSystem.StepRefines | kernel/src/fs/fat.rs:557-842 | each operation does to the volume what it does to the map from directory slots to files |
| FatSystem.RunRefines | kernel/src/fs/fat.rs:557-842 | over any run of creating, writing and deleting, the volume stays good and refines the map of files |
| FatSystem.UsedUpKeeps | kernel/src/fs/fat.rs:438-461 | a write that panics for want of clusters leaves a good volume with the same files and no free cluster |
| FatSystem.NoFiles | kernel/src/fs/fat.rs:353-391 | a directory without live slots means a volume without files |
| FatSystem.FoundIsFile | kernel/src/fs/fat.rs:343-351 | what a lookup finds is a file of the map, with its entry as stored |
| FatSystem.FileListed | kernel/src/fs/fat.rs:353-391 | the directory lists every file of the map |
| FatSystem.FindComplete | kernel/src/fs/fat.rs:343-391 | a lookup comes back empty exactly when no file of the map matches the name |
| FatSystem.FileSystem.constructor | kernel/src/fs/fat.rs:283-294 | a driver over a good volume |
| FatSystem.FileSystem.CreateIn | kernel/src/fs/fat.rs:777-816 | the driver call is the creation step of the state machine, or panics with nothing changed, exactly when the directory is full or the extension too long |
| FatSystem.FileSystem.WriteAt | kernel/src/fs/fat.rs:557-643 | the driver call is the write step of the state machine, and returns the entry as stored; it panics exactly when too few clusters are free, with every file unchanged and no free cluster left |
| FatSystem.FileSystem.ReadAt | kernel/src/fs/fat.rs:296-325 | the driver call copies the first bytes of the file of the map and changes nothing |
| FatSystem.FileSystem.DeleteAt | kernel/src/fs/fat.rs:838-842 | the driver call is the deletion step of the state machine; it never ends exactly when the file is empty and entry 0 was freed before, with nothing changed |
| Calendar.AsUnixTimestamp | kernel/src/driver/cmos.rs:60-84 | the loops over years and months count the seconds since 1970 |
| Calendar.CountsSeconds | kernel/src/driver/cmos.rs:60-84 | the count is 0 at the start of 1970 and grows by 86400 from any day of the Gregorian calendar to the next |
| Calendar.DayNumberClosed | kernel/src/driver/cmos.rs:65-80 | counting days by loops agrees with the March-based closed form on every date from 1970 on |
| Calendar.YearFound | kernel/src/fs/fat.rs:241-243 | the year-of-era formula finds the year of every day of the 400-year era |
| Calendar.YearCovers | kernel/src/fs/fat.rs:241-244 | every day of the era falls in the year found, on a day that year has |
| Calendar.DateRecovered | kernel/src/fs/fat.rs:236-248 | decoding the day count of a real date gives the date back |
| Calendar.CountRecovered | kernel/src/fs/fat.rs:236-248 | encoding the date decoded from any day count gives the count back, so decoding is one-to-one |
| Calendar.DecodeEncode | kernel/src/fs/fat.rs:224-258 | decoding recovers all six fields of every encoded date-time exactly while the shifted day count fits a 32-bit integer |
| Calendar.CastExact | kernel/src/fs/fat.rs:224-258 | the cast of the day count keeps its value modulo two to the 32 |
| Calendar.PackedYear | kernel/src/fs/fat.rs:250-258 | whatever the year, the packed date holds its distance from 1980 modulo 128 |
| Calendar.TimeUnpacks | kernel/src/fs/fat.rs:227-232 | the packed time fits 16 bits and unpacks to hour, minute and half second count |
| Calendar.DateUnpacks | kernel/src/fs/fat.rs:249-257 | the packed date unpacks to the same date exactly for years 1980 to 2107 |
| XiangqiPosition.OrthogonalsTo | userland/games/xiangqi-engine/engine/src/position.rs:132-159 | the accumulating loop lists the straight walk from one square to another |
| XiangqiPosition.DiagonalsTo | userland/games/xiangqi-engine/engine/src/position.rs:161-190 | the accumulating loop lists the squares it really visits, which advance one coordinate only |
| XiangqiPosition.OrthogonalsOnBoard | userland/games/xiangqi-engine/engine/src/position.rs:132-159 | a straight walk on the board visits exactly the squares of the segment other than its start, ends at its target, never leaves the board |
| XiangqiPosition.DiagonalsAlongFile | userland/games/xiangqi-engine/engine/src/position.rs:161-190 | the squares the elephant rule inspects lie on its own file, not on the diagonal |
| XiangqiRules.ScanForGeneral | userland/games/xiangqi-engine/engine/src/piece.rs:157-173 | decides whether the walk meets a general before any other piece |
| XiangqiRules.CountOn | userland/games/xiangqi-engine/engine/src/piece.rs:209-217 | counts the pieces standing on a walk |
| XiangqiRules.IsLegalMove | userland/games/xiangqi-engine/engine/src/piece.rs:146-339 | the rules of all seven pieces, decided as the rule predicate says |
| XiangqiLaws.RookLaw | userland/games/xiangqi-engine/engine/src/piece.rs:234-250 | a rook goes along a row or column with no occupied square strictly between |
| XiangqiLaws.CannonLaw | userland/games/xiangqi-engine/engine/src/piece.rs:204-232 | a cannon captures over exactly one occupied square and otherwise goes over none |
| XiangqiLaws.HorseLaw | userland/games/xiangqi-engine/engine/src/piece.rs:252-295 | a horse goes two squares and one, unless the neighbour along the longer leg is occupied |
| XiangqiLaws.PawnLaw | userland/games/xiangqi-engine/engine/src/piece.rs:186-202 | a pawn goes forward, and sideways from past the river |
| XiangqiLaws.AdvisorLaw | userland/games/xiangqi-engine/engine/src/piece.rs:297-318 | an advisor goes one square diagonally inside its palace |
| XiangqiLaws.ElephantLaw | userland/games/xiangqi-engine/engine/src/piece.rs:320-338 | as coded, an elephant goes two or more squares diagonally on its side of the river, past whatever is not on its own column |
| XiangqiLaws.GeneralLaw | userland/games/xiangqi-engine/engine/src/piece.rs:153-184 | a general goes one square inside its palace to where the first piece ahead on the column is no general |
| XiangqiRules.CandidateCount | userland/games/xiangqi-engine/engine/src/piece.rs:68-137 | the number of candidate squares of a piece depends on its kind only |
| XiangqiRules.CandidatesComplete | userland/games/xiangqi-engine/engine/src/piece.rs:68-137 | a square the rules allow is a candidate, except for elephants exactly when it is two diagonal steps away |
| XiangqiRules.InLine | userland/games/xiangqi-engine/engine/src/board.rs:200-219 | a piece attacks only squares in line with it or a horse move away, so the geometric pre-filter drops no attacker |
| XiangqiRules.GeneralNeverRetreats | userland/games/xiangqi-engine/engine/src/piece.rs:157-173 | a general can never step back: looking along the file it meets itself |
| XiangqiGame.Moved | userland/games/xiangqi-engine/engine/src/board.rs:75-87 | moving a piece keeps every piece on the square it records |
| XiangqiGame.CheckThreatened | userland/games/xiangqi-engine/engine/src/board.rs:200-219 | with the pre-filter, threatened means some enemy piece may move there |
| XiangqiGame.GetGeneralPos | userland/games/xiangqi-engine/engine/src/board.rs:235-257 | finds the first general in the palace, or panics without one |
| XiangqiGame.IsInCheck | userland/games/xiangqi-engine/engine/src/board.rs:227-229 | in check means the general found is threatened |
| XiangqiGame.CheckLegalMove | userland/games/xiangqi-engine/engine/src/board.rs:108-120 | a move is legal when the rules allow it, the piece is own, and the mover is not in check afterwards |
| XiangqiGame.FilterMoves | userland/games/xiangqi-engine/engine/src/piece.rs:139-144 | keeps the legal ones among the candidates, in order |
| XiangqiGame.GetLegalMoves | userland/games/xiangqi-engine/engine/src/board.rs:177-189 | the legal moves of all own pieces in board order, or a panic when the 200 slots overflow |
| XiangqiGame.DoPlayMove | userland/games/xiangqi-engine/engine/src/board.rs:264-284 | plays, refuses or ends the game as the state machine says |
| XiangqiPlay.CheckExact | userland/games/xiangqi-engine/engine/src/board.rs:227-259 | a side is in check exactly when its general stands where an enemy piece may go |
| XiangqiPlay.MovedExact | userland/games/xiangqi-engine/engine/src/board.rs:75-87 | the piece is on the new square, its old square is empty, and every other square is as before |
| XiangqiPlay.AcceptedExact | userland/games/xiangqi-engine/engine/src/board.rs:108-120 | on a safe board a move is accepted exactly when an own piece may go there and its general is then not attacked |
| XiangqiPlay.ListedExact | userland/games/xiangqi-engine/engine/src/board.rs:177-189 | the list is empty exactly when no move from the board is accepted other than an elephant over more than two squares |
| XiangqiPlay.PlayExact | userland/games/xiangqi-engine/engine/src/board.rs:264-284 | the answer to every move on a safe board: mate wins for the side that moved, stalemate for the other, otherwise the game goes on from the moved board; resigning loses; anything else is refused |
| XiangqiGame.LegalHasPiece | userland/games/xiangqi-engine/engine/src/board.rs:108-120 | an accepted move moves an own piece by its rules and leaves the mover out of check |
| XiangqiGame.MayTarget | userland/games/xiangqi-engine/engine/src/piece.rs:146-184 | a move ends on the board, captures no own piece, and keeps a general in its palace |
| XiangqiGame.GeneralPosFinds | userland/games/xiangqi-engine/engine/src/board.rs:235-257 | with one general at home the lookup finds it and never panics |
| XiangqiGame.NoGeneralCaptured | userland/games/xiangqi-engine/engine/src/board.rs:108-120 | no accepted move captures a general |
| XiangqiGame.OwnGeneralKept | userland/games/xiangqi-engine/engine/src/board.rs:75-87 | a move keeps the one general of the mover in its palace |
| XiangqiGame.EnemyGeneralKept | userland/games/xiangqi-engine/engine/src/board.rs:75-87 | a move that captures no general keeps the one general of the opponent in its palace |
| XiangqiGame.StepSafe | userland/games/xiangqi-engine/engine/src/board.rs:264-284 | a continued game stays safe: one general a side, at home, and the side not to move out of check |
| XiangqiSafety.MaterialNeverGrows | userland/games/xiangqi-engine/engine/src/board.rs:75-87 | no move adds a piece of any kind |
| XiangqiSafety.AtMost124 | userland/games/xiangqi-engine/engine/src/piece.rs:68-137 | with starting material a side has at most 124 candidate moves |
| XiangqiSafety.MovesWithinReach | userland/games/xiangqi-engine/engine/src/board.rs:177-189 | the legal moves are no more than the candidates of the pieces |
| XiangqiSafety.MovesReturn | userland/games/xiangqi-engine/engine/src/board.rs:177-189 | with starting material the 200-slot move list never overflows and no lookup panics |
| XiangqiSafety.PlayPanicsOnlyOffArray | userland/games/xiangqi-engine/engine/src/board.rs:264-284 | on a safe board playing panics exactly when the move starts at a position outside the array |
| XiangqiSafety.GameSafe | userland/games/xiangqi-engine/engine/src/board.rs:264-284 | every board of every game from a safe board is safe, with no more material than at the start |
| XiangqiSafety.DefaultSafe | userland/games/xiangqi-engine/engine/src/board.rs:20-63 | the starting position is safe and has starting material |
| XiangqiSafety.StartLayout | userland/games/xiangqi-engine/engine/src/board.rs:20-63 | the starting position square by square: the back row, two cannons and five pawns, mirrored for black; red moves first |
| XiangqiSafety.ElephantOverreach | userland/games/xiangqi-engine/engine/src/piece.rs:320-336 | a concrete elephant move over four diagonal squares that the rules allow and the candidates miss |
| XiangqiVerdict.ListExact | userland/games/xiangqi-engine/engine/src/board.rs:177-189 | the list holds a move exactly when it is accepted, starts on the board and goes to a candidate square |
| XiangqiVerdict.MissedExact | userland/games/xiangqi-engine/engine/src/board.rs:177-189 | the accepted moves the list misses are exactly elephant moves over more than two diagonal squares |
| XiangqiVerdict.VerdictExact | userland/games/xiangqi-engine/engine/src/board.rs:264-284 | a game is ended although the side to move still has an accepted move exactly when that move is a long elephant move |
| XiangqiVerdict.WrongVerdict | userland/games/xiangqi-engine/engine/src/board.rs:264-284 | a concrete safe position and horse move whose `play_move` declares black the winner although the red elephant may take the horse |
| Scheduler.SwitchInv | kernel/src/task/thread.rs:236-270 | switching never fails to find the thread it picked, and restores the invariant |
| Scheduler.TickOk | kernel/src/interrupts.rs:127-177 | a tick keeps the queue in order: a thread is requeued at most once |
| Scheduler.StepInv | kernel/src/task/thread.rs:190-341 | every step keeps the invariant; it panics exactly when more than 15 sleepers are due at one tick |
| Scheduler.RunInv | kernel/src/task/thread.rs:190-341 | the invariant holds after every run |
| Scheduler.ReachableOk | kernel/src/task/thread.rs:190-341 | in every state reached from boot the queue is free of duplicates and holds exactly the ready threads but the cleaner; only the current thread is running; the sleepers array is the only panic left |
| SchedulerOverrun.SleepersDue | kernel/src/interrupts.rs:137-152 | for every n there is a run from boot after which n sleepers fall due at one tick; with more than 15 the handler panics |
| SchedulerFairness.SwitchMovesUp | kernel/src/task/thread.rs:190-207 | a switch runs the front of the queue and moves every other waiting thread one place up |
| SchedulerFairness.StepWaits | kernel/src/interrupts.rs:137-176 | each step runs a waiting thread or does not lengthen its remaining wait, and a tick shortens it |
| SchedulerFairness.WaitShrinks | kernel/src/interrupts.rs:137-176 | a waiting thread runs once as many ticks have passed as its place and the slice left allow |
| SchedulerFairness.BoundedWaiting | kernel/src/interrupts.rs:154-176 | a thread at index k of the queue runs within (k + 1) * 100 ticks, whatever the others do |
| SchedulerKernel.Kernel.constructor | kernel/src/task/thread.rs:182-188 | an empty scheduler in the boot state |
| SchedulerKernel.Kernel.SpawnThread | kernel/src/task/thread.rs:209-222 | adds a ready thread and queues it unless it is the cleaner |
| SchedulerKernel.Kernel.UnblockTask | kernel/src/task/thread.rs:224-233 | makes a blocked thread ready and queues it; does nothing otherwise |
| SchedulerKernel.Kernel.BlockSection | kernel/src/task/thread.rs:272-301 | blocks the current thread and asks for a switch |
| SchedulerKernel.Kernel.YieldSection | kernel/src/task/thread.rs:327-341 | requeues the current thread and asks for a switch |
| SchedulerKernel.Kernel.PickNextThread | kernel/src/task/thread.rs:190-207 | takes the front of the queue, or the main thread, as the model says |
| SchedulerKernel.Kernel.SwitchNow | kernel/src/task/thread.rs:236-270 | refines the switch step, panic included |
| SchedulerKernel.Kernel.CollectDue | kernel/src/interrupts.rs:137-149 | collects exactly the due sleepers in thread order, or overruns the array exactly when there are more than 15 |
| SchedulerKernel.Kernel.WakeDue | kernel/src/interrupts.rs:150-152 | unblocks the collected sleepers in order |
| SchedulerKernel.Kernel.ChargeCurrent | kernel/src/interrupts.rs:154-168 | charges the tick, requeues at the end of the slice |
| SchedulerKernel.Kernel.TimerInterruptHandler | kernel/src/interrupts.rs:127-177 | refines the timer step, panic included |
| SchedulerSleep.TimerPanicExact | kernel/src/interrupts.rs:138-150 | the timer panics exactly when more than 15 threads sleep until the tick or earlier |
| SchedulerSleep.TimerWakes | kernel/src/interrupts.rs:127-177 | a tick wakes every thread that sleeps until then or earlier, leaves every other blocked thread as it is, and blocks nobody |
| SchedulerSleep.NobodyOversleeps | kernel/src/interrupts.rs:127-177 | over any run from boot, whoever sleeps until the last tick or earlier went to sleep after that tick |
| IrqLock.Cpu.Lock | kernel/src/task/lock.rs:37-53 | turns interrupts off and remembers the flag of the outermost guard |
| IrqLock.Cpu.Drop | kernel/src/task/lock.rs:71-79 | the last guard turns interrupts back on only if they were on |
| IrqLock.Cpu.Nested | kernel/src/task/lock.rs:37-79 | any depth of nested guards leaves the interrupt flag as it was |
| IrqLock.StepInv | kernel/src/task/lock.rs:37-79 | every step keeps the counter equal to the live guards; the one panic is a scheduler call, with a switch asked for, by code that held a guard when it called; the outermost drop restores the flag |
| IrqLock.RunInv | kernel/src/task/lock.rs:37-79 | that holds after every run of guards, interrupts and context switches |
| IrqLock.ReachableOk | kernel/src/task/thread.rs:236-301 | in every reachable state the counter is the number of live guards of the current thread and interrupts are off while it is positive; blocking and yielding panic exactly when their caller held a guard, the timer handler never; the switch is made with no guard held |
| IrqLock.HandlersUninterrupted | kernel/src/task/thread.rs:236-301 | over any run no interrupt comes while a handler runs |
| IrqLock.RequestKept | kernel/src/task/thread.rs:236-301 | a request to switch stays until a check takes it up, and that check goes on to pick a thread |
| IrqLock.NeverAtomic | kernel/src/task/thread.rs:236-341 | if the scheduler is only called by code that holds no guard, scheduling while atomic is unreachable |
| IrqLock.GuardedBlockPanics | kernel/src/task/thread.rs:272-285 | a thread that holds a guard and blocks does come to the check and panics |
| PipeKernel.ByteQueue.PopInto | kernel/src/fs/vfs/pipe.rs:71-81 | fills the buffer from the front; loses one byte more than fits when the queue is longer than the buffer |
| PipeKernel.ByteQueue.PushChunk | kernel/src/fs/vfs/pipe.rs:115-121 | appends a whole chunk that fits, no byte dropped |
| PipeKernel.WakePipeSleepers | kernel/src/fs/vfs/pipe.rs:140-160 | unblocks exactly the processes waiting for the reason, in order; panics exactly when a listed process has no thread |
| PipeKernel.WaitersExact | kernel/src/fs/vfs/pipe.rs:140-160 | those woken are exactly the listed processes whose threads are blocked for the reason |
| PipeKernel.ScanIsLoop | kernel/src/fs/vfs/pipe.rs:140-160 | step by step the scan finds whom the loop finds, in the same order |
| Pipe.ReadFifo | kernel/src/fs/vfs/pipe.rs:60-96 | a read returns the oldest bytes; it loses one exactly when the queue is longer than its buffer |
| Pipe.StepFifo | kernel/src/fs/vfs/pipe.rs:60-131 | every step keeps the queue within its bound and the bytes in order and accounted for |
| Pipe.StepChunks | kernel/src/fs/vfs/pipe.rs:98-131 | every step keeps the bytes written the concatenation of whole chunks of at most 1024 bytes, and what a call has put followed by what it has left equal to what it was given, with the counters right |
| Pipe.WriteBegins | kernel/src/fs/vfs/pipe.rs:98-107 | a write begins with all its data to go and nothing put; one of nothing returns 0 at once |
| Pipe.WriteEnds | kernel/src/fs/vfs/pipe.rs:98-131 | a write ends when all its data is in the queue, or when there are no readers and the next chunk does not fit; it returns the number of bytes it put |
| Pipe.ReadEnds | kernel/src/fs/vfs/pipe.rs:60-96 | a read ends after its wake-up, or at once on an empty pipe without writers or with no room; it returns the number of bytes it stored |
| Pipe.ReadStores | kernel/src/fs/vfs/pipe.rs:60-96 | a read stores the first bytes of the queue, as many as there is room for, and waits on an empty pipe with writers |
| Pipe.ChunkInOnePiece | kernel/src/fs/vfs/pipe.rs:107-121 | every chunk lies in one piece among the bytes written, at the place its turn gives it |
| Pipe.Conserved | kernel/src/fs/vfs/pipe.rs:60-131 | all bytes read followed by the queue are all bytes written exactly when no read met a queue longer than its buffer |
| PipeWakeups.OnlyBlockBlocks | kernel/src/task/thread.rs:287-301 | only the blocking section of a thread blocks it |
| PipeWakeups.StepKeeps | kernel/src/fs/vfs/pipe.rs:60-160 | every step of every interleaving of buffered readers and writers keeps the wake-up invariant |
| PipeWakeups.RunKeeps | kernel/src/fs/vfs/pipe.rs:60-160 | the invariant holds after every run |
| PipeWakeups.ReachableOk | kernel/src/fs/vfs/pipe.rs:60-160 | a reader asleep on a non-empty pipe, or a writer asleep although its chunk fits, has a wake-up pending; the queue keeps its bound; bytes are conserved exactly when no read was short; chunks are whole and each call puts its data in order |
| PipeWakeups.QuietMeansServed | kernel/src/fs/vfs/pipe.rs:60-160 | with no wake-up under way nobody sleeps who could go on |
| PipeWakeups.ReadWakesIfBuffered | kernel/src/fs/vfs/pipe.rs:60-96 | a read of a non-empty pipe goes on to wake the writers exactly when its buffer is not empty |
| PipeLostWakeup.EmptyReadLosesWakeup | kernel/src/fs/vfs/pipe.rs:60-96 | a run from a new pipe in which a read with an empty buffer makes room and wakes nobody |
| FrameAllocator.BumpAllocator.StartsAt | kernel/src/mem/memory.rs:81-97 | a fresh allocator is valid at its start address |
| FrameAllocator.AvoidsExact | kernel/src/mem/memory.rs:81-97 | a frame avoids the used range exactly when it shares no byte with the used region |
| FrameAllocator.GoodExact | kernel/src/mem/memory.rs:99-151 | the frames the kernel may issue, in bytes: pages apart from the used region that a usable region holds with one byte more |
| FrameAllocator.BumpAllocator.NextFrame | kernel/src/mem/memory.rs:99-151 | terminates with the lowest aligned frame from the cursor on that fits a usable region and avoids the kernel, or none exactly when there is none |
| FrameAllocator.BumpAllocator.TakeFrames | kernel/src/mem/memory.rs:99-151 | repeated calls issue frames in strictly ascending order, so none twice, and run dry only when every good frame was issued |
| FrameAllocator.BootInfoFrameAllocator.AllocateFrame | bootloader/src/memory.rs:92-98 | issues the next frame of the list of usable frames |
| FrameAllocator.UsableFacts | bootloader/src/memory.rs:75-90 | the addresses the bootloader lists ascend strictly and lie on the grid of a usable region |
| FrameAllocator.UsableExact | bootloader/src/memory.rs:75-90 | the list holds exactly the kept addresses on the grid of a usable region |
| FrameAllocator.ListedExact | bootloader/src/memory.rs:75-90 | the list in bytes: page steps through usable regions from the start on whose page is apart from the used region |
| FrameAllocator.HandOff | bootloader/src/memory.rs:48-54 | no frame the kernel may issue from the hand-over address on is one the bootloader issued, whatever the alignment of the memory map |
| FrameAllocator.BootRepeatsExact | bootloader/src/memory.rs:75-98 | the bootloader lists a frame twice exactly when the last step of one usable region and the base of a later one are both kept and lie in one page |
| FrameAllocator.BootDistinct | bootloader/src/memory.rs:75-98 | with page-aligned usable regions no frame is listed twice |
| FrameAllocator.BootRepeats | bootloader/src/memory.rs:75-98 | a concrete map with two regions meeting inside a page, which is listed twice |
| ElfLoader.CopyInto | kernel/src/task/proc.rs:182-203 | the offsets of one page copy lay the bytes of the file on exactly the addresses they belong to, and no subtraction underflows |
| ElfLoader.AddressSpace.MakeTables | kernel/src/task/proc.rs:242-258 | allocates the page tables that are missing, from the top; fails exactly when the frames do not suffice |
| ElfLoader.TableSpan | kernel/src/task/proc.rs:242-258 | tables of level 1, 2 and 3 serve stretches of 2 MiB, 1 GiB and 512 GiB |
| ElfLoader.AddressSpace.LoadPage | kernel/src/task/proc.rs:173-259 | a mapped page keeps what the segment does not cover, a new one starts zeroed; takes a frame for a new page and one for each table it lacks, and fails exactly when there are too few |
| ElfLoader.AddressSpace.LoadSegment | kernel/src/task/proc.rs:159-261 | lays the whole segment over the space; fails exactly when the frames do not suffice for its new pages and their tables |
| ElfLoader.AddressSpace.LoadElf | kernel/src/task/proc.rs:151-264 | every mapped page shows the image of the file; out of memory exactly when new pages and missing tables outnumber the frames; reports entry and highest end |
| ElfLoader.SegmentImage | kernel/src/task/proc.rs:151-264 | in the image of disjoint segments byte k of each is its file byte, or zero past the file part |
| ElfLoader.BytesMapped | kernel/src/task/proc.rs:159-172 | every byte of a loadable segment lies on a page the loader visits |
| ElfLoader.ElfImage | kernel/src/task/proc.rs:151-264 | for byte-disjoint segments, also on shared pages, memory holds each file byte below the file size and zero up to the memory size |
| ElfLoader.OtherPagesKept | kernel/src/task/proc.rs:173-206 | pages no segment visits keep their contents |
| Terminal.VirtualTerminal.constructor | kernel/src/console.rs:127-137 | a blank buffer with the cursor at the top left |
| Terminal.VirtualTerminal.ScrollRows | kernel/src/console.rs:144-149 | the copy loops move every row up by one |
| Terminal.VirtualTerminal.ClearRow | kernel/src/console.rs:163-168 | blanks one row and marks it |
| Terminal.VirtualTerminal.NewLineIn | kernel/src/console.rs:140-157 | moves down, or scrolls at the bottom, in place |
| Terminal.VirtualTerminal.WriteByte | kernel/src/console.rs:170-195 | one byte in place is one step of the terminal; no index leaves the buffer |
| Terminal.VirtualTerminal.WriteBytes | kernel/src/console.rs:170-195 | a byte stream in place is a run of the terminal |
| Terminal.TerminalRefinesPage | kernel/src/console.rs:140-195 | from related states the buffer stays the window onto an unbounded page over any byte stream |
| Terminal.TerminalShowsPage | kernel/src/console.rs:127-195 | from start-up, over any byte stream, the buffer is the last 40 lines of an unbounded page, blank below, with the cursor in bounds |
| TerminalDisplay.PaintDirty | kernel/src/console.rs:217-230 | the paint loop repaints the marked rows over the once-scrolled picture and clears all marks |
| TerminalDisplay.PaintRow | kernel/src/console.rs:224-228 | paints the glyph of every cell of a row |
| TerminalDisplay.GlyphExact | kernel/src/console.rs:249-259 | control characters, delete and bytes above 127 show as a blank, every other byte as itself |
| TerminalDisplay.DisplayExact | kernel/src/console.rs:140-230 | one repaint after a batch of bytes shows the buffer, whatever it held, exactly when the cursor walk scrolled not at all, started at the top line, or scrolled once with nothing stored on the line it left |
| TerminalDisplay.EachByteRepainted | kernel/src/console.rs:170-230 | a repaint after a single byte always shows the buffer |
| TerminalDisplay.SessionShown | kernel/src/console.rs:140-230 | over a whole session of batches within that condition the screen always shows the buffer |
| TerminalDisplay.LineLost | kernel/src/console.rs:140-230 | a concrete batch of two short lines of which the first never shows |
| Graphics.WordOffset | kernel/src/graphics.rs:154-157 | the index in the 16-bit view is half the byte offset of the pixel |
| Graphics.Screen.SetPixelIn | kernel/src/graphics.rs:72-93 | writes one pixel, or nothing off the screen |
| Graphics.SetPixelShows | kernel/src/graphics.rs:72-93 | drawing a pixel shows its colour there and changes no other pixel |
| Graphics.SolidShows | kernel/src/graphics.rs:194-228 | a solid fill shows its colour on exactly the pixels of the area |
| Graphics.ColoursShow | kernel/src/graphics.rs:124-192 | a fill shows on each pixel of the area the colour at its place in the list, and leaves pixels the list does not reach |
| Graphics.Screen.DrawPixels | kernel/src/graphics.rs:114-122 | draws pixel after pixel |
| Graphics.ClipInside | kernel/src/graphics.rs:131-146 | clipping the points of an area in order gives the points of the clipped area in order |
| Graphics.DrawInside | kernel/src/graphics.rs:139-146 | leaving out pixels that are off the screen changes nothing |
| Graphics.Screen.FillRow | kernel/src/graphics.rs:152-163 | one row takes colours while there are any, as drawing them one by one would |
| Graphics.Screen.FillContiguous | kernel/src/graphics.rs:124-192 | the clipped row-wise fill leaves the buffer that drawing every point with its colour would, also when colours run out |
| Graphics.Screen.FillSolid | kernel/src/graphics.rs:194-228 | the row-wise solid fill leaves the buffer that drawing every point of the area would |
| Paths.SegmentsJoin | kernel/src/fs/vfs/mod.rs:231-253 | splitting a joined path gives the joined segments back |
| Paths.TrimExact | kernel/src/fs/vfs/mod.rs:283-283 | trimming takes all white space off both ends and nothing else |
| Paths.SpaceExact | kernel/src/fs/vfs/mod.rs:283-283 | which characters are white space |
| Paths.AbsoluteSegments | kernel/src/fs/vfs/mod.rs:281-288 | a relative path has the segments of the working directory followed by its own |
| Paths.TrimShortens | kernel/src/fs/vfs/mod.rs:281-288 | trimming an absolute path keeps it absolute and costs characters other than slashes exactly when it changes anything |
| Paths.FindMountpoint | kernel/src/fs/vfs/mod.rs:256-270 | finds the longest mount point above the path, or the root; never fails on an absolute path |
| Paths.MountKeyUnique | kernel/src/fs/vfs/mod.rs:256-270 | only one mount serves a path |
| Paths.MountSegments | kernel/src/fs/vfs/mod.rs:290-303 | the segments of a path are those of its mount point followed by those resolved below it |
| Paths.FullPathExact | kernel/src/fs/vfs/mod.rs:231-253 | the full path of what a lookup finds is the normalised path exactly when the mount point has no segments |
| DentryCache.Vfs.InitVfs | kernel/src/fs/vfs/mod.rs:405-413 | the start-up mount table and empty caches are consistent |
| DentryCache.Vfs.ChangeFiles | kernel/src/syscall.rs:361-396 | deleting or removing changes what lookups give and leaves the cache as it is |
| DentryCache.Vfs.Step | kernel/src/fs/vfs/mod.rs:300-338 | one segment gives the cached child, or what the lookup gives, which it caches; the cache stays consistent, and in agreement with the file system if it was |
| DentryCache.Vfs.Descend | kernel/src/fs/vfs/mod.rs:300-338 | the walk over the segments gives the cached children as far as there are, then what lookups give |
| DentryCache.EntryWalk | kernel/src/fs/vfs/mod.rs:300-338 | cached children lead from the root of its mount to every cached entry |
| DentryCache.WalkAnswers | kernel/src/fs/vfs/mod.rs:300-338 | a path cached to its end is answered from the cache, whatever the file system now holds |
| DentryCache.StaleExact | kernel/src/fs/vfs/mod.rs:300-338 | the cache answers as lookups would, on a path and on the directories along it, exactly when every cached child on the path is still what the lookup gives |
| DentryCache.AgreesTransparent | kernel/src/fs/vfs/mod.rs:300-338 | a cache in agreement with the file system answers every path as lookups would |
| DentryCache.EntryResolves | kernel/src/fs/vfs/mod.rs:300-338 | in a cache in agreement with the file system every entry is what its path resolves to without the cache |
| DentryCache.NotCached | kernel/src/fs/vfs/mod.rs:300-338 | a child missing from its parent is cached nowhere, so entries are unique per path |
| DentryCache.Vfs.FullPath | kernel/src/fs/vfs/mod.rs:231-253 | joins the names from the mount root down to the entry |
| DentryCache.Vfs.FindDentry | kernel/src/fs/vfs/mod.rs:281-352 | answers from the mount that serves the path, relative paths included, by the cached children and then by lookups, and finds the entry of that path |
| DentryCache.Vfs.FindAll | kernel/src/fs/vfs/mod.rs:281-341 | any sequence of lookups, each on the cache the others left, answers as if there were no cache, as long as the files stay as they are |
| DentryCache.Vfs.FindAgain | kernel/src/syscall.rs:361-396 | a path once found gives the same entry again whatever was deleted, renamed or made in between |
| DentryCache.Vfs.Reopen | kernel/src/fs/vfs/mod.rs:231-341 | looking up the full path of a cached entry finds that entry, deleted since or not, exactly when the path does not end in white space, its own mount serves the path, and that mount has no segments |

## Left out

- Hardware: ATA, PCI, PIT, PS/2, HDA and serial drivers, page-table layout, assembly and boot stages. The
  disk is a byte sequence of 512-byte sectors, an address space a map from pages to frames, a context switch
  the assignment of the current thread.
- Disk errors: the branches that handle a failed or short transfer are not modelled; every transfer succeeds.
- FAT: the second copy of the table, the FSInfo sector, `create_dir`, `mv`, `delete_dir`, and the VFS-level
  `lookup`, which passes an inode number where a cluster is expected, are not modelled. File names are ASCII.
- Fat32Driver.Fat32.WriteBuffer: a write of nothing is not modelled, as the code assumes a non-empty buffer
  (kernel/src/fs/fat.rs:494). A write beyond the end leaves in the gap whatever the clusters held, and the contract says so.
- FatFree.FreeFrom: stops where the cursor leaves the table; what the code then reads and overwrites lies outside this
  model.
- FatFiles.DeleteKeepsReserved: speaks of deletions that end; `SecondDeletionHangs` is the other case.
- FatSystem: one directory of files, without subdirectories; names are those stored in its slots. Entry 0 of the table ends
  a chain, as formatting leaves it, or is free.
- Calendar: reading the clock registers is not modelled; a date-time is a parameter.
- Xiangqi: FEN, the user interface and the search are not modelled; facing generals are examined only as the
  code does, on moves of a general.
- Scheduler: each `SCHEDULER` critical section and the whole of `switch_if_needed` are one step. The main thread
  neither blocks nor yields. `wait_pid`, TTY reads and the executor are not modelled.
- Scheduler.StepInv: the cleaner, thread 2, is spawned ready but not queued, and is exempt from the queue
  statement as it is in the code.
- IrqLock: the only programs that call the scheduler are the four of the step system; guards of other interrupt handlers
  end with the handler.
- PipeWakeups.ReachableOk: readers have non-empty buffers; `EmptyReadLosesWakeup` shows the other case. Closing a pipe is
  modelled by its counts of readers and writers only.
- PipeKernel.WakePipeSleepers: a process is listed before its thread exists, and a scan in that window panics; the
  step system models this as a panic of the looking step.
- FrameAllocator.BumpAllocator.NextFrame: addresses are unbounded integers; the memory map is sorted and disjoint, as the
  bootloader sorts it.
- ElfLoader: parsing of the file header and page flags are not modelled; frames come from a supply, and page tables are
  counted but their entries are not laid out. Huge pages are not modelled.
- Terminal: the cursor block and the colours are not drawn in the model of the screen.
- Graphics: the buffer starts on an even address; `clear`, `flush` and modes other than two bytes per pixel with an
  even line length are not modelled.
- DentryCache: lookups do not run concurrently, and the files do not change during one. Only ASCII white space is trimmed.
- The compositor, the shell, the WAV player, the USTAR reader and the random numbers are not modelled.
