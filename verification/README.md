# Free McBoot installer: verified models

This project models the parts of the Free McBoot installer that edit a memory card below the console's own driver,
and the machinery around them, and proves what these parts keep, restore and never disturb.

**The memory card stack** (`mctools`) is modelled as the tower that it is:

1. `CardDevice`, `BlockIO`: the raw flash. Pages are read singly; a write erases a whole block and programs its pages.
2. `PageCaching`, `CacheRuns`: the write-back cache of 128 pages. A ghost field holds the page array that card and cache
   together stand for; every operation is proved against it, over any run and across evictions.
3. `ClusterIO`, `FatTable`, `RawCard`, `Chains`, `Allocation`: cluster transfers, the file allocation table behind two levels
   of indirection, chains in it, and first-fit allocation. The table is shown to be an array, and tied to the card's bytes.
4. `Dirents`, `Directory`, `DirectoryScan`, `Paths`, `Resolution`, `PlainFiles`, `Files`: directory records, the scan over a
   chain, and the walk along a path, which is shown to be a recursive lookup.
5. `DirectoryTree` with `RecordUpdate`, `SlotEdits`, `Placement`, `Growth`, `Appending`, `Uncounting`, `Creation`, `Naming`,
   `Removal`: the well-formed card, and creating and deleting records on it.
6. `Demand`, `CrossLinks`, `Unlinking`: the clusters that new records need; cross-linked aliases, created and deleted again.

**Around it**:

- `Handshake`: the main thread and the worker thread of the installer as a state machine, with invariants over every
  interleaving. `SleepThread` and `WakeupThread` are taken to count: a wakeup for a thread that is awake is kept.
- `AsyncRpc`, `CardImage`: the asynchronous card requests behind one semaphore, and the double-buffered loops that dump a
  card to a file and restore it.
- `AlignedCopy`: the three-way split of a copy into EE memory.
- `KelfWindow`, `KelfKeys`: window-wise decryption of a signed file beside its whole-file form, and the key slots of
  its header.
- `Uninstall`: creating aliases in batches, and the file that records them.
- `FontAtlas`, `WordWrap`: the packing of glyphs into textures, and the breaking of long lines.

`Arithmetic`, `Bytes`, `Counting`, `Constants` and `Wrappers` are shared. Products and quotients of two variables go through
recursive functions, tied to the built-in operators by `TimesIsProduct` and `QuotIsDivision`.

`dafny verify dfyconfig.toml` checks the whole project.

## What turned out not to hold

The code is modelled as it is. Where it does not do what its comments or its callers expect, the exact condition is proved.

- A cache lookup of page 0 stops at any free slot; lookups are sound exactly for other pages
  (`PageCaching.LookupSoundExactlyOffPageZero`).
- `AddFATRecord` does not return 0 on a full card, as its comment says, but a large number, and the caller then writes in
  front of the data area. It reaches a data cluster exactly if an entry is free
  (`Allocation.TargetIsDataExactlyWithFreeEntry`).
- The walk along a path never looks at the directory attribute. Below a plain file it takes the file's data for records, and
  can find one in them (`PlainFiles.FoundInFileData`); a path that goes on below a record without clusters is answered with
  that record. Whatever plain files contain, the walk is the textbook lookup exactly when no record in front of the path's end
  is a plain file or a directory without clusters (`PlainFiles.ResolveMeetsReference`).
- A new record is counted in the record that the path names, which for ".." is not the one that keeps the directory's length.
  The record is among those that its directory counts exactly if the path's record is that one, or a deleted slot is reused
  (`Creation.CountedExactlyAtHomeOrReused`); on a formatted card ".." is such a path (`Creation.SecondRecordIsNotHome`).
- The worker reads a command's argument before the command, while the main thread stores the command first. A job is
  certain to get its own argument exactly if the worker sleeps without a pending wakeup when the job is sent
  (`Handshake.ArgumentArrivesExactlyIfWorkerSleeps`, `Handshake.FirstArgumentCanBeLost`). Otherwise the second job can work on
  the file of the first one, which has been closed; all jobs of a run are sent that way exactly if the worker's own file
  is open in every state of it, and of what follows with jobs sent that way (`Handshake.SecondJobUsesClosedFile`,
  `Handshake.OwnFileOpenExactlyIfSentToSleeper`).
- A dump that is stopped before its first cluster writes one bank of whatever memory held, and a file write that fails
  inside the loop leaves a card read outstanding while its buffer is freed, unless the read has just ended
  (`CardImage.DumpMemoryCard`).
- Or-ing `ERROR_SIDE_SRC` or `ERROR_SIDE_DST` to a negative error number does not change it, so the failing side cannot be
  told (`CardImage.SideIsLost`).
- Window-wise decryption makes no progress, for ever, at an encrypted block that is not shorter than the read buffer
  (`KelfWindow.WindowIsEmptyExactlyAtLongBlock`); a reader that stops at an empty window has the whole file exactly if there is
  no such block (`KelfWindow.ReadPayload`).
- A copy into EE memory that does not reach its first 64-byte line writes more than it was asked to
  (`AlignedCopy.PiecesPartitionExactlyFromFirstLine`).
- The first glyph of an atlas is not checked against its size (`FontAtlas.Atlas.AtlasAlloc`).
- A request for aliases answers with the number of them that were created, wherever in the request they were, and the next one
  begins that many aliases further on. When all aliases can be created, all goes well (`Uninstall.AllGoesWell`). But an alias
  in the middle that fails is never created, one behind it is created twice, and no error is reported
  (`Uninstall.SecondIsLostThirdDoubled`). Every alias is created once, in order, exactly if each request creates its first
  alias and none behind one that fails (`Uninstall.CreatedOnceExactlyIfInOrder`).
- A batch that fails in front of the file itself is forgotten when one behind it succeeds (`Uninstall.CreateCrossLinkedFiles`).
  The recorded list of aliases is the created one exactly if the file itself is listed at most once
  (`Uninstall.RecordedIsCreatedExactlyIfListedOnce`), and a record cut short is read as if it were whole
  (`Uninstall.HandleUninstallFile`).

## Model

| member | source | states |
|---|---|---|
| BlockIO.ReadBlock | installer/irx/source/mctools/src/MCIO.c:10-22 | a block read gives the block's pages one after the other |
| BlockIO.ReadClusterRaw | installer/irx/source/mctools/src/MCIO.c:69-81 | the same for a cluster read around the cache |
| BlockIO.WriteBlock | installer/irx/source/mctools/src/MCIO.c:24-53 | after the erase every page is programmed once, the block holds the buffer, and no page of another block changes |
| ClusterIO.ReadCluster | installer/irx/source/mctools/src/MCIO.c:55-67 | through the cache, a cluster read gives the pages of the represented array, whatever is evicted meanwhile |
| ClusterIO.WriteCluster | installer/irx/source/mctools/src/MCIO.c:83-95 | a cluster write changes just that cluster of the represented array |
| PageCaching.PageCache.InitPageCache | installer/irx/source/mctools/src/cache.c:34-58 | a fresh cache represents the card as it is |
| PageCaching.PageCache.AddCacheBlockFlushList | installer/irx/source/mctools/src/cache.c:60-70 | the search without a bound stops at the first free entry, given that there is one |
| PageCaching.PendingFits | installer/irx/source/mctools/src/cache.c:32-124 | cached pages are distinct, so a block never has more dirty pages than its flush list has room for |
| PageCaching.PageCache.FlushBlock | installer/irx/source/mctools/src/cache.c:72-90 | the block becomes its old pages with the listed ones over them; every other block stays |
| PageCaching.BlockSettles | installer/irx/source/mctools/src/cache.c:108-124 | copying the flush list over the old pages of a block gives exactly the represented pages, unwritten ones included |
| PageCaching.PageCache.FlushPageCache | installer/irx/source/mctools/src/cache.c:92-137 | afterwards the flash is the represented array and the cache is empty |
| PageCaching.PageCache.MakeRoom | installer/irx/source/mctools/src/cache.c:153-169 | a full cache is flushed once and the retry finds a free slot; the represented array does not change |
| PageCaching.PageCache.ReadPageCached | installer/irx/source/mctools/src/cache.c:139-177 | a read gives the represented page, from the cache, the card, or the card after a flush |
| PageCaching.PageCache.WritePageCached | installer/irx/source/mctools/src/cache.c:179-218 | a write updates just that page of the represented array, or fails without a cache |
| PageCaching.LookupSoundExactlyOffPageZero | installer/irx/source/mctools/src/cache.c:145-150 | what a lookup finds is a cached page exactly for page numbers other than 0 |
| CacheRuns.Replay | installer/irx/source/mctools/src/cache.c:92-218 | any sequence of reads, writes and flushes answers like a plain array of pages, and after a flush the flash is that array |
| CacheRuns.ReadIsLastWrite | installer/irx/source/mctools/src/cache.c:139-218 | in that array a read gives the last write to the page, or the card's original page |
| CacheRuns.Session | installer/irx/source/mctools/src/cache.c:34-218 | the same from a fresh cache on a card to its last flush |
| RawCard.TableIsRead | installer/irx/source/mctools/src/mctools.c:150-242 | a card whose bytes hold a table, word by word with the low byte first, in clusters that the listed indirect clusters number, has just that table |
| FatTable.GetFatTableIndexData | installer/irx/source/mctools/src/mctools.c:203-242 | the lookup through both levels gives the entry, and only an index past the end is an error |
| FatTable.UpdateFatTableIndexData | installer/irx/source/mctools/src/mctools.c:137-172 | the update changes that entry of the table, no other entry, and no data |
| FatTable.FatIsAnArray | installer/irx/source/mctools/src/mctools.c:150-163 | storing one word in the cluster both levels lead to is an array update: the split of the index is injective, and the layout survives |
| Bytes.LowByteFirst | installer/irx/source/mctools/src/mctools.c:150-163 | a word of four bytes is read and written with its low byte first |
| RawCard.RecordIsRead | installer/irx/source/mctools/src/mctools.c:486-492 | record j of a directory is the first 96 bytes of page j modulo the cluster size of its chain's cluster j divided by it, counted from the first allocatable cluster |
| Dirents.FieldsAreRead | installer/irx/source/mctools/src/mctools.h:38-49 | from a page that starts with a record written field by field, the mode, length, first cluster, name and flags are read as written |
| Dirents.NameIsCompared | installer/irx/source/mctools/src/mctools.c:525-525 | a name matches exactly if its first 32 characters, or all and a terminator behind them, are those of the field |
| Dirents.NameIsCopied | installer/irx/source/mctools/src/mctools.c:762-762 | a copied name is cut at 32 characters or filled up with zeros |
| Chains.ChainInNumbers | installer/irx/source/mctools/src/mctools.c:286-296 | each entry of a chain is the next cluster with the top bit set, and the last one is 0xFFFFFFFF |
| Directory.GetFatTableNextIndexData | installer/irx/source/mctools/src/mctools.c:244-251 | the next cluster of a chain, with the top bit cleared, or the end mark 0xFFFFFFFF |
| Chains.ChainUnique | installer/irx/source/mctools/src/mctools.c:278-283 | a chain is determined by its first cluster |
| Chains.ChainNoDup | installer/irx/source/mctools/src/mctools.c:278-283 | a chain that ends has no cycle, so the loop to its end stops |
| Chains.AppendExtends | installer/irx/source/mctools/src/mctools.c:286-296 | the two updates make the old chain plus a cluster that was not in it |
| Chains.AppendKeepsOthers | installer/irx/source/mctools/src/mctools.c:286-296 | every chain apart from the extended one stays a chain and stays apart |
| Allocation.FindFreeCluster | installer/irx/source/mctools/src/mctools.c:261-271 | the lowest-numbered entry below 0x80000000, or an error when there is none |
| Allocation.FindLastCluster | installer/irx/source/mctools/src/mctools.c:278-283 | the loop along a chain stops at its last cluster |
| Allocation.AddFATRecord | installer/irx/source/mctools/src/mctools.c:257-299 | the chain is extended by the first free cluster: its old last entry becomes that number with the top bit set, the new entry 0xFFFFFFFF; with no entry below 0x80000000 nothing changes and -22 is answered as an unsigned number; the data never change |
| Allocation.TargetIsDataExactlyWithFreeEntry | installer/irx/source/mctools/src/mctools.c:253-299 | the value returned is never 0, and the caller's target is a data cluster exactly if an entry was free |
| DirectoryScan.ScanThroughDirEnt | installer/irx/source/mctools/src/mctools.c:460-530 | by name: the first existing record of that name among those in use; for a place: the first deleted record, else the slack of the last cluster, else none; and where it lies |
| Paths.ComponentsJoin | installer/irx/source/mctools/src/mctools.c:555-574 | cutting a path at slashes and backslashes turns joining with a slash into joining of components |
| Paths.ComponentsAreParts | installer/irx/source/mctools/src/mctools.c:555-574 | the components of a path are what lies between its runs of slashes and backslashes |
| Files.WalkPath | installer/irx/source/mctools/src/mctools.c:555-577 | the walk ends where the recursion over directories says, with the page of that very record |
| Resolution.ReferenceFollowsWalk | installer/irx/source/mctools/src/mctools.c:560-577 | the textbook lookup finds nothing below a record that is not a directory with clusters, and what the walk finds everywhere else |
| Resolution.HollowExactlyThroughEmpty | installer/irx/source/mctools/src/mctools.c:566-573 | the walk stops in front of the end of a path and reports success exactly below a record without clusters |
| PlainFiles.ResolveMeetsReference | installer/irx/source/mctools/src/mctools.c:560-577 | for all contents of the card outside the directories on the way, the walk agrees with a textbook lookup exactly if no proper prefix of the path names a plain file or a directory without clusters |
| PlainFiles.FoundInFileData | installer/irx/source/mctools/src/mctools.c:560-577 | on a card with a plain file whose data look like a record, the walk finds that record below the file, and the textbook lookup finds nothing |
| PlainFiles.RecordShapedFileExists | installer/irx/source/mctools/src/mctools.c:560-577 | there are such cards, with the root as the code expects it |
| DirectoryTree.ResolveIsFind | installer/irx/source/mctools/src/mctools.c:541-622 | on a well-formed card the walk over clusters is a lookup over sequences of records |
| DirectoryTree.FormattedIsWellFormed | installer/irx/source/mctools/src/mctools.c:557-566 | a root that holds only "." and ".." is a well-formed card to start from |
| Creation.GetFileData | installer/irx/source/mctools/src/mctools.c:627-629 | the record a path names, or not found |
| Creation.RecordOffset | installer/irx/source/mctools/src/mctools.c:604-604 | the byte offset computed from page numbers is that of the record's own page in its cluster |
| RecordUpdate.UpdateDirEntInformation | installer/irx/source/mctools/src/mctools.c:435-458 | one record is replaced; the rest of its page, every other page and the table stay |
| RecordUpdate.FatUntouched | installer/irx/source/mctools/src/mctools.c:435-458 | rewriting a data cluster changes no entry of the table |
| Creation.SetFileData | installer/irx/source/mctools/src/mctools.c:594-607 | the record a path names is replaced, in the slot the walk found; when there is none, nothing changes |
| Creation.SetInFreePage | installer/irx/source/mctools/src/mctools.c:578-621 | a new record takes the first deleted slot or the slack of the directory a path names, and nothing is written when there is neither |
| SlotEdits.SetRecordSlots | installer/irx/source/mctools/src/mctools.c:435-458 | on the level of directories, rewriting a record's page is updating that slot of the sequence |
| Placement.HookChains | installer/irx/source/mctools/src/mctools.c:286-296 | after a cluster is hooked to a directory all chains of the card are chains and disjoint again |
| Growth.ReplaceWellFormed | installer/irx/source/mctools/src/mctools.c:648-648 | putting a record into a deleted slot keeps the card well-formed |
| Growth.ExtendWellFormed | installer/irx/source/mctools/src/mctools.c:672-679 | appending a record and counting it where the directory's length is kept keeps the card well-formed |
| Appending.ResolveSteady | installer/irx/source/mctools/src/mctools.c:672-679 | between writing a record and counting it every path still resolves as before |
| Creation.CreateNewVirtualDirent | installer/irx/source/mctools/src/mctools.c:631-682 | by way of the record that keeps the length of the parent, the records of the parent become the old ones with the first deleted one replaced, or with the new one appended; only then its length counts up, only with every slot taken is a cluster added; every other record, chain and file stays and the card stays well-formed. By way of another record the same holds when a deleted slot is seen; otherwise the new record lies behind those that the parent counts, and that other record gets the length 1 |
| Creation.CountedExactlyAtHomeOrReused | installer/irx/source/mctools/src/mctools.c:672-679 | the new record is among those that the length kept for its directory counts exactly if the path leads by the record that keeps it, or a deleted slot is reused |
| Creation.SecondRecordIsNotHome | installer/irx/source/mctools/src/mctools.c:672-679 | on a formatted card the path ".." leads to the root by a record that does not keep its length, and no place is seen |
| Naming.FindGrew | installer/irx/source/mctools/src/mctools.c:631-682 | a record under a fresh name changes no lookup that found something |
| Naming.FindNamed | installer/irx/source/mctools/src/mctools.c:555-577 | a path to a directory and a name below it find just the record of that name there |
| Removal.ShrunkWellFormed | installer/irx/source/mctools/src/mctools.c:695-698 | marking a record that leads to no directory as deleted keeps the card well-formed |
| Removal.FindShrunk | installer/irx/source/mctools/src/mctools.c:695-698 | deleting a record changes no lookup that does not pass it |
| Removal.StruckInBytes | installer/irx/source/mctools/src/mctools.c:695-697 | of a deleted record the mode alone is changed, to 0x7FFF |
| Removal.DeleteVirtualDirent | installer/irx/source/mctools/src/mctools.c:684-720 | exactly the named record is marked as deleted; no entry of the table, no file and no other record changes; when the name is not there, the call fails and nothing changes |
| Demand.CreatedRooms | installer/irx/source/mctools/src/mctools.c:631-682 | a new record takes one place of its directory, a deleted one or slack, or with none left a new cluster with one place less than it has pages; all other directories keep their places |
| Demand.CreatedCost | installer/irx/source/mctools/src/mctools.c:664-682 | a new record costs one free cluster exactly if its directory has no place left |
| Demand.AllCreatedExactlyIfEnough | installer/irx/source/mctools/src/mctools.c:631-682 | a run of creations that ends with the last record or at a full table creates every record exactly if there are as many free clusters as computed; with fewer it reaches a creation that needs a cluster with none free |
| CrossLinks.SplitAtSlash | installer/irx/source/mctools/src/mctools.c:749-756 | "a/b" is file "b" in directory "a"; a name without a slash is taken for both |
| CrossLinks.AliasIsRead | installer/irx/source/mctools/src/mctools.c:744-763 | a record that consists of the alias's mode, bytes 2 to 64 of the original and the alias's file name is read with that mode and name and the original's clusters and length |
| CrossLinks.OneMore | installer/irx/source/mctools/src/mctools.c:748-768 | a created alias is the only record of its name in its directory, has its own mode and name, and in all other bytes is the original |
| CrossLinks.AliasAgain | installer/irx/source/mctools/src/mctools.c:744-768 | building each alias in the buffer of the one before gives the same record as building it from the original |
| CrossLinks.CreateCrossLinkedFiles | installer/irx/source/mctools/src/mctools.c:725-774 | with as many free clusters as the aliases need, every alias of a list of fresh, distinct names is created, none disturbs another, every file keeps its pages, and every directory is still found |
| CrossLinks.InPlaceResolves | installer/irx/source/mctools/src/mctools.c:725-774 | an alias that has been created is what its path resolves to, byte for byte: its own mode, the original's fields, its own name |
| CrossLinks.UnusedIsMissing | installer/irx/source/mctools/src/mctools.c:776-819 | an alias whose name is not in use resolves to nothing |
| Unlinking.DeleteCrossLinkedFiles | installer/irx/source/mctools/src/mctools.c:776-819 | every alias that was there, whatever file it is of, is gone and counted, the others stay gone, the original is still found, and the table and all files are unchanged |
| Unlinking.CreateThenDelete | installer/irx/source/mctools/src/mctools.c:725-819 | after creating, all aliases resolve to records with their own modes and names and otherwise the bytes of the original's; after deleting the same list none resolves, the original still does with its record unchanged, deleting has changed no entry of the table, and the flushed card is the represented one |
| Handshake.SendStores | installer/system.c:2874-2881 | sending stores the command, then its argument or NULL, and wakes the worker |
| Handshake.SendReturns | installer/system.c:2878-2885 | once woken, the sender wakes the worker again and goes on to polling, to closing the file, or to the end |
| Handshake.WorkerAccepts | installer/system.c:2826-2831 | the worker clears a job's command and argument, accepts the job and wakes the sender |
| Handshake.WorkerRefuses | installer/system.c:2846-2850 | for a stop command between jobs it clears command and argument, sets a final code and wakes the sender |
| Handshake.WorkerAborts | installer/system.c:2729-2734 | for a stop command at the end of a job it does the same, and goes on to the job's result |
| Handshake.RunKeepsInv | installer/system.c:2814-2885 | every step of either thread keeps the invariants |
| Handshake.CommandsAcknowledged | installer/system.c:2874-2885 | in every run each command is taken once, and sending returns only after the worker has taken that command; no wakeup is left over |
| Handshake.FileClosedAfterJob | installer/system.c:2507-2532 | in every run a file is closed only when no job is in the worker's hands, also when a stop races with the end of the job |
| Handshake.OwnFileOpenExactlyIfSentToSleeper | installer/system.c:2814-2885 | each job of a run was sent to a worker asleep without a pending wakeup exactly if the file that the worker's argument names is open whenever the worker uses it, in each state of the run and in all that follows such a state with further jobs sent that way |
| Handshake.SecondJobUsesClosedFile | installer/system.c:2814-2885 | there is a run from the start in which the second job works on the first one's file, which has been closed |
| Handshake.MainIsWoken | installer/system.c:2814-2885 | a main thread that sleeps in a send is woken after at most eight steps of the worker |
| Handshake.NeverBothAsleep | installer/system.c:2814-2885 | in no run are both threads asleep without a wakeup |
| Handshake.ArgumentArrivesExactlyIfWorkerSleeps | installer/system.c:2648-2659 | the job about to be sent gets its own argument in every continuation exactly if the worker is asleep without a pending wakeup |
| Handshake.FirstArgumentCanBeLost | installer/system.c:2648-2659 | there is a run from the start in which it does not |
| AsyncRpc.McTools.constructor | installer/mctools_rpc.c:35-53 | the semaphore and the outstanding requests are one together from the start |
| AsyncRpc.McTools.Complete | installer/mctools_rpc.c:24-33 | the IOP does what the transmit buffer says, and the end of the request signals the semaphore; a read has filled its buffer with the cluster, a write has put the IOP buffer into its block and no other; the transmit buffer is as it was when the request was sent |
| AsyncRpc.McTools.CheckIOPBufferSize | installer/mctools_rpc.c:66-84 | the IOP buffer is disturbed exactly if it must grow while a request is outstanding |
| AsyncRpc.McTools.MCToolsReadCluster | installer/mctools_rpc.c:182-209 | what was outstanding has been served before the transmit buffer is filled; this request is outstanding afterwards, or none when sending failed |
| AsyncRpc.McTools.MCToolsWriteBlock | installer/mctools_rpc.c:211-247 | the same; the IOP buffer holds the block before the request is outstanding |
| AsyncRpc.McTools.MCToolsSync | installer/mctools_rpc.c:249-269 | polling says whether a request is outstanding and changes nothing; otherwise it returns only with nothing outstanding, and what was has been served |
| AsyncRpc.McTools.MCToolsGetMCInfo | installer/mctools_rpc.c:132-149 | when it succeeds, the receive buffer holds no error |
| AsyncRpc.McTools.MCToolsFlushMCMANClusterCache | installer/mctools_rpc.c:271-279 | when it is sent, the receive buffer holds no error; otherwise it is as before |
| CardImage.SideIsLost | installer/system.c:2685-2713 | the two failing sides give different codes exactly if the error code lacks one of the two bits |
| CardImage.DumpCluster | installer/system.c:2681-2707 | the bank written to the file is the full one, never the one being filled; a request is left over exactly if the file write failed before it was served |
| CardImage.DumpMemoryCard | installer/system.c:2661-2737 | the file gets exactly the clusters before the stop, in order, each once; with none it gets one bank of anything; it fails with -5 exactly if a request or a file write fails, and then the file holds all clusters read but the one that was not written whole; no buffer in use is disturbed |
| CardImage.Restore.BlockSettles | installer/system.c:2753-2783 | each block written carries the restored part of the card one block on |
| CardImage.RestoreMemoryCard | installer/system.c:2739-2812 | the blocks before the stop hold the file, and the card behind the last block sent is untouched, also when the restore fails; it fails only if a request or the file does, or an error is left in the receive buffer; nothing is outstanding afterwards |
| CardImage.PerformMemoryCardRestore | installer/system.c:2569-2600 | the requests in front of the restore leave no error in the receive buffer, so it fails only if a request or the file does |
| CardImage.RestoredIsDumped | installer/system.c:2661-2812 | a full restore of a full dump is the dumped card, if clusters and blocks divide it evenly |
| CardImage.DumpThenRestore | installer/system.c:2661-2812 | a card dumped and another restored from the file are equal when both succeed, and both succeed when no access fails |
| AlignedCopy.PiecesPartitionExactlyFromFirstLine | installer/irx/source/mctools/src/mctools.c:99-117 | the three pieces partition the destination, with whole aligned lines in the middle, exactly if it reaches its first line boundary |
| AlignedCopy.EEMemcpy | installer/irx/source/mctools/src/mctools.c:91-120 | the ends go into the side record and the middle goes by DMA |
| AlignedCopy.Transfer | installer/mctools_rpc.c:18-22 | both halves together are memcpy, and nothing outside the destination changes |
| KelfWindow.BootFile | installer/irx/source/secrman/src/secrman.c:258-269 | every block whose two lowest flags are not both clear is decrypted once and whole, every other one stays as it is, as does what lies behind them; or the file is refused, exactly if one of those cannot be decrypted |
| KelfWindow.ClearAt | installer/irx/source/secrman/src/secrman.c:258-269 | the decrypted file, block by block |
| KelfWindow.ClearByFlags | installer/irx/source/secrman/src/secrman.c:258-269 | in the clear text, blocks with flags 1, 2 or 3 modulo 4 are the cipher's output and all others are as in the file |
| KelfWindow.ClearExactlyIfAllDecrypt | installer/irx/source/secrman/src/secrman.c:258-269 | there is a clear text exactly if every block with such flags can be decrypted |
| KelfWindow.FindBlock | installer/irx/source/secrman/src/secrman.c:418-422 | the block an offset lies in |
| KelfWindow.CutsExactlyInFirst | installer/irx/source/secrman/src/secrman.c:425-427 | a window would cut an encrypted block exactly if it starts inside the block found |
| KelfWindow.ExtendWindow | installer/irx/source/secrman/src/secrman.c:431-442 | the unsigned excess, which starts below zero inside a plain block, ends as the length of the window |
| KelfWindow.DecryptWindow | installer/irx/source/secrman/src/secrman.c:447-454 | decrypting the window's encrypted blocks where they lie gives the clear text of the whole-file form, and succeeds exactly if each of them can be decrypted, whatever the rest of the file is like |
| KelfWindow.ReadWindow | installer/irx/source/secrman/src/secrman.c:405-464 | a window is the next piece of the clear text, not longer than the read buffer, and ends between blocks or in a plain one; it fails exactly if it would start inside an encrypted block, the file is too short, or a block of the window cannot be decrypted |
| KelfWindow.WindowFits | installer/irx/source/secrman/src/secrman.c:433-442 | a window that starts well ends well, inside its length and the payload |
| KelfWindow.WindowIsEmptyExactlyAtLongBlock | installer/irx/source/secrman/src/secrman.c:433-442 | a window makes no progress exactly at an encrypted block that is not shorter than the read buffer |
| KelfWindow.AllDeliveredExactlyWithoutLongBlock | installer/irx/source/secrman/src/secrman.c:405-464 | the end of some window is the end of the payload exactly if there is no such block |
| KelfWindow.ReadWindows | installer/irx/source/secrman/src/secrman.c:405-464 | any number of calls delivers a beginning of the clear text, one piece behind the other, and fails only where the file has been cut short |
| KelfWindow.ReadPayload | installer/irx/source/secrman/src/secrman.c:405-464 | calls up to the first empty window deliver the whole clear text exactly if every encrypted block is shorter than the read buffer |
| KelfKeys.StoreKeepsPlaces | installer/irx/source/secrman/src/keyman.c:17-43 | no store changes where any key lies |
| KelfKeys.StoreKeepsOthers | installer/irx/source/secrman/src/keyman.c:17-88 | storing one key changes no other |
| KelfKeys.GetGivesLastStore | installer/irx/source/secrman/src/keyman.c:17-88 | after any stores in any order a get gives the last one for its key, and all bytes outside the keys are the original ones |
| KelfKeys.KeysLieBehindParts | installer/irx/source/secrman/src/keyman.c:17-73 | in a header written part by part, Kbit and Kc are found behind the fixed part, the block entries, the counted string and the optional eight bytes, and ICVPS2 in its last eight bytes, where they were written; the second flag says whether it is used |
| KelfKeys.FindKbit | installer/libsecr.c:207-222 | the offset computation that every function repeats, with the sizes of the header and of a block entry that a copy uses, finds the position that these sizes give, which with 0x20 and 0x10 is the place of Kbit |
| KelfKeys.CopiesAgreeExactly | installer/libsecr.c:207-267 | the copies that use the sizes of structures and those that use 0x20 and 0x10 find the same position in every header exactly if the sizes are those numbers |
| KelfKeys.GetBitTableOffset | installer/libsecr.c:255-267 | the bit table begins right behind Kbit and Kc |
| KelfKeys.StoreIcvps2 | installer/libsecr.c:246-253 | ICVPS2 goes to the last eight bytes of the header |
| KelfKeys.StoreGiven | installer/libsecr.c:291-310 | the keys that the MechaCon gives are stored, ICVPS2 only for a file bound to a card; it succeeds exactly if all that are asked for are given, and otherwise leaves the ones stored before |
| KelfKeys.SetKbitAndKc | installer/system.c:399-418 | both keys are stored |
| KelfKeys.TransplantKeys | installer/system.c:447-450 | the file gets the other file's two keys and changes in those 32 bytes only |
| Uninstall.SendBatches | installer/system.c:2303-2317 | each request goes on as many aliases further as the last one has created, up to the end or the first request that creates nothing |
| Uninstall.Request | installer/irx/source/mctools/src/mctools.c:748-768 | the card tries each alias up to an empty name, goes on after a failure, and answers with the number created |
| Uninstall.CreateCrossLinkedFiles | installer/system.c:2271-2330 | whatever the card can and cannot create, which aliases are created in which order, and an error exactly if the last loop with something to send stops short |
| Uninstall.CreatedOnceExactlyIfInOrder | installer/system.c:2303-2317 | every alias but the file itself is created once, in order, exactly if each request creates its first alias and none behind one that fails |
| Uninstall.SecondIsLostThirdDoubled | installer/system.c:2303-2317 | when the second of three aliases fails once, the third is created twice and the second never, without an error |
| Uninstall.FailureAtTheEndIsMended | installer/system.c:2303-2317 | when the last alias of a request fails once, the next request begins with it and nothing is lost |
| Uninstall.RecordedIsCreatedExactlyIfListedOnce | installer/system.c:2332-2375 | when every alias has been created once, the recorded names are the created ones exactly if the file itself is listed at most once |
| Uninstall.AllGoesWell | installer/system.c:2271-2375 | when every alias can be created, no name is empty and the file is listed at most once, every other alias is created once, in order, and just these are recorded |
| Uninstall.GenerateUninstallFile | installer/system.c:2332-2375 | the file holds "FB", the version with its low byte first, five bytes of the console's version, the number of recorded names and 66 bytes for each name |
| Uninstall.HandleUninstallFile | installer/system.c:2025-2055 | the names that are whole in the file are read in order; the number returned is theirs exactly if the file is not cut short |
| Uninstall.RecordAndRead | installer/system.c:2025-2375 | what is recorded is what is read back |
| FontAtlas.Atlas.AtlasAlloc | installer/font.c:310-401 | a glyph gets a place exactly if a frontier is wider and higher than the glyph or the atlas is empty, at the horizontal frontier before the vertical one, and the frontiers move on by it; all padded rectangles stay disjoint and inside; the first glyph lies inside exactly if it fits an empty atlas |
| FontAtlas.Atlas.AtlasCopyFT | installer/font.c:403-412 | the slot shows the bitmap and no pixel outside it changes |
| FontAtlas.ShowsInNumbers | installer/font.c:403-412 | row r of a bitmap at (x, y) lies from byte (y + r) * 128 + x on |
| FontAtlas.ShowsStill | installer/font.c:403-412 | drawing into one slot leaves the picture in any slot apart from it |
| FontAtlas.Font.UploadGlyph | installer/font.c:414-447 | the first atlas that has room gets the glyph, or none has room; every other slot and its picture stay, and no character gets a second slot |
| FontAtlas.ExtendedKeepsSingleSlots | installer/font.c:456-465 | a slot for a character that had none keeps every character to one slot |
| FontAtlas.Font.GetGlyph | installer/font.c:450-485 | a cached character is found and nothing changes; any other is missing from the font, or is uploaded, and fails exactly if it cannot be loaded or no atlas has room |
| WordWrap.BreakLongLanguageString | installer/UI.c:91-140 | each line is broken at its latest space where the first character is too much that has one before it, a space that is too much itself counts again for the next line, and nothing else changes; then every line is narrow enough or has no space |
| WordWrap.WrappingIsIdempotent | installer/UI.c:366-374 | wrapping changes a text exactly if some line of it is too wide and has a space |
| WordWrap.WrapTwice | installer/UI.c:366-374 | wrapping a text twice gives what wrapping it once gave |

## Left out

- Failing card accesses below the page cache: `FlushPageCache` and `CreateNewVirtualDirent` overwrite results and undo nothing, so the tower models a card that does not fail. The dump and restore loops do model failing requests.
- Failing allocations of memory, except that of the IOP buffer, and the ECC bytes written beside each page.
- McEraseBlock2 is called with slot 0 whatever the slot is; the model has one slot.
- Reading the superblock from page 0: the model takes it as given, with the root directory in cluster 0 as the code's tests for cluster 0 expect.
- Wrap-around of page and cluster numbers: `FatTable.Geometry` keeps them below 2^32.
- The byte buffers that the card functions fill and patch are sequences of bytes, so overlapping buffers are not captured; the dump's banks, EE memory, KELF buffers, texture and message text are arrays.
- Creation.CreateNewVirtualDirent: requires a free entry of the table where one is needed, because the code writes outside the data area without one (`Allocation.TargetIsDataExactlyWithFreeEntry`); the record added does not lead to a directory.
- Files.WalkPath: paths through a record whose first cluster starts no chain, on which the scan reads whatever the table leads to, are not modelled.
- DirectoryTree.ResolveIsFind: the leading components are directories; what the walk does below a plain file is stated by `Resolution.ReferenceFollowsWalk`.
- PlainFiles.ResolveMeetsReference: the plain file on the path does not start with a cluster of a directory on the way.
- Creation.SetFileData: excludes a path that goes on below a record without clusters, for which the code writes in front of the data area.
- Removal.DeleteVirtualDirent: the record deleted does not lead to a directory, whose clusters nothing would name afterwards.
- Creation.GetFileData: paths through a record that starts no chain are not modelled. `GetSetFileData` is one function with a mode; here it is `GetFileData`, `SetFileData` and `SetInFreePage`.
- CrossLinks.CreateCrossLinkedFiles: requires the free clusters that the aliases need, no more (`Demand.AllCreatedExactlyIfEnough`); names are fresh, distinct in their directory and without separators.
- Unlinking.DeleteCrossLinkedFiles: the model counts from 0, where the code counts from the result of reading the superblock, which is 0 then; the path given leads to the root.
- `DeleteFATRecord` and `FreeUnusedFATRecords` are not compiled.
- Handshake.MainIsWoken: a unit of the worker's work in hand is taken to end; how long card and file accesses take is not modelled. What the main thread does between jobs, other than closing the file, is left out, as is the restart of the IOP.
- CardImage.DumpMemoryCard: clusters of 64 KB and more, whose size does not fit the 16-bit variable, are excluded. The progress number is left out, and the stop command is a function of the cluster number.
- The synchronous requests share the transmit buffer without the semaphore; none is made during a dump or a restore, and of their packets only that they fill the buffer is modelled.
- The SDK header that gives sceMcFileAttrSubdir its value, 0x20, is not part of this model.
- AlignedCopy.EEMemcpy: a destination that ends before its first line boundary is excluded; what the code does then is stated by `AlignedCopy.PiecesPartitionExactlyFromFirstLine`.
- KelfWindow.ReadWindow: block sizes add up to less than 2^32. The MODLOAD code that asks for windows is not part of this model, and neither are the header, the block table and the ciphers.
- KelfKeys.FindKbit: the SDK header that defines SecrKELFHeader_t and SecrBitBlockData_t is not part of this model; the positions of three fields and both sizes are parameters.
- Uninstall.GenerateUninstallFile: tables of more than 255 names, for which the code's byte counter never ends, are excluded. The older formats of the file are left out.
- FontAtlas.Font.UploadGlyph: glyphs fit an empty atlas; what happens to the first glyph otherwise is stated by `FontAtlas.Atlas.AtlasAlloc`. FreeType, the upload to video memory and the drawing are left out.
- WordWrap.BreakLongLanguageString: the text is a sequence of characters, without the decoding of bytes, and ends where the code stops. Widths are an arbitrary function; in the source the function that gives them has no return statement.
- Menus, drawing, pad input, the installation's file lists, copying of files, HDD installation, card authentication and the MechaCon commands: long case tables, user interface, or fixed sequences to hardware.
