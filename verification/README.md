# PowerOS: file systems, formatter and interrupt-driven devices

A Dafny model of the parts of PowerOS that carry state through many steps, with proofs of what
they keep. `dafny verify dfyconfig.toml` checks everything.

**RAM handler** (`RamTypes`, `RamFile*`, `RamTree`, `RamLocks`, `RamLockRuns`, `RamRename`,
`RamSpace`, `RamDelete`, `RamCreate`, `RamHandles`, `RecordLocks`). Nodes, data blocks and locks are
objects, linked as in the source. Ghost fields name what the pointer chains hold: `chain` and `content`
of a file, `kids` of a directory, `links` of a link target, `locks` of the lock table. Where the source
casts one field `on_List` to three types there are three fields. `RamDelete.HandlerOk` is the state
between two packets: the nodes form a tree with unique names, every link is on the chain of its target
and nowhere else, every file is a chain of full blocks with consistent cursors, no two files share a
block, the lock table keeps the exclusion, and the space in use is the number of nodes and blocks.
The operations of `RamHandles`, `RamDelete.DeleteObject`, `RamCreate.CreateObject`, `RamCreate.OpenNew`
and `RamCreate.Makelink` keep it, whatever allocation fails; the one exception, renaming a hard link, is
below. `Means` says what each name leads to, and is carried through all of them. The runs of
`RamFileSpec` and `RamLockRuns` are made of the steps that these methods promise. Byte-range record locks
are two lists for each file; sums of offset and length wrap at 32 bits as in the source.

**ext2 writer and reader** (`Ext2Disk`, `Ext2Bitmap`, `Ext2Alloc`, `Ext2AllocRuns`, `Ext2Tree`,
`Ext2Map`, `Ext2File`, `Ext2DirBlock`, `Ext2Dir`). The block cache is a map from block numbers to
contents on which no operation fails. A place in the block tree is the path of indices that leads to
it; the allocator fills places, and the reader's own index arithmetic is shown to end at the same
ones. Directory records are bytes in a block. What is done to one file keeps the blocks and bytes of every
other, `Ext2File.OtherFilesKept`.

**LEAN formatter** (`LeanBitmap`, `LeanFormat`). The disk is a map from sectors to 512 bytes; the three
nested loops of setBitmap are three methods.

**Console** (`Utf8`, `Console`). The decoding table, and the cell buffer against a page without end. Wide
characters take two cells.

**Serial device** (`SerialQueue`, `SerialHistory`, `SerialRuns`, `SerialOrder`, `SerialAnswers`,
`SerialCalls`, `SerialDevice`). A step is one section between Disable and Restore, or one interrupt, which
nothing interrupts. A run is any sequence of steps: a read or a write moves its bytes in one section and ends
in another, and everything may happen in between. The methods of `SerialDevice.SerUnit` are these steps, and
commands made of them. Requests are records in a memory addressed by number, with their flags as fields. The
histories `taken` and `given` hold the bytes that reads and writes moved, in that order, the calls that are
still to end their request, and the order in which requests ended.

**Timer** (`TimerSpec`, `TimerDevice`). Every command and every tick is one atomic step.

`Arithmetic` and `Bits` hold multiplication and division by a variable and single bits of a number, in
recursive form; `Arithmetic.QuotientIsDivision`, `Arithmetic.TimesIsProduct` and `Bits.WordBitIs` tie them to
the operators.
`Machine` names bytes and 32-bit words, `Lists` takes elements out of sequences. `hide` statements keep
definitions out of a proof that does not need them.

Some results are about where the code and its promise part:

- rh_FindRLock (functions.c:1171-1202) decides rightly exactly for requests whose end fits in 32 bits;
  `RecordLocks.DecisionRight` proves both directions, `RecordLocks.SafeIffInRange` the same of what runs keep.
  That no wakeup is lost holds of all requests, `RecordLocks.RunLeavesNoSleeper`.
- rh_Rename (functions.c:697-774) takes a hard link off the chain of its target and never puts it back; the
  state is consistent afterwards exactly when no link had the name that nothing stood against renaming,
  `RamHandles.Rename`; `RamHandles.OneLink` is a state in which one does.
- ext2_ReadData (ext2_functions.c:406-457) leaves out the last block of a read over several blocks that
  ends on a block boundary; `Ext2File.ReadData` says which bytes arrive, `Ext2File.ReadIsComplete` proves
  when the buffer holds what was asked for, both directions.
- The writer of the ext2 block tree accepts more blocks than the reader covers, and divides by p instead
  of p * p in the last tree; `Ext2Map.ReaderFindsWritten` gives the exact range in which they agree.
- FreeDataBlock (ext2_lock.c:1133-1158) clears a bit of the group it is given, whatever group the block is
  in; `Ext2Alloc.FreedThroughIff`: the counters stay exact exactly when it is the block's own.
- ext2_FindDirectory (ext2_functions.c:266-343) counts blocks in 8 bits; `Ext2Dir.FindsAllIff`: it finds
  whatever the directory holds exactly up to 256 blocks, and `Ext2Dir.AddedIsSeenIff`: a new name exactly when
  AddDirEntry had room for it there.
- term_write (console_cmds.c:429-510) loses a wide character that breaks at the end of the last row;
  `Console.WideIsShownIff` and `Console.StaysOnScreenIff` say that this is the only case,
  `Console.WideLeavesScreen` that it is one, and `Console.NarrowStaysOnScreen` that streams without wide
  characters stay on the screen.
- Read and Write of the serial device (serialcmds.c:88-199) end their request in a section of its own, after
  the one that moves the bytes. Requests move bytes once and first in, first out, in any interleaving, but
  `SerialOrder.ReadsInOrderIff` says exactly when they end in that order and no byte is lost;
  `SerialOrder.OvertakenRead` and `SerialOrder.AbortedRead` are runs in which they do not.
- A request of the serial device that is begun again while a call from before is still to end it is ended at
  once without being served; `SerialAnswers.ReuseIff`.
- timer_CmpTime (timerfuncs.c:26-37) is right exactly for seconds that differ by less than 2^31;
  `TimerSpec.CmpTimeRight`.
- The free count of a new LEAN volume is exact only when the root extent ends before the backup
  superblock; `LeanFormat.FreeCountExact`, and `LeanFormat.BackupCountsTwice` for one that is not.

## Model

| member | source | states |
|---|---|---|
| RamFile.Read | handler/ram_handler/functions.c:309-351 | delivers exactly the slice of the file at the cursor, short at the end of the file, leaves the rest of the buffer alone and moves the cursor by the count |
| RamFile.Write | handler/ram_handler/functions.c:353-417 | the content becomes the old one with the buffer spliced in at the cursor; a failed allocation leaves a prefix of the buffer spliced in and the cursor where it was; the block chain and every other cursor stay consistent |
| RamFile.Seek | handler/ram_handler/functions.c:863-980 | a refused seek changes nothing; any other moves the cursor or sets the size as `Moved` says: growing appends zeros, shrinking keeps the prefix up to the destination or the furthest other cursor, and growing that fails half way leaves the cursor between the old and the new end |
| RamFile.FreeList | handler/ram_handler/functions.c:44-56 | returns the number of blocks of the list |
| RamFile.FurthestBound | handler/ram_handler/functions.c:944-958 | the position up to which rh_Seek keeps blocks is the maximum of the destination and the positions of the other handles on the file |
| RamFileSpec.RunKeepsOk | handler/ram_handler/functions.c:58-980 | over any run of opens, closes, reads, writes, seeks and size changes through several handles no handle points behind the end of the file; the methods of RamHandles make such steps |
| RamFileSpec.OthersUndisturbed | handler/ram_handler/functions.c:353-417 | an operation through one handle leaves the positions of the others, and, unless it writes there, the bytes before them |
| RamFileSpec.ReadAfterWrite | handler/ram_handler/functions.c:309-417 | writing, seeking back and reading returns the bytes written |
| RamFileSpec.ReadsCompose | handler/ram_handler/functions.c:309-351 | two reads in a row deliver what one read of both sizes delivers |
| RamFileSpec.TruncateThenWrite | handler/ram_handler/functions.c:863-980 | a file truncated through the only handle that is not at its start, and then written, holds exactly what was written |
| RamFileSpec.SeekIs | handler/ram_handler/functions.c:863-900 | origin 0 is the start of the file, 1 the position and 2 its end; a seek is refused exactly for another origin, a target before the start, or one behind the end that is not to set the size |
| RamHandles.Write | handler/ram_handler/functions.c:353-417 | between two packets a write keeps the tree, all files, all cursors and the space accounting, only names that lead to this file change, and the file with its handles makes the step `WriteFile` |
| RamHandles.Seek | handler/ram_handler/functions.c:863-980 | the same for seeks and size changes, with the step `SeekFile`, or nothing at all for a refused one |
| RamHandles.Read | handler/ram_handler/functions.c:309-351 | a read changes one cursor and nothing else in the handler, and is the step `ReadFile` |
| RamHandles.OpenOld | handler/ram_handler/functions.c:58-112 | a handle for MODE_OLDFILE is a shared lock on the file the name leads to, with the cursor at 0; without one nothing has changed, and the error is ObjectNotFound exactly when no entry has the name, and otherwise that of the lock or ObjectWrongType |
| RamHandles.OpenReadWrite | handler/ram_handler/functions.c:58-112 | MODE_READWRITE opens the file the name leads to, and with memory at hand creates an empty one exactly when no entry has the name and the name is good; it ends without a handle exactly when what the name leads to is no file or a lock stands against it, or the name is new and not good, each with its error; every older node stays and keeps its meaning |
| RamHandles.Locate | handler/ram_handler/functions.c:443-447 | a lock in any mode is the new head of the table, on the object the one matching entry leads to; without one nothing has changed, and with memory at hand every matching entry is held against it; each refusal has its error |
| RamHandles.FreeLock | handler/ram_handler/functions.c:506-535 | between two packets exactly this lock goes; only names that lead to its object may lose their archive bit, and they do if the handle modified it |
| RamHandles.Close | handler/ram_handler/functions.c:128-134 | closing takes out exactly this handle and is the step `CloseFile` of its file; the protection of the file loses its archive bit exactly when the handle was marked |
| RamHandles.ChangeLock | handler/ram_handler/functions.c:543-559 | between two packets only the access mode of this lock may change, to exclusive only for the sole holder |
| RamHandles.HandlesInFile | handler/ram_handler/functions.c:58-980 | between two packets no handle points behind the end of its file |
| RamHandles.FurthestIs | handler/ram_handler/functions.c:944-958 | what the search over the lock table finds is the furthest position in the file of the other handles |
| RamHandles.Start | handler/ram_handler/ram_handler.c:63-79 | the handler starts in a consistent state: an empty root and one unit of space in use |
| RamHandles.Rename | handler/ram_handler/functions.c:697-774 | a rename moves at most one node, keeps the meaning of every name, all files, locks and the space; with memory at hand the whole state stays consistent exactly when before it no entry of the old name was a hard link that nothing stood against renaming: the new name good and free, a directory to go to, no exclusive lock; each refusal has its error |
| RamHandles.OneLink | handler/ram_handler/functions.c:1291-1338 | a file and a hard link to it in the root are such a state |
| RamLocks.CheckLock | handler/ram_handler/functions.c:449-474 | succeeds exactly for locks in the table; the lock moves to the front and the others keep their order; the step `Check` of RamLockRuns |
| RamLocks.FirstMatchDecides | handler/ram_handler/functions.c:476-504 | in a table that keeps the exclusion, testing the first lock on an object tells whether any lock on it stands against a request |
| RamLocks.GetLock | handler/ram_handler/functions.c:476-504 | a lock is refused exactly when another one stands against it or when memory is out; otherwise it is the new head of the table; the table makes the step `Get` of RamLockRuns |
| RamLocks.FindLock | handler/ram_handler/functions.c:537-541 | finds the first lock on a node |
| RamLocks.FreeLock | handler/ram_handler/functions.c:506-535 | takes out exactly this lock, and clears the archive bit for a handle that modified its object; no lock at all is freed with success; the step `Free` of RamLockRuns |
| RamLocks.ChangeLock | handler/ram_handler/functions.c:543-559 | grants an exclusive lock only to the sole holder, and changes no other lock; the steps `Check` and `Change` of RamLockRuns |
| RamLocks.RefusedIs | handler/ram_handler/functions.c:476-504 | for the runs of the table a request that is refused for a conflict is no step at all |
| RamLockRuns.RunKeeps | handler/ram_handler/functions.c:449-559 | in every reachable table each object has one exclusive lock or only shared ones, and no lock is there twice |
| RamLockRuns.GrantedIffFree | handler/ram_handler/functions.c:476-504 | in every reachable table a lock is granted exactly when no lock on the object stands against it |
| RamLockRuns.CheckPermutes | handler/ram_handler/functions.c:449-474 | rh_CheckLock only permutes the table |
| RamTree.RemoveNode | handler/ram_handler/functions.c:279-307 | takes a node out of the list of its parent and out of a link chain, the others stay in their order, and the rest of the tree is consistent |
| RamTree.Attach | handler/ram_handler/functions.c:181-198 | links a node in as the first child of a directory |
| RamTree.SameNameIs | handler/ram_handler/functions.c:811-844 | two names mean the same entry exactly when they agree character by character, up to the case of the letters A to Z |
| RamTree.Promote | handler/ram_handler/functions.c:236-257 | the first link takes over kind, data, size and protection, the other links now lead to it, and every remaining name keeps its meaning |
| RamTree.ChainLink | handler/ram_handler/functions.c:1325-1334 | the new link is the first in the chain of its target, in front of the older ones, and no other name changes its meaning |
| RamTree.LooseIsBroken | handler/ram_handler/functions.c:290-306 | a tree in which one link is off the chain of its target, and all else is right, is consistent exactly when there is no such link |
| RamRename.FindEntry | handler/ram_handler/functions.c:811-844 | finds the entry with that name, ignoring case, or says which error there is; following a link gives its target |
| RamRename.CheckName | handler/ram_handler/functions.c:561-576 | accepts exactly the good names |
| RamRename.IsAncestor | handler/ram_handler/functions.c:732-743 | the walk of rh_Rename over the parents tells whether one node is below the other |
| RamRename.Rename | handler/ram_handler/functions.c:697-774 | a node moves below its new parent under its new name, never below itself, and the directory graph stays a tree with unique names; what moves is the only entry of that name that nothing stood against; a renamed hard link ends off the chain of its target, and the tree is consistent exactly when the renamed entry is no hard link; every refusal has the error of the first check that fails, in the order of rh_Rename |
| RamRename.NoCycle | handler/ram_handler/functions.c:732-743 | in a consistent tree no node is above itself |
| RamRename.Walk | handler/ram_handler/functions.c:732-743 | every walk over parents ends at the root |
| RamRename.BelowIsOnWalk | handler/ram_handler/functions.c:732-743 | a node is below another one exactly when that is on its way to the root |
| RamDelete.FreeNode | handler/ram_handler/functions.c:261-270 | freeing a node gives back one unit for it and one for each of its blocks |
| RamDelete.PromoteData | handler/ram_handler/functions.c:236-257 | a promotion moves the blocks, so every file and the space in use stay consistent |
| RamDelete.DeleteObject | handler/ram_handler/functions.c:211-277 | exactly the entry goes that the name, or no name, stands for; every other name still leads to the same type, size, protection and data; a refusal changes nothing, and has its error: no directory, no such entry, a directory that is not empty, a protected entry, or one that is locked |
| RamCreate.CreateObject | handler/ram_handler/functions.c:136-209 | makes an empty, locked node with that name and the protection of the entry it replaces; at most the entry of the same name is gone and no other name changes its meaning; with memory at hand every refusal has its error |
| RamCreate.OpenNew | handler/ram_handler/functions.c:58-112 | an open that creates gives an empty file with the cursor at its start and keeps the space accounting; at most the entry of the same name is gone and no other name changes its meaning; with memory at hand a refusal makes no node |
| RamCreate.Makelink | handler/ram_handler/functions.c:1291-1338 | on success a free and good name becomes a hard link to what the lock is on; in any case all older names stay and keep their meaning; an unknown lock, a name that is taken and one that is not good each have their error |
| RecordLocks.DecisionRight | handler/ram_handler/functions.c:1171-1202 | the overlap test is right about all records that do not wrap and about an identical one exactly when offset + length fits in 32 bits |
| RecordLocks.OverlapIsSharedByte | handler/ram_handler/functions.c:1180-1190 | for records that are not empty the test means having a byte in common |
| RecordLocks.ClashIs | handler/ram_handler/functions.c:1171-1190 | where nothing wraps, a held record stands against a request exactly when they belong to different handles, their ranges overlap and one of the two has mode 0 or 1 |
| RecordLocks.ModesAre | include/libraries/dos_records.h:15-18 | of the four modes 0 and 1 exclude others and 2 and 3 share; 1 and 3 are refused at once instead of waiting |
| RecordLocks.FileRecords.FindRLock | handler/ram_handler/functions.c:1171-1202 | grants a record exactly when no held record of another handle clashes, unless memory is out |
| RecordLocks.FileRecords.LockRecord | handler/ram_handler/functions.c:1158-1169 | grants a request that nothing stands against, in front of the held records; refuses one of mode 1 or 3 otherwise, with LockCollision and no change, and queues any other as the last; never breaks the exclusion |
| RecordLocks.FileRecords.Wakeup | handler/ram_handler/functions.c:1250-1275 | grants waiters in queue order, as `Woken` says of the lists before and after, and keeps the exclusion even when memory is out |
| RecordLocks.FileRecords.UnlockRecord | handler/ram_handler/functions.c:1227-1248 | takes out the first record of this handle with exactly this range; then the waiters that leave hold their records in front of the others that were held and have their replies, as `Woken` says; or reports that there is no such record and changes nothing |
| RecordLocks.FileRecords.KillRWait | handler/ram_handler/functions.c:1277-1289 | an expired waiter leaves the queue, those that its leaving lets in do as `Woken` says, and it is answered last, with the timeout |
| RecordLocks.WakeIs | handler/ram_handler/functions.c:1250-1275 | a wakeup takes the waiters of some ascending list of places out of the queue: each got a record that nothing held by then clashes with, now held in front of those before, and its reply, in that order; the others keep their order, and each is out of the range or clashes with a record that was held or went to a waiter before it |
| RecordLocks.WakeLeavesNoSleeper | handler/ram_handler/functions.c:1250-1275 | after a wakeup every waiter conflicts with some held record, whether ranges wrap or not |
| RecordLocks.RunLeavesNoSleeper | handler/ram_handler/functions.c:1158-1289 | over any run without allocation failure, of any requests, every waiter conflicts with some held record: no wakeup is lost |
| RecordLocks.RunKeepsOk | handler/ram_handler/functions.c:1158-1289 | over any run without allocation failure, of requests that do not wrap, held records of different handles are disjoint or shared |
| RecordLocks.WrappingBreaksSafety | handler/ram_handler/functions.c:1158-1202 | two exclusive requests of different handles for one range that wraps at 32 bits are both granted |
| RecordLocks.SafeIffInRange | handler/ram_handler/functions.c:1158-1202 | runs of requests for one range keep the exclusion, every one of them, exactly when offset + length fits in 32 bits |
| RecordLocks.TimeOutOnlyRemoves | handler/ram_handler/functions.c:1277-1289 | where every waiter is blocked, as after any run, a timeout removes its waiter and wakes nobody |
| RecordLocks.NextKeepsPackets | handler/ram_handler/functions.c:1204-1289 | a packet that has to wait is answered once; none is lost or answered twice |
| Ext2Bitmap.FindFirstUnsetBit | handler/ext2_handler/bitmap.c:3-10 | the first clear bit, or -1 exactly when all bits are set |
| Ext2Bitmap.PutBitAt | handler/ext2_handler/bitmap.h:6-16 | setting or clearing a bit changes that bit and no other |
| Ext2Bitmap.CountAfterPut | handler/ext2_handler/bitmap.h:10-16 | setting or clearing a bit changes the number of clear bits by one when the bit changes |
| Bits.WordBitIs | handler/ext2_handler/bitmap.h:6-8 | bit k of a word is the quotient by 2 to the k, modulo 2 |
| Bits.LowestClear | handler/ext2_handler/bitmap.c:6-7 | the lowest clear bit of a word that has one |
| Ext2Alloc.FindBlockGroup | handler/ext2_handler/ext2_lock.c:543-561 | a nearest group that qualifies, the lower one on ties, or none exactly when no group qualifies |
| Ext2Alloc.FindFreeBlock | handler/ext2_handler/ext2_lock.c:568-590 | a group with a free count above 0 has a free block, so the exit for a corrupted disk is never taken |
| Ext2Alloc.ReserveDataBlock | handler/ext2_handler/ext2_lock.c:568-620 | hands out a block that was free, from this group exactly when it has one and else from a nearest group, marks it, and keeps every counter exact; nothing else changes |
| Ext2Alloc.FreeDataBlock | handler/ext2_handler/ext2_lock.c:1133-1157 | gives exactly this block back, with all counters |
| Ext2Alloc.FreesOwnBit | handler/ext2_handler/ext2_lock.c:1133-1157 | the bit that is cleared lies in the bitmap of the group given exactly when the block belongs to that group |
| Ext2Alloc.FreedThroughIff | handler/ext2_handler/ext2_lock.c:1133-1157 | a block freed through a group leaves all counters exact exactly when the group is its own, whatever the bit outside the bitmap is |
| Ext2Alloc.VolumeWith | handler/ext2_handler/ext2_lock.c:606-619 | changing a bit together with the two counters keeps group counts equal to clear bits and the superblock count equal to their sum |
| Ext2Alloc.DiskWithIs | handler/ext2_handler/ext2_lock.c:606-619 | setting or clearing the bit of a block changes no block but the bitmap of its group, and no other bit of that |
| Ext2Alloc.UsedIs | handler/ext2_handler/bitmap.h:6-8 | a block of a group is in use exactly when the bit of its number in the group, counted from the first data block, is set in the bitmap of the group: 32 to a word, the lowest first |
| Ext2AllocRuns.RunKeepsOk | handler/ext2_handler/ext2_lock.c:568-620 | over any run the counters are exact, every inode counts the blocks it owns, and free and owned blocks add up to the same number |
| Ext2AllocRuns.NobodyOwned | handler/ext2_handler/ext2_lock.c:568-620 | no block is handed out while somebody owns it |
| Ext2AllocRuns.Reserve | handler/ext2_handler/ext2_lock.c:568-620 | a reservation is the step `Reserve` of such a run: the block was nobody's and is the inode's |
| Ext2AllocRuns.Free | handler/ext2_handler/ext2_lock.c:1133-1157 | a release is the step `Free` of such a run |
| Ext2Tree.AddIndirectPointer | handler/ext2_handler/ext2_lock.c:622-654 | fills one place of the tree, or returns what is there; every other place keeps its block and no block is in two places |
| Ext2Tree.RootBlock | handler/ext2_handler/ext2_lock.c:663-672 | the same for an entry of the inode |
| Ext2Tree.EnteredAt | handler/ext2_handler/ext2_lock.c:641-648 | entering a block at one place leaves every other place as it was |
| Ext2Map.AddInodeDataBlock | handler/ext2_handler/ext2_lock.c:656-716 | afterwards all blocks on the way to block i exist; those that did are kept, everything off the way and all foreign blocks are untouched. The block is entry i of the inode for i < 12, word i - 12 of the block in entry 12 for the next p, word k % p of the block in word k / p of the one in entry 13 for the next p * p, and from there on word k % p of the block in word 0 of the block in word k / p of the one in entry 14; from 12 + p + 2 * p * p on it reports an error |
| Ext2Map.GetBlockNumber | handler/ext2_handler/ext2_lowlevel.c:48-110 | returns entry i of the inode for i < 12, word i - 12 of the block in entry 12 for the next p, word k % p of the block in word k / p of the one in entry 13 for the next p * p, word k of the block in word 0 of the block in word 0 of the one in entry 14 for the next p, and 0 from there on |
| Ext2Map.LayoutIs | handler/ext2_handler/ext2_lock.c:656-716 | the place of block i in terms of the words of the disk, for the inode's own entries and for its three trees |
| Ext2Map.RouteOf | handler/ext2_handler/ext2_lock.c:685-709 | block 12 + p + p * a + b is at [13][a][b], and block 12 + p + p * p + p * a + b at [14][a][0][b] |
| Ext2Map.ReaderFindsWritten | handler/ext2_handler/ext2_lowlevel.c:48-110 | the reader finds the block the writer allocated for i exactly when i is in the reader's range |
| Ext2Map.ReaderMissesFirst | handler/ext2_handler/ext2_lowlevel.c:48-110 | the block behind the reader's range is one that the writer allocates and the reader does not find, for every block size |
| Ext2Map.OthersStay | handler/ext2_handler/ext2_lock.c:656-716 | allocating block i leaves every other block of the file where the reader finds it |
| Ext2Map.RoutesDiffer | handler/ext2_handler/ext2_lock.c:656-716 | different blocks of a file have different places |
| Ext2Map.MappedApart | handler/ext2_handler/ext2_lock.c:568-716 | data blocks of a file are pairwise distinct and never blocks of pointers |
| Ext2Map.OtherFileKept | handler/ext2_handler/ext2_lock.c:656-716 | allocating for one file keeps the block map of every other file and keeps the two apart |
| Ext2File.Write | handler/ext2_handler/ext2_lock.c:1076-1131 | a write is a splice: old[..o] + buffer + old[o+n..], with length, cursor and result as they should be; a cursor behind the end is refused; every other file keeps its blocks and bytes |
| Ext2File.DataKeepsOthers | handler/ext2_handler/ext2_lock.c:1092-1118 | writing to a data block of one file keeps the blocks and bytes of every other file |
| Ext2File.SameContent | handler/ext2_handler/ext2_lock.c:1076-1131 | a file whose blocks are kept with their bytes has the content it had |
| Ext2File.NewFileOk | handler/ext2_handler/ext2_lock.c:656-721 | a new inode without blocks is a consistent file apart from every other |
| Ext2File.WriteLoop | handler/ext2_handler/ext2_lock.c:1092-1118 | the loop puts the buffer at the cursor block by block, and every byte before and after it is kept |
| Ext2File.BlocksCover | handler/ext2_handler/ext2_lock.c:719-721 | the number of blocks is the least that holds the size |
| Ext2File.ContentIs | handler/ext2_handler/ext2_functions.c:406-457 | byte k of a file is byte k % bs of the block that the reader finds for k / bs |
| Ext2Disk.BytesAre | handler/ext2_handler/ext2_lowlevel.c:48-110 | a block of words has the bytes of its words in order, the lowest of each first |
| Ext2File.GetBlockINode | handler/ext2_handler/ext2_lowlevel.c:112-123 | the bytes of a block of the file, or none |
| Ext2File.ReadData | handler/ext2_handler/ext2_functions.c:406-457 | the buffer receives the first bytes of the range and keeps the rest; how many is given by `CopiedBy` |
| Ext2File.CopiedIs | handler/ext2_handler/ext2_functions.c:406-457 | a read copies all bytes of a range within one block, or of one that does not end on a block boundary, and else all but those of its last block |
| Ext2File.ReadIsComplete | handler/ext2_handler/ext2_functions.c:417-455 | where the last byte of the buffer was another one before, the buffer holds content[a..b] afterwards exactly when the range lies in one block or does not end on a block boundary |
| Ext2File.CompleteReadIsSlice | handler/ext2_handler/ext2_functions.c:406-457 | a complete read delivers exactly content[a..b] |
| Ext2File.SpliceThenSlice | handler/ext2_handler/ext2_lock.c:1076-1131 | reading the range that was written yields the buffer, and the bytes before and behind it are those there were |
| Ext2DirBlock.RecordReadsBack | handler/ext2_handler/ext2_lock.c:728-740 | a record made by FillDirEntry reads back as the entry it was made from |
| Ext2DirBlock.FieldsAre | handler/ext2_handler/ext2.h:162-170 | the inode is in the first four bytes of a record, the lowest first, its length in the next two, then the length of the name, the type, and the name; it has room for its name, rounded up to four, and ends within the block |
| Ext2DirBlock.EntrySize | handler/ext2_handler/ext2_lock.c:723-726 | header and name, rounded up to a multiple of four |
| Ext2DirBlock.SplitOnTheWay | handler/ext2_handler/ext2_lock.c:909-915 | splitting a record, which is cut to the size of its name, keeps the block tiled, adds exactly one entry and keeps all others in order |
| Ext2DirBlock.FindRoom | handler/ext2_handler/ext2_lock.c:905-919 | the first record with room |
| Ext2DirBlock.FirstRoomIsFirst | handler/ext2_handler/ext2_lock.c:902-919 | no record before it has room for the new one behind its own name |
| Ext2Dir.AddDirEntry | handler/ext2_handler/ext2_lock.c:884-950 | every block stays tiled, exactly one entry is new, in the first block with room or else in a new one, and all others are kept in order; the link count goes up for a directory, in 16 bits, and every other file is kept |
| Ext2Dir.FindDirectory | handler/ext2_handler/ext2_functions.c:267-342 | the inode of the first entry of the same length and name, ignoring case, in the blocks that an 8-bit counter reaches; nothing for names that start with two dots in the root |
| Ext2Dir.FindsAllIff | handler/ext2_handler/ext2_functions.c:267-342 | where all names differ, the search answers as one over the whole directory would, for every name, exactly when there are at most 256 blocks; otherwise the first name of the 257th is not found |
| Ext2Dir.AddedIsFound | handler/ext2_handler/ext2_functions.c:267-342 | in the whole directory, after an insertion of a new name that name is found, and every other one is answered as before |
| Ext2Dir.AddedIsSeenIff | handler/ext2_handler/ext2_lock.c:884-950 | after an insertion of a new name the search with its 8-bit counter finds its inode exactly when the directory had less than 256 blocks, or room in one of the first 256, and all other names are answered as before |
| Ext2Dir.AddedDiffers | handler/ext2_handler/ext2_lock.c:884-950 | inserting a new name leaves all names different |
| Ext2Dir.LookupNone | handler/ext2_handler/ext2_functions.c:294-318 | nothing is found exactly when no entry matches |
| Ext2Dir.LookupFirst | handler/ext2_handler/ext2_functions.c:294-318 | the search finds the first of the entries that match |
| Ext2Dir.MatchesIs | handler/ext2_handler/ext2_functions.c:301-311 | two names match exactly when they agree byte by byte, up to the case of the letters A to Z |
| LeanFormat.Formatter.SetBitmap | apps/shell/makeleanfs.c:268-301 | exactly the bits of begin to end - 1 are set, across bands, no other bit and no other sector changes, and the free count goes down by end - begin |
| LeanBitmap.BitsApart | apps/shell/makeleanfs.c:272-293 | no two sectors share a bit |
| LeanBitmap.BitIs | apps/shell/makeleanfs.c:268-293 | the bit of sector s is bit k % 8 of byte k / 8 of sector b + o / 4096, where o is its number within its band, k = o % 4096, and b the start of the band, or bitmapStart for the first one |
| LeanFormat.Formatter.MakeBand | apps/shell/makeleanfs.c:346-361 | a new band has exactly the bits of its own bitmap set |
| LeanFormat.Formatter.Make | apps/shell/makeleanfs.c:314-428 | after Make exactly the bits of the reserved sectors are set, the free count is the number of sectors less the sizes of the reserved ranges, both superblock sectors hold the superblock, and the root inode and the root directory are in the two sectors behind the first bitmap, unless the backup superblock is there |
| LeanFormat.VolumeIs | apps/shell/makeleanfs.c:314-350 | bands of 2 to the n sectors, one bit for each of them, as many as are begun; the backup superblock in the last sector of the first band or of the volume, the root behind the first bitmap |
| LeanFormat.ReservedIs | apps/shell/makeleanfs.c:346-416 | the reserved sectors are the bitmaps, all up to the superblock, its backup, and the extent of the root directory |
| LeanFormat.FreeCountExact | apps/shell/makeleanfs.c:336-428 | the free count equals the sectors less the set bits exactly when the reserved ranges do not overlap, that is, when the root extent ends before the backup superblock |
| LeanFormat.BackupCountsTwice | apps/shell/makeleanfs.c:336-428 | a volume of 100 sectors for which the free count is too low |
| Utf8.AcceptsEncoding | device/console_x86vga/console_cmds.c:16-43 | running the encoding of a character ends in ACCEPT with it and neither accepts nor rejects before; encodings as in section 3 of RFC 3629 |
| Utf8.AcceptedIsEncoding | device/console_x86vga/console_cmds.c:16-43 | what first leads back to ACCEPT is the encoding of the codepoint it yields |
| Utf8.LengthIs | device/console_x86vga/console_cmds.c:16-43 | the number of bytes of a character is settled by its first byte |
| Utf8.StepNearer | device/console_x86vga/console_cmds.c:33-43 | every step that does not reject brings the end of the character one byte nearer, and accepts exactly with the last |
| Console.ConsoleUnit.TermWrite | device/console_x86vga/console_cmds.c:429-510 | after every byte the buffer is the window of the reference page and the cursor is the page's, for which `Console.ControlIs` and `Console.CharacterIsPlaced` say where each byte takes it; csr_x <= width and csr_y <= height |
| Console.ConsoleUnit.WriteStream | device/console_x86vga/console_cmds.c:429-510 | the same for every stream of bytes, wide characters among them; a stream is its bytes one after the other, `Console.StreamIs` |
| Console.ConsoleUnit.ScrollUp | device/console_x86vga/console_cmds.c:395-413 | the rows move up by one and the last one is blank |
| Console.ConsoleUnit.MemMove | device/console_x86vga/console_cmds.c:61-73 | moves a range of cells even where source and destination overlap |
| Console.ConsoleUnit.CellSet | device/console_x86vga/console_cmds.c:287-296 | sets the cell at the cursor and no other |
| Console.WriteKeepsOk | device/console_x86vga/console_cmds.c:429-510 | no byte moves the cursor further than directly behind the last column or row |
| Console.StaysOnScreenIff | device/console_x86vga/console_cmds.c:423-520 | the cursor leaves the screen exactly when a wide character breaks at the end of the last row |
| Console.NarrowStaysOnScreen | device/console_x86vga/console_cmds.c:423-520 | over any stream of bytes none of which completes a wide character the cursor stays on the screen |
| Console.WideLeavesScreen | device/console_x86vga/console_cmds.c:423-520 | U+4E00 in the last column of the last row leaves the cursor below the screen |
| Console.WideIsShownIff | device/console_x86vga/console_cmds.c:423-520 | a wide character takes two columns of one row, and is lost exactly when it breaks at the end of the last row |
| Console.TopIsRow | device/console_x86vga/console_cmds.c:444-457 | after every stream of bytes the rows scrolled away are those that no longer fit on the screen |
| Console.CharacterIsPlaced | device/console_x86vga/console_cmds.c:429-510 | the encoding of a character that is no control character puts it at the cursor, after the delayed wrap, and moves one column on; a wide one goes to the next row where only one column is left |
| Console.ControlIs | device/console_x86vga/console_cmds.c:429-510 | on the cursor after the wrap, a newline goes to the next row in the same column, unless it is held back in column 0, a tab to the next multiple of 8, a backspace one column left or to column 0, the bell nowhere; a return goes to column 0 of the same row without the wrap; no cell changes |
| Console.IncompleteIs | device/console_x86vga/console_cmds.c:429-436 | a byte that does not complete a character leaves cells and cursor alone, and after a rejected one the decoder starts anew |
| Console.StreamIs | device/console_x86vga/console_cmds.c:429-510 | writing two streams in a row is writing the first and then the second, and a stream of one byte is that byte |
| SerialRuns.NextKeepsInv | device/serial_x86/serialcmds.c:88-199 | every section between Disable and Restore and every interrupt keeps, wherever the other calls are: both streams first in, first out in the order in which requests move bytes; idle only with nothing to send; queued requests waiting, a done one in no queue and answered once, or not at all when it is quick; the head of each queue CURRENT; bytes moved once at most between two BeginIOs; success only for who got its bytes |
| SerialRuns.RunKeepsInv | device/serial_x86/serialdevice.c:89-264 | the same for every run of sections and interrupts in any order |
| SerialHistory.ClosedOrdered | device/serial_x86/devicehelper.h:72-118 | ending a request keeps the order of completion the order of moving bytes exactly when it ends well as the oldest open one |
| SerialOrder.ReadsInOrderIff | device/serial_x86/serialcmds.c:88-138 | over every run reads end in the order in which they took their bytes, and none of these is lost, exactly when each is ended as the oldest open one, not aborted before, and no interrupt serves one while a call is open |
| SerialOrder.WritesInOrderIff | device/serial_x86/serialcmds.c:141-199 | the same for writes |
| SerialOrder.CompletedReadsIff | device/serial_x86/serialcmds.c:88-138 | from the start, the completed reads in order of completion are all that took bytes, in that order, exactly when every step was in turn and no call is open; then their bytes followed by the input ring are those accepted from the UART |
| SerialOrder.CompletedWritesIff | device/serial_x86/serialcmds.c:141-199 | the same for writes: then the bytes sent followed by the output ring are those of the completed writes |
| SerialOrder.OvertakenRead | device/serial_x86/serialcmds.c:125-137 | a run of six steps in which an interrupt between the two sections of a read serves and ends another read first |
| SerialOrder.AbortedRead | device/serial_x86/serialcmds.c:125-137 | a run in which a read is aborted between its two sections, and its byte is in no completed read and in no ring |
| SerialAnswers.MarkIff | device/serial_x86/serialcmds.c:102-109 | IOF_SERVICING is set exactly when the request has moved bytes since it was begun |
| SerialAnswers.GuardIsNeeded | device/serial_x86/serialcmds.c:102-109 | no request moves bytes twice between two BeginIOs, and a section without the test of IOF_SERVICING would break that exactly for the marked requests |
| SerialAnswers.SuccessIsServed | device/serial_x86/serialcmds.c:134-137 | a read that reports success took all the bytes it asked for since it was begun, and its buffer holds them |
| SerialAnswers.AnsweredOnce | device/serial_x86/devicehelper.h:80-85 | over every run a request that is done keeps its error and its one reply, or none when it is quick, until it is begun anew |
| SerialAnswers.AbortLosesIff | device/serial_x86/serialdevice.c:261-264 | a read that is aborted took bytes, which nobody gets, exactly when it was marked, between the two sections of a call |
| SerialAnswers.ReadCountsIff | device/serial_x86/serialcmds.c:31-45 | a call that comes to a read that takes bytes completes it exactly when it was not done before |
| SerialAnswers.ReuseIff | device/serial_x86/serialdevice.c:229-240 | a request that is begun anew is ended at once, with success and without a byte, exactly when a call that served it before is still open |
| SerialAnswers.ReceivedServes | device/serial_x86/serialdevice.c:122-143 | an interrupt accepts bytes in order while there is room and counts the rest as overruns; the reads that leave the queue got their bytes; who still waits is being served by a call or asks for more than there is |
| SerialAnswers.TransmittedServes | device/serial_x86/serialdevice.c:145-172 | the unit turns idle exactly when nothing was left to send; else the first 16 bytes of the ring, or all of fewer, go to the UART, the writes that leave the queue were served, and who still waits is being served or the ring is full |
| SerialCalls.ReadCalledIs | device/serial_x86/serialdevice.c:229-259 | without interruption a read is served at once exactly when nothing waits before it and its bytes are there, and its buffer receives them; any other waits last in its queue |
| SerialCalls.WriteCalledIs | device/serial_x86/serialdevice.c:229-259 | without interruption a write is served at once exactly when nothing waits before it and the ring is not full; it hands over as many bytes as there is room for, in order; any other waits last |
| SerialCalls.CommandCalledIs | device/serial_x86/serialdevice.c:229-259 | all other commands are done at once, with one reply unless they are quick: CLEAR drops the input ring, STOP and START set the flag, FLUSH and RESET abort all that waits, and an unknown one ends with its error |
| SerialCalls.FlushedIs | device/serial_x86/serialcmds.c:48-66 | aborts all waiting requests, with that error, leaves both queues empty and moves no byte |
| SerialCalls.RetriedIs | device/serial_x86/serialcmds.c:31-45 | the head of the input queue is served exactly when nobody serves it yet and its bytes are there; the output queue is looked at only when no read waits |
| SerialDevice.SerUnit.ReadSection | device/serial_x86/serialcmds.c:99-134 | takes all the bytes a read asks for from the front of the ring and marks it, or takes none; the step `Take` |
| SerialDevice.SerUnit.WriteSection | device/serial_x86/serialcmds.c:151-194 | takes as many bytes of a write as there is room for, the first for the UART when it is idle, and marks it, or takes none; the step `Give` |
| SerialDevice.SerUnit.Read | device/serial_x86/serialcmds.c:88-138 | the section followed by EndCommandQueue, for a request that took its bytes |
| SerialDevice.SerUnit.Write | device/serial_x86/serialcmds.c:141-199 | the same for a write |
| SerialDevice.SerUnit.ReceiveInterrupt | device/serial_x86/serialdevice.c:122-143 | the step `ReceiveInterrupt`, with calls open or not |
| SerialDevice.SerUnit.TransmitInterrupt | device/serial_x86/serialdevice.c:145-172 | the step `TransmitInterrupt`, with calls open or not |
| SerialDevice.SerUnit.ProcessReads | device/serial_x86/serialdevice.c:67-87 | every waiting read is tried in the order of the queue; one that a call is serving is left alone |
| SerialDevice.SerUnit.ProcessWrites | device/serial_x86/serialdevice.c:67-87 | the same for the waiting writes |
| SerialDevice.SerUnit.EndCommandQueue | device/serial_x86/devicehelper.h:72-118 | a request that was done stays as it is; any other is done then, with this error, and with one more reply exactly when it was not quick; the step `EndCommand` |
| SerialDevice.SerUnit.QueueCommandQueue | device/serial_x86/devicehelper.h:15-44 | appends a request, CURRENT when it is the first and QUEUED otherwise |
| SerialDevice.SerUnit.BeginIO | device/serial_x86/serialdevice.c:229-259 | the whole command, as `Called` says, keeps the invariant and the answers of all other requests; a command that does not queue has one reply unless it is quick, a read or a write one exactly when it is done |
| SerialDevice.SerUnit.AbortIO | device/serial_x86/serialdevice.c:261-264 | the request is done and in no queue, aborted unless it was done before, with one reply unless it is quick; one that was done stays untouched |
| SerialDevice.SerUnit.Flush | device/serial_x86/serialcmds.c:48-66 | both queues are empty and all that was in them is aborted, requests in service too |
| SerialDevice.SerUnit.Reset | device/serial_x86/serialcmds.c:69-74 | Stop, Flush and Start in a row |
| SerialDevice.SerUnit.Start | device/serial_x86/serialcmds.c:31-45 | the unit runs, and the head of the input queue, or else of the output queue, is tried again |
| SerialDevice.RingPush | device/serial_x86/serialdevice.c:129-133 | a byte stored behind the ring is its last |
| SerialDevice.RingPop | device/serial_x86/serialcmds.c:128-134 | the byte at the start is the first |
| SerialQueue.EndKeepsOk | device/serial_x86/devicehelper.h:72-118 | ending any request leaves it done, in no queue and answered once, or not at all when it is quick, every other queued request waiting, and the head of each queue CURRENT |
| SerialQueue.EndReplies | device/serial_x86/devicehelper.h:72-118 | a request that is not done yet gets this error and one more reply exactly when it is not quick; one that is done stays as it is |
| SerialQueue.RepliesAre | device/serial_x86/devicehelper.h:72-118 | nothing is replied to before it is done; what is done has one reply when it is not quick and none when it is; reads and writes are never quick |
| SerialQueue.BeginKeepsOk | device/serial_x86/devicehelper.h:15-44 | beginning a request that is new or done keeps that order; a read or a write is the last in its queue, CURRENT or QUEUED, and no longer quick, and there is no reply yet |
| TimerDevice.TimerBase.VBLTick | device/timer/_timerirq.c:21-75 | a tick advances both clocks and answers exactly the requests that are due, in all units but UNIT_MICROHZ |
| TimerDevice.TimerBase.AddDelay | device/timer/systime.c:184-199 | the time of the request becomes Elapsed plus the delay, in normal form, and it joins the queue of its unit |
| TimerDevice.TimerBase.AddAlarm | device/timer/systime.c:11-41 | an alarm whose time is over is answered at once, any other joins the queue |
| TimerDevice.TimerBase.AbortIO | device/timer/timerfuncs.c:17-24 | a waiting request leaves its queue and is answered once, as aborted; an answered one stays as it is |
| TimerDevice.TimerBase.AddTime | device/timer/timerfuncs.c:39-49 | the sum in normal form |
| TimerSpec.CmpTimeRight | device/timer/timerfuncs.c:26-37 | the comparison is right exactly when the seconds differ by a number that fits in 32 signed bits |
| TimerSpec.ExpiredIsEarlier | device/timer/_timerirq.c:44-46 | the test of the tick means earlier |
| TimerSpec.TickAdds | device/timer/_timerirq.c:6-12 | a tick adds 7812 microseconds and keeps the normal form |
| TimerSpec.TickOnRequest | device/timer/_timerirq.c:28-72 | a tick answers a waiting request, with no error and a time of zero, exactly when its time is before the new time of its clock, and takes it out of its queue; any other stays as it is |
| TimerSpec.NextKeepsOk | device/timer/_timerirq.c:21-75 | every request either waits in the queue of its unit, with its time not over and no reply yet, or was answered once, or not at all when it is quick |
| TimerSpec.ElapsedCountsTicks | device/timer/_timerirq.c:21-26 | after n ticks Elapsed is the normal form of its start plus n * 7812 microseconds |
| TimerSpec.CurrentCountsTicks | device/timer/_timerirq.c:21-26 | and so for the system time |
| TimerSpec.AnsweredInTime | device/timer/_timerirq.c:41-53 | after any run a request that nobody touches is answered exactly once, with no error, if its clock is later than its time, and waits as it was if not; the clock of a delay is Elapsed, that of an alarm the system time |
| TimerSpec.DelayFromRequest | device/timer/systime.c:184-199 | counted from the request, a delay waits exactly as long as the ticks since then do not exceed it |
| TimerSpec.AlarmFromRequest | device/timer/systime.c:11-41 | counted from the request, an alarm waits exactly as long as the system time with the ticks since then is not behind its time, and not at all when that is over |

## Left out

- RAM handler, paths: rh_FindDir and the splitting of path names; every operation starts from the directory and the last component.
- RAM handler, node data that nothing here reads: comments, dates, on_DelCount, notification requests, ExAll and ExNext.
- RAM handler, soft links: the source reports ERROR_NOT_IMPLEMENTED.
- RAM handler, 32-bit wrap of file positions: sizes and positions are unbounded integers.
- RamCreate.CreateObject: creating in something that is no directory, where the source uses an uninitialised pointer; the callers pass a directory.
- RamCreate.OpenNew: the same.
- RamCreate.Makelink: the same.
- RamHandles.OpenReadWrite: the same.
- RamHandles.OpenOld: a directory that is itself a link; path lookup follows links before it gets here.
- RamHandles.Locate: the same.
- RamHandles.Rename: a target directory that is itself a link, for the same reason.
- RamRename.Rename: the same.
- RamDelete.DeleteObject: the empty name in the root, where the source reads the parent of the root.
- RecordLocks.RunKeepsOk: requests that wrap at 32 bits; `RecordLocks.SafeIffInRange` is the exact condition, and the wakeups are in `RecordLocks.RunLeavesNoSleeper` for all requests.
- RecordLocks: record locks are not released when their handle is closed, and neither is this modelled; timers are events, and their memory is not.
- RecordLocks.FileRecords: the two linked lists are sequences, and a record is a value.
- Ext2Alloc.ReserveDataBlock: the source follows a null pointer when the disk is full; some group must have a free block.
- Ext2Alloc.FreeDataBlock: the group must be the block's own; for any other `Ext2Alloc.FreedThroughIff` says what is lost.
- Ext2AllocRuns.Reserve: as for Ext2Alloc.ReserveDataBlock.
- Ext2AllocRuns.Free: as for Ext2Alloc.FreeDataBlock.
- Ext2Tree.AddIndirectPointer: a free block must be there, as for Ext2Alloc.ReserveDataBlock.
- Ext2Tree.RootBlock: the same.
- Ext2Map.AddInodeDataBlock: between 12 + p + 2 * p * p and 12 + p + p * p + p * p * p blocks the source writes outside its pointer block; these indices are excluded, and the free blocks needed on the way must be there.
- Ext2Map.GetBlockNumber: the source follows a null pointer when a block of pointers is missing; they must exist.
- Ext2File.GetBlockINode: as for Ext2Map.GetBlockNumber; block numbers are within the reader's range, which `Ext2Map.ReaderFindsWritten` gives.
- Ext2File.Write: no block operation fails, offset + size + block size fits in 32 bits, the file has no holes, and the missing blocks are free.
- Ext2File.WriteLoop: the same.
- Ext2File.ReadData: an offset behind the end, for which the source computes with a size below zero, and an empty range at offset 0, for which its loop runs over all block numbers.
- Ext2Dir.AddDirEntry: where no block has room, a free block for one more and for the way to it must be there, and the directory must stay within the range of the reader.
- Ext2Dir.FindDirectory: building the node from the entry is not modelled, its inode number is the result.
- Ext2Bitmap: bitmap words are values in the cached block, changed by replacing the block.
- ext2 shrinking, removal of entries and inodes, reference counts, mounting, superblock backups, inode times and the inode allocator.
- LeanFormat.Formatter.Make: the disk must reach past the root inode and the root extent must lie on it; contents of the superblock and the root directory are parameters, checksums and the UUID are not modelled; the free count is an unbounded integer.
- Console.ConsoleUnit: drawing, the ANSI escape parser, colours and scrolling by more than one row; the width is a multiple of 8 as the tab stops need it.
- SerialRuns.RunKeepsInv: a request is begun only when it is new or done and no call is still to end it, see `SerialAnswers.ReuseIff`; an interrupt runs to its end, and a reply is counted in the section that decides on it.
- SerialDevice.SerUnit.Flush: what the walk of CMD_FLUSH or of Start meets when the queue changes under it is any sequence of the steps that end or serve a request; the links that the walk follows are not modelled.
- SerialDevice.SerUnit.BeginIO: commands 9 to 15 read behind the table of the source.
- SerialDevice.SerUnit: requests are records in a map rather than linked nodes; counters of bytes and interrupts other than overruns, line errors and port input and output are not modelled.
- TimerDevice.TimerBase: UNIT_MICROHZ, setting the system time and reading the clocks are not modelled; times stay within 32-bit seconds.
- Not modelled at all: virtio, PATA, PS/2 devices, PCI, message and signal plumbing, the shell apart from the LEAN formatter, and the DOS, utility and exec libraries.
