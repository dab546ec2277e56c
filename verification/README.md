# Butter DB, modelled and proved

Butter DB keeps key/value records in one file of back-to-back blocks. An allocator hands out extents
of the file and takes them back; over it, a 256-way trie of "hash bars" leads from the bytes of the
SHA-256 hash of a key to a data block, or to a chain of data blocks for keys that share a whole hash.
Everything a set, delete or free does is a series of single writes, with mirrors of the free extents
and of the root of the trie in memory.

This project models that program in Dafny and proves what it relies on.

- `Layout`: the file as a size, two header fields and a map from offset to block. Writing over any
  byte of a block destroys it, so a block that reads back was not touched.
- `Extents`, `Coalesce`, `FreeProgram`, `Volume`, `VolumeLaws`: the free-space manager. Free space is
  *canonical*: exactly the maximal gaps between the live extents, with the file ending where the last
  of them ends. All allocations and all 13 kinds of free keep it so, in memory and on disk.
- `Trie`, `TrieUpdate`, `TrieFile`, `TrieCommit`: the trie as a mathematical object, what it means for
  a file to hold it, and what each kind of update does to both.
- `Lookup`, `Resume`, `TrieLookup`: lookup on arbitrary files, as a loop and as the suspended and
  resumed procedure that the program runs, with the read of a value that follows it in get, and on
  files that hold a trie.
- `Model`, `Store`, `Runs`, `Limits`: set, get and delete. Their meaning is a map from hash to the
  records that share it; the store refines it over every run, at every single write and across
  closing and opening the file, and is a finite map from key to value exactly as long as no ten keys
  share a hash. `Limits` holds concrete runs that show where it ceases to be one.
- `TrieOrder`, `Enumerate`: the traversal of all records, with its stack that only grows and its 8-bit
  cursors, and the exact condition under which it works.
- `Check`: the block walk of the file checker.
- `LinkedTree`, `TreeEdits`, `Recolour`, `RedBlackTree`, `TreeHeight`, `SpareTree`: the red-black tree
  with its pointers and colours, and its use for the spare extents.

Seven results are exact conditions, because the code does not do for all inputs what its interface
suggests. Each is proved in both directions.

- The comparator of the spare tree orders offsets if and only if they are below 2^31
  (`CompSound`), so the operations that search the tree ask for files of at most 2^31 bytes.
- Get finds every stored key if and only if no hash has more than nine records (`GetIsMap`). Setting
  ten keys of one hash succeeds and hides the two oldest (`TenthHidesFirst`).
- Set fails if and only if the hash of the key already has ten records and the key is not one of
  the eight newest of them (`SetIsMap`): every new key is refused then, and so are the two hidden
  ones (`HiddenCannotBeSet`). No hash ever has eleven records.
- Delete removes a key if and only if it is stored and no other key has its hash (`DelIsMap`,
  `TwoCannotBeDeleted`); otherwise it fails without a write.
- Enumeration ends well if and only if, up to the path at which the callback stops it, there are at
  most 32 bars, and those of them that use slot 255 all lie above that path (`EnumExactly`), because
  its stack is never popped and its cursors wrap around. Without a stop that is a tree of at most 32
  bars without slot 255 (`EnumIff`). Two records are enough for it to go wrong
  (`TwoRecordsWithoutEnd`), though a stop in time saves it (`StopInLastSlot`).
- On files with all blocks below 2^31, loading the spare chain succeeds if and only if its links lead
  to the end mark over spare blocks in order and to none twice (`LoadSpareChain`); a cyclic chain is
  a data error.
- On files whose lengths fit their fields, the walk of the checker ends if and only if it comes to
  no spare block of length 0 (`WalkEndsIff`); on any file at all it ends if and only if it has ended
  after as many steps as there are blocks (`WalkEndsSoon`).

Two more things to know. Replacing a record inside a chain leaves the old block in the file for good;
it is accounted for as live but unreachable (`ReplaceInside`). And counters are written apart from
slots, so between two writes of one operation a counter may be off by one; the invariant about
counters is one of completed operations, the one about contents holds at every write.

Where the documentation and the code disagree the model follows the code: the hash is SHA-256 (the
introduction of the repository also says SHA-512), and lengths are rounded to multiples of 4 from 32
bytes on (the block layout says multiples of 32).

`dafny verify dfyconfig.toml` verifies everything.

## Model

| member | source | states |
|---|---|---|
| `Extents.SameCover` | src/spare.c:96-147 | Two lists of separated extents that cover the same bytes are the same list. |
| `Extents.CanonicalUnique` | src/free.c:36-103 | The live extents alone determine the free extents and the size of the file, so no order of allocations and frees shows. |
| `Extents.CanonicalEmpty` | src/spare.c:399-411 | With nothing live there is no free extent and the file ends behind the info block. |
| `Coalesce.TakeExact` | src/spare.c:125-134 | Taking a whole free extent keeps free space the exact set of maximal gaps. |
| `Coalesce.TakeTail` | src/spare.c:136-144 | Splitting the tail off a larger free extent does too. |
| `Coalesce.TakeEnd` | src/alloc.c:154-157 | So does a new extent at the end of the file. |
| `Coalesce.FreeApart` | src/spare.c:155-204 | A live extent shares no byte with any free one, so it has a place between its two neighbours. |
| `Coalesce.JoinSeparated` | src/spare.c:207-429 | Joining a freed extent with what it touches leaves gaps between all free extents, and nothing free behind a hole at the end of the file. |
| `Coalesce.JoinCovers` | src/spare.c:207-429 | Joining frees exactly the bytes of the freed extent. |
| `Coalesce.FreeCanonical` | src/spare.c:210-429 | After the join, and after cutting the file at a hole at its end, free space is canonical for the remaining live extents. |
| `FreeProgram.RunsLeftJoin` | src/spare.c:215-246 | The programs compiled for a join with the left neighbour, when run, widen it over the freed extent and the touched right neighbour, and take those out of the tree. |
| `FreeProgram.RunsFresh` | src/spare.c:299-397 | The programs for a free that does not join to the left write one spare block, relink its predecessor or the info block, and drop a joined right neighbour. |
| `FreeProgram.RunsTailJoined` | src/spare.c:249-281 | The programs for a free at the end of the file next to a spare truncate at that spare and unlink it. |
| `FreeProgram.RunsTailAlone` | src/spare.c:335-347 | The program for a free at the end of the file alone truncates and leaves the chain as it is. |
| `FreeProgram.FreeRuns` | src/free.c:36-103 | For every one of the 13 branches the compiled program runs to its end mark and leaves chain on disk, tree in memory and file size exactly as the join prescribes. |
| `FreeProgram.ExecKeeps` | src/free.c:40-98 | No instruction changes a live block or the root of the trie. |
| `FreeProgram.ProgramCutsBehind` | src/free.c:90-93 | A truncation cuts behind every live extent that remains. |
| `FreeProgram.UnlinkChain` | src/alloc.c:36-57 | One write of a link takes an extent out of the chain on disk. |
| `FreeProgram.ShrinkChain` | src/alloc.c:20-34 | One write of a length shortens an extent of the chain on disk. |
| `VolumeManager.CompSound` | src/spare.c:14-17 | The comparator, cut down to 32 bits, orders all offsets below a bound if and only if the bound is at most 2^31. |
| `VolumeManager.CeilFacts` | src/alloc.c:102-107 | A request is rounded up to at least 32 and to a multiple of 4, by at most 3. |
| `VolumeManager.NoWrapIff` | src/spare.c:108 | Rounding and the split limit are free of 32-bit wrap-around exactly for requests up to 2^32 - 36. |
| `VolumeManager.WrapsOnlyPast64` | src/alloc.c:149-152 | The overflow test of the allocation fires exactly for sums of 2^64 and more. |
| `VolumeManager.SlotSplits` | include/tree.h:601-611 | Below 2^31 an insertion stands between the smaller and the larger starts. |
| `VolumeManager.InsertAscends` | src/spare.c:76-80 | An insertion fails exactly on a start that is already there, and otherwise adds that one extent in order. |
| `VolumeManager.LoadStep` | src/spare.c:31-81 | Every round of the loading loop that succeeds adds a start that is in the file and was not loaded before, so the loop ends on cyclic chains as well. |
| `VolumeManager.FollowOne` | src/spare.c:31-81 | A round follows one link and loads the block there, and fails exactly when no chain in good order goes on like this. |
| `VolumeManager.LinksUnique` | src/spare.c:31-81 | There is one way to follow links to the end mark. |
| `VolumeManager.CycleIsBad` | src/spare.c:76-80 | Links that come back to a block are no chain in good order. |
| `VolumeManager.SelfLoopIsBad` | src/spare.c:76-80 | A spare block that is its own successor, for one. |
| `VolumeManager.SpareOKIff` | src/spare.c:60-74 | The checks of a loaded block accept it exactly when it is not empty and ends below 2^64. |
| `VolumeManager.LoadNext` | src/spare.c:31-81 | On a chain in good order every round loads its next extent. |
| `VolumeManager.FreeSlot` | src/spare.c:172-201 | A freed extent is inserted between the free extents on its two sides. |
| `VolumeManager.PrepareFree` | src/spare.c:431-446 | The program compiled for a live extent ends in a state that is canonical without that extent, with chain and tree agreeing. |
| `VolumeManager.WriteInside` | src/write-data-blk.c:66-136 | A write inside a live extent leaves the spare chain and all other live blocks alone. |
| `VolumeManager.PutInside` | src/extend.c:165-171 | A whole block written into its own extent does too. |
| `VolumeManager.PokeInside` | src/extend.c:46-51 | So does the change of a field of a live block. |
| `VolumeManager.AllocTail` | src/alloc.c:20-34 | The write of the shortened length brings the chain in line with the tree after a split. |
| `VolumeManager.AllocExact` | src/alloc.c:36-57 | The write of the one link brings the chain in line with the tree after an exact match. |
| `VolumeManager.Volume.constructor` | src/db.c:39-62 | A new file is the info block alone, with nothing free and nothing live. |
| `VolumeManager.Volume.LoadSpareChain` | src/spare.c:22-84 | It rebuilds the tree of any sound volume exactly. On any file with all blocks below 2^31 it ends, and succeeds exactly when the links lead over spare blocks in order, none twice, to the end mark; the tree then holds exactly those blocks. |
| `VolumeManager.Volume.GetSpare` | src/spare.c:96-147 | The first exact match, else the tail of the first extent that stays usable, else nothing; and what the tree becomes in each case. |
| `VolumeManager.Volume.WriteDown` | src/alloc.c:12-62 | After an extent was taken out of the tree, exactly one write makes the chain on disk the list in the tree again; free space is canonical with the extent live, and every live block reads back. |
| `VolumeManager.Volume.AllocFromSpare` | src/alloc.c:122-131 | When a spare fits, chain, tree and live extents agree again after the one write, and nothing live has changed. |
| `VolumeManager.Volume.AllocSpace` | src/alloc.c:70-163 | Where the extent is placed, which extents are live then, that free space is canonical, and that it fails exactly when no spare fits and the file would reach 2^64 bytes, changing nothing. |
| `VolumeManager.Volume.AddSparePrepare` | src/spare.c:149-446 | Inserts the extent and compiles a program that will complete the free. |
| `VolumeManager.Volume.Execute` | src/free.c:35-115 | The loop reaches the end mark, computes what the program means, and after each of its writes all remaining live blocks read back. |
| `VolumeManager.Volume.FreeSpace` | src/free.c:12-120 | A free always succeeds, keeps the volume canonical, makes exactly the one extent free, and never grows the file. |
| `VolumeManager.Volume.FillExtent` | src/write-data-blk.c:66-139 | The pieces and the padding byte stay inside the extent, the block reads back at the end, and an extent at the end of the file ends the file exactly where it was promised. |
| `VolumeManager.PlacedInside` | src/alloc.c:122-131 | A spare of the exact length or large enough to be split is used whenever there is one, and then the extent lies inside the file. |
| `VolumeManager.Volume.AllocAndFill` | src/write-data-blk.c:47-142 | Allocation and content together add one live block of the rounded length where the allocator places it; the file grows exactly when no spare fits; every image on the way keeps all older blocks. |
| `VolumeLaws.SpaceUnique` | src/free.c:36-103 | Two files with the same live extents have the same size, the same free extents and the same spare chain block by block. |
| `VolumeLaws.AllocAndFree` | src/alloc.c:70-163 | Allocate, fill and free restores file size, tree and chain, whichever way the extent was found. |
| `VolumeLaws.FreeAll` | src/free.c:12-120 | Frees any list of live extents; when none is left the file is the info block. |
| `VolumeLaws.FreeInAnyOrder` | src/free.c:12-120 | Two volumes that free the same extents in different orders end with the same space. |
| `VolumeLaws.Reload` | src/spare.c:22-84 | Loading the chain of any valid volume of at most 2^31 bytes succeeds and rebuilds the same tree. |
| `VolumeLaws.ReuseHole` | src/alloc.c:122-131 | Two blocks, the first freed, a third of its length: it takes the hole, and the file does not grow. |
| `TrieShape.Closed` | src/lookup.c:73-103 | All prefixes of a path in use are paths of bars. |
| `TrieShape.NothingBelow` | src/lookup.c:104-109 | Nothing hangs below a data block. |
| `TrieShape.NonZeroSet` | src/extend.c:36-51 | How writing one slot changes the number of slots in use. |
| `TrieShape.NonZeroBounds` | src/extend.c:28-34 | The number of slots in use is 0 only for an empty bar, and the number of all slots only for a full one. |
| `TrieShape.OnlySlot` | src/del.c:59-64 | A bar that counts one leads nowhere but to one slot. |
| `Lookups.WalkBounds` | src/lookup.c:73-115 | The descent collects at most 32 bars, a counter for each, and ends at no block, at an error or at a data block. |
| `Lookups.RequestsBound` | src/lookup.c:62-331 | One lookup makes at most 164 i/o requests. |
| `Lookups.ScanSound` | src/lookup.c:149-208 | On any file a scan that does not fail stops at a data block of at least 32 bytes with a key, succeeds exactly if it is the wanted one, and then finds its value. |
| `Lookups.DamagedBlocks` | src/lookup.c:149-170 | Blocks that are too short or have no key are data errors. |
| `Lookups.ScanChain` | src/lookup.c:210-318 | The loop over the chain computes the function Scan and counts its i/o requests. |
| `Lookups.Lookup` | src/lookup.c:62-331 | On any file lookup computes the function LookupSpec, with as many i/o requests as the suspended one (`ResumedLookup`). |
| `Resumption.DataEnds` | src/lookup.c:125-208 | Resumed from its data block, lookup comes to the result of the scan after exactly the requests that the scan counts. |
| `Resumption.ExEnds` | src/lookup.c:210-318 | Resumed anywhere in a chain, lookup comes to the result of the rest of the scan after exactly its requests. |
| `Resumption.DescentEnds` | src/lookup.c:71-115 | Resumed at any level of the descent, lookup comes to the result of the rest of the descent after exactly its requests. |
| `Resumption.ResumedLookup` | include/pt.h:21-31 | Suspended at every request and resumed with nothing but the request, lookup ends after exactly the requests that the uninterrupted run counts, at most 164, with its status and findings; every read finds its field under the file cursor, and after success the cursor is at the first byte of the value and the length of the value is known. |
| `Resumption.ScanFound` | src/lookup.c:280-288 | What stands behind the header and the key of the block that lookup found is the value it belongs to. |
| `Resumption.ResumedGet` | src/get.c:24-76 | Get reads the value where the resumed lookup left the cursor, and answers as the model for every key and buffer. |
| `StoreModel.Position` | src/lookup.c:280-288 | The position of a key in its chain is the first place where it stands. |
| `TrieLookups.WalkOnPath` | src/lookup.c:73-115 | On a file that holds the trie the descent follows the bars of the path, with their true counters, to where they end. |
| `TrieLookups.ScanOnChain` | src/lookup.c:210-318 | On such a file the scan gives the answer of the model: the record, not found, or an error beyond nine records. |
| `TrieLookups.LookupOnTrie` | src/lookup.c:62-331 | What lookup leaves in the request: nothing, the chain of another hash, or the chain of the key with its position, predecessor and successor. |
| `TrieLookups.HoldsReads` | src/get.c:24-76 | A file that holds the trie answers every key as the model does. |
| `TrieUpdates.MountShape` | src/extend.c:23-68 | Mounting a record in an empty slot keeps the trie well formed. |
| `TrieUpdates.SplitShape` | src/extend.c:104-172 | So does splitting a path down to the first difference. |
| `TrieUpdates.SplitPtr` | src/extend.c:127-156 | Every pointer of the split trie, path by path. |
| `TrieUpdates.SplitCount` | src/extend.c:76-104 | A split adds exactly one bar for each level from the end of the old path to the first difference. |
| `TrieUpdates.SplitPointers` | src/extend.c:107-125 | Of the pointers that were there, exactly the one that led to the old chain changes. |
| `TrieUpdates.SplitIsPathSplit` | src/extend.c:76-172 | Both together, in terms of the index of the first differing hash byte. |
| `TrieUpdates.PruneShape` | src/del.c:57-117 | Pruning keeps the trie well formed. |
| `TrieUpdates.PrunePtr` | src/del.c:66-103 | Pruning clears exactly the pointers on the path below the level that stays. |
| `TrieUpdates.PruneSpares` | src/del.c:104-117 | No bar on the path of another chain is freed. |
| `TrieFiles.KeepsTrie` | src/write-data-blk.c:66-142 | A file holds the trie as long as its bars and records read back. |
| `TrieFiles.Repoint` | src/extend.c:117-123 | One pointer write turns a file that holds one trie into a file that holds the other, when only that pointer differs. |
| `TrieCommits.KeepsTreeOK` | src/free.c:36-103 | The invariant of the tree outlives every write outside its extents. |
| `TrieCommits.MountCommit` | src/extend.c:23-68 | Counter, then slot: before the slot is written the old trie is on the file, and afterwards the new one, invariant included. |
| `TrieCommits.SplitCommit` | src/extend.c:104-189 | With all new bars written, one pointer write mounts them and the invariant holds for the split trie, counters included. |
| `TrieCommits.PrependCommit` | src/extend.c:107-125 | At the last level one pointer write puts the new record in front of its chain. |
| `TrieCommits.ReplaceHeadCommit` | src/replace.c:36-56 | One pointer write puts the new block in the place of the head of a chain, and the old block is free to go. |
| `TrieCommits.ReplaceInsideCommit` | src/replace.c:27-35 | Inside a chain one link write keeps all other records, their order and the plain block at the tail; the old block stays live though nothing leads to it. |
| `TrieCommits.PruneCommit` | src/del.c:66-103 | Clearing one slot (or the root) and counting one less leaves the invariant without the key and without the bars below. |
| `StoreManager.SwitchesAtomic` | src/set.c:61-81 | When every image shows the old trie up to one write and the new one after it, every read of the raw file between two writes is from exactly the old or exactly the new contents. |
| `StoreManager.RoomForOne` | src/extend.c:28-34 | A bar with an empty slot never counts 256, so the counter error cannot happen. |
| `StoreManager.TakenBelow` | src/extend.c:86-93 | The bars on the path never reach below the first difference, so the deeper-than-expected error cannot happen. |
| `StoreManager.ChainedOrNot` | src/del.c:41-54 | The record found is chained exactly when its hash has more than one record. |
| `StoreManager.DeleteReady` | src/del.c:57-117 | Level, bars and record that lookup found are what pruning needs, counters included. |
| `StoreManager.Store.constructor` | src/db.c:39-62 | A new store is valid and empty. |
| `StoreManager.CountedAhead` | src/extend.c:46-51 | A counter written before its slot is never too low. |
| `StoreManager.ClearedAhead` | src/del.c:66-88 | Nor is one written after its slot is cleared. |
| `StoreManager.KindOfBlock` | src/write-data-blk.c:20-45 | A record goes into an extended block exactly when another one follows it in its chain. |
| `StoreManager.Store.WriteRecord` | src/set.c:61-66 | The new block has the length that its kind, key and value ask for, and stands where the allocator places it, while the old tree stays on file. |
| `StoreManager.Store.WriteNewDataBlk` | src/write-data-blk.c:11-149 | A new block of the right kind with the right link stands in an extent of its own, and every image on the way keeps all older blocks. |
| `StoreManager.Store.MountPointer` | src/extend.c:46-67 | Exactly the slot, or the root on disk and in memory, is written. |
| `StoreManager.Store.BuildBars` | src/extend.c:104-172 | The bars from the first difference up to the end of the old path are written bottom up, each leading to the next, with counters 1 or 2, while the old tree stays what is on the file. |
| `StoreManager.Store.FirstDifference` | src/extend.c:77-86 | The index of the first different hash byte, 32 for equal hashes. |
| `StoreManager.Store.ExtendSplit` | src/extend.c:104-189 | The whole split: contents, one switch of tries, new bars, no block left behind. |
| `StoreManager.Store.ExtendChain` | src/extend.c:95-125 | A key with an equal hash is pushed in front of the chain at the last level. |
| `StoreManager.Store.ExtendPath` | src/extend.c:74-191 | Extending a taken path always succeeds, creates exactly the missing bars and changes exactly one old pointer. |
| `StoreManager.Store.Extend` | src/extend.c:9-196 | The three cases of mounting always succeed and push the record in front of its group. |
| `StoreManager.Store.ReplaceHead` | src/replace.c:36-64 | Replacing the head frees the old block; the contents change in one write and nothing is left behind. |
| `StoreManager.Store.ReplaceInside` | src/replace.c:27-35 | Replacing inside a chain changes the contents in one write and leaves exactly the old block behind. |
| `StoreManager.Store.Replace` | src/replace.c:9-69 | Both cases: contents, the switch, and exactly which block is left behind. |
| `StoreManager.Store.SetFound` | src/set.c:45-85 | Set after its lookup: success, the contents of the model, one switch of tries, the record where the allocator places it, and a file that grows by no more than that block and the new bars need. |
| `StoreManager.Store.Set` | src/set.c:21-86 | Status and contents are those of SpecSet; every image on the way is exactly the old or the new trie, no counter too low; an error changes nothing; exactly when a block is left behind; the record stands where the allocator places it, and a block that fits into a spare does not grow the file unless there are new bars. |
| `StoreManager.Store.Get` | src/get.c:20-77 | Status and value are those of SpecGet, or the buffer is too small exactly when it is. |
| `StoreManager.Store.LevelToKeep` | src/del.c:57-64 | The deepest level that counts more than one slot, -1 when there is none. |
| `StoreManager.Store.CutPath` | src/del.c:66-103 | The path is cut at that level or at the root, in memory too, and from the first write on the file holds the pruned trie. |
| `StoreManager.Store.FreePath` | src/del.c:104-117 | Exactly the bars below that level are freed, deepest first. |
| `StoreManager.Store.FreeCut` | src/del.c:104-139 | The frees of bars and record leave exactly the rest live, and every image between them holds the pruned trie. |
| `StoreManager.Store.Del` | src/del.c:23-144 | Status and contents are those of SpecDel; from the first write on every image is the new trie, no counter too low; an error changes nothing; no block is left behind. |
| `StoreRuns.GetIsMap` | src/lookup.c:221-318 | Get is the lookup of a finite map for all keys if and only if no hash has more than nine records. |
| `StoreRuns.SetIsMap` | src/set.c:21-86 | Set updates the map whenever it succeeds, fails exactly when the hash has ten records and the key is not among the eight newest, and keeps all keys reachable if and only if it does not give a hash its tenth record. |
| `StoreRuns.DelIsMap` | src/del.c:23-144 | Delete succeeds exactly on a stored key that is alone with its hash and removes only it; the error for every other key, leaving the map as it was. |
| `StoreRuns.GroupIsCrowd` | src/write-data-blk.c:35-42 | The records of a hash are exactly the stored keys with that hash. |
| `StoreRuns.KeysOfMap` | src/write-data-blk.c:35-42 | The keys of all records are exactly the keys of the finite map. |
| `StoreRuns.StepIsMap` | src/set.c:21-86 | One command answers as the finite map does. |
| `StoreRuns.RunIsMap` | src/set.c:21-86 | Over every run in which at most nine stored keys ever share a hash, all answers and the final contents are those of a finite map. |
| `StoreRuns.EmptyTrie` | src/del.c:90-139 | A tree without records has no bars, and nothing is live. |
| `StoreRuns.EmptyFile` | src/del.c:90-139 | Without records, and with nothing left behind, the file is the info block with zero root and zero spare chain. |
| `StoreRuns.StepTidy` | src/replace.c:27-35 | A block is left behind only while some hash has more than one record, and such a hash keeps them. |
| `StoreRuns.Run` | src/set.c:212-220 | Any commands on a store compute the run of the model, all of them when their sets fit below 2^31 bytes, otherwise up to a set that might not; gets and deletes never stop it. |
| `StoreRuns.RunFromEmpty` | src/set.c:212-220 | The same from a new file: the answers of the model, those of a finite map while no ten keys share a hash, and a file of exactly the info block whenever no record is left. |
| `StoreRuns.RunConcat` | src/set.c:212-220 | A run of two lists of commands is the run of the one after the run of the other. |
| `StoreRuns.Reopen` | src/db.c:68-95 | Reading root and spare chain back from the file of a valid store restores all that is in memory. |
| `StoreRuns.ReopenAndRun` | src/db.c:68-95 | The same for a store that is opened again first. |
| `StoreRuns.RunInTwoSessions` | src/db.c:68-95 | Opening the file again between two runs changes no answer and no content, and all commands run whose sets fit. |
| `StoreLimits.SetsChain` | src/write-data-blk.c:20-45 | Up to ten new keys of one hash are all accepted, the newest in front. |
| `StoreLimits.TenthHidesFirst` | src/lookup.c:221-318 | After ten sets of new keys with one hash, getting the first one is a data error. |
| `StoreLimits.HiddenCannotBeSet` | src/set.c:27-43 | Setting that first key again fails too. |
| `StoreLimits.TwoCannotBeDeleted` | src/del.c:41-54 | After two sets of keys with one hash, deleting either is an internal error. |
| `StoreLimits.LastSlotUsed` | src/enum.c:147-157 | A store with two hashes that differ in their first byte, one starting with 255, cannot be enumerated. |
| `StoreLimits.TwoRecordsWithoutEnd` | src/enum.c:147-157 | A store with two records whose enumeration never ends well. |
| `StoreLimits.StopInLastSlot` | src/enum.c:94-101 | With records in slots 5 and 255 of the root a callback that stops at the second gets both; one that never stops is never done. |
| `TrieOrder.PreorderFacts` | src/enum.c:147-157 | The traversal order has exactly the paths in use at or below a path, ascending, a bar before what hangs below it. |
| `TrieOrder.ChainOrder` | src/enum.c:147-157 | Chains in the order of their paths are in the order of their hashes. |
| `TrieOrder.RecordsInOrder` | src/enum.c:36-161 | The records in traversal order are the groups of all hashes in use, each once, in ascending order. |
| `TrieOrder.AllBars` | src/enum.c:44-52 | The traversal loads every bar exactly once. |
| `Enumeration.Search` | src/enum.c:147-157 | The two loops find the first slot in use behind the cursor of the deepest level that has one. |
| `Enumeration.Enumerate` | src/enum.c:21-161 | On any file on which it ends the loop computes the run of the traversal machine. |
| `Enumeration.PendingSkip` | src/enum.c:147-157 | The search finds the next path in order and skips nothing, or it is at a bar with nothing left whose cursor has wrapped around. |
| `Enumeration.SearchStops` | src/enum.c:147-157 | The search never passes a bar whose last slot is in use. |
| `Enumeration.NotBelow` | src/enum.c:147-157 | Once a bar has nothing left, nothing that is pending elsewhere lies below it. |
| `Enumeration.SeekAfter` | src/enum.c:147-157 | After a path the search comes to the next one in order, or to the end, exactly if all visited bars that use slot 255 lie above the next path; otherwise the run goes round below one of them. |
| `Enumeration.RoundStep` | src/enum.c:151 | A run that goes round below a bar overflows its stack or goes on below it. |
| `Enumeration.DoomedRun` | src/enum.c:151 | It never ends well. |
| `Enumeration.LoadBar` | src/enum.c:44-52 | Loading a bar: too many bars, or on to the search behind it. |
| `Enumeration.LoadChain` | src/enum.c:53-127 | The records of a chain are reported in order, up to the first at which the callback stops. |
| `Enumeration.Convex` | src/enum.c:147-157 | What lies between a path and one below it is below it too. |
| `Enumeration.Arrive` | src/enum.c:21-161 | On any tree, with any callback: up to the k-th path in order, as long as nothing stops it, the stack fits and the bars with slot 255 lie above, the run comes to exactly that path with exactly the records before it reported. |
| `Enumeration.UncleanNeverEnds` | src/enum.c:21-161 | A run for which that fails before its stop never ends well. |
| `Enumeration.EnumExactly` | src/enum.c:21-161 | For every tree and every callback: the traversal ends well if and only if that holds up to its stop, and has then reported every record in order up to the stop. |
| `Enumeration.EnumExact` | src/enum.c:21-161 | A run without a stop that ends well had at most 32 bars and no slot 255 in use, and reported every record in order. |
| `Enumeration.EnumEnds` | src/enum.c:21-161 | On such trees the run ends well after finitely many loads, with the records up to where the callback stopped it. |
| `Enumeration.EnumIff` | src/enum.c:21-161 | With a callback that never stops it, the traversal ends well, and reports every record in order, if and only if the tree has at most 32 bars and no bar has slot 255 in use. |
| `Enumeration.EnumStore` | src/enum.c:170-200 | On a store with that condition every record is reported exactly once, in ascending hash order and chain order, up to where the callback stops it. |
| `Checker.StopsIff` | src/check.c:151-410 | When lengths fit, the walk goes on exactly over spares and bars that end inside the file and data blocks that have their header inside, a key, and room for key and value. |
| `Checker.CutOffStops` | src/check.c:151-196 | It stops at a spare that was cut off. |
| `Checker.NoKeyStops` | src/check.c:326-347 | It stops at a data block without a key. |
| `Checker.CheckTlv` | src/check.c:497-577 | On every file on which the walk ends: acceptance means that undamaged blocks follow one another from the info block to the end of the file or past it; rejection names the offset where there is no block or a damaged one; the counters are those of the blocks met. |
| `Checker.WalkEndsSoon` | src/check.c:507-570 | On any file the walk ends if and only if it ends within as many steps as the file has blocks. |
| `Checker.CircleNeverStops` | src/check.c:507-570 | A walk that comes back to a place never ends. |
| `Checker.EmptySpareLoops` | src/check.c:151-196 | A walk that comes to a spare block of length 0 never ends. |
| `Checker.WalkEndsIff` | src/check.c:507-570 | When data lengths are below 2^32 and no spare leads past 2^64, the walk ends if and only if it comes to no spare block of length 0. |
| `Checker.WalkTiles` | src/check.c:507-570 | On a tiled file the walk meets every tile between its ends once, ascending. |
| `Checker.StoreTiled` | src/check.c:507-570 | In a valid store spares, bars, records and left-behind blocks tile the file without gap or overlap, and every one passes its check. |
| `Checker.SpareCount` | src/check.c:530-535 | The spare counter is the number of free extents. |
| `Checker.BarCount` | src/check.c:537-542 | The bar counter is the number of bars of the tree. |
| `Checker.TailCount` | src/check.c:544-549 | Without left-behind blocks the counter of plain data blocks is the number of hashes in use. |
| `Checker.LiveCount` | src/check.c:501-505 | Every live extent is a bar, the record of one stored key, or a left-behind block, and their numbers add up. |
| `Checker.StoreCensus` | src/check.c:501-505 | The counters of a valid store: free extents, bars, stored keys plus left-behind blocks, and one plain data block for each hash when nothing is left behind. |
| `Checker.CheckTiled` | src/check.c:497-577 | The checker accepts any tiled file, ends exactly at its end, and counts its tiles. |
| `Checker.CheckStore` | src/check.c:497-577 | After any completed operation the checker accepts the file, meets exactly the free and live extents, and counts the free extents, the bars, and as many data blocks as there are stored keys and left-behind blocks. |
| `LinkedTree.RotateLinked` | include/tree.h:340-378 | Rotation keeps left, right and parent pointers a search tree over the same sequence. |
| `TreeEdits.Predecessor` | include/tree.h:688-706 | What stands just before a subtree is an ancestor that covers it. |
| `TreeEdits.Successor` | include/tree.h:666-684 | What stands just behind a subtree is an ancestor that covers it. |
| `TreeEdits.AddLeafLinked` | include/tree.h:612-620 | A new leaf takes its place in the sequence and moves nothing else. |
| `TreeEdits.SpliceLinked` | include/tree.h:576-587 | Taking out a node with at most one kid takes exactly it out of the sequence. |
| `TreeEdits.SubstituteLinked` | include/tree.h:554-567 | The successor that takes over all links of a node stands in the sequence where that node stood. |
| `Recolour.LiftInserting` | include/tree.h:413-419 | With a red uncle, recolouring moves the one possible red-red edge two levels up and keeps equal black heights. |
| `Recolour.InnerInserting` | include/tree.h:420-425 | The inner rotation keeps the invariant with parent and node exchanged. |
| `Recolour.OuterInserting` | include/tree.h:426-427 | Recolouring and the outer rotation remove the red-red edge and keep equal black heights. |
| `Recolour.InsertDone` | include/tree.h:446 | A black root completes the insertion. |
| `Recolour.RedSiblingLacking` | include/tree.h:457-461 | A red sibling trades places with the parent; the same subtree is still one black node short, now with a black sibling. |
| `Recolour.PassUp` | include/tree.h:462-468 | A black sibling without red kids turns red, and exactly the parent is short instead, or nothing at the root. |
| `Recolour.NearRedLacking` | include/tree.h:470-479 | A red near kid is rotated to the far side, with nothing else short. |
| `Recolour.FarRedComplete` | include/tree.h:480-486 | With a red far kid one rotation restores all black heights. |
| `Recolour.RemoveDone` | include/tree.h:523-524 | A black node at the end completes the removal. |
| `Recolour.SpliceColours` | include/tree.h:576-590 | Taking out a red node leaves the colours in order; taking out a black one leaves exactly its place one black node short. |
| `Recolour.SubstituteLacking` | include/tree.h:554-567 | The successor takes over colour and black height of the node it replaces. |
| `RedBlack.RedBlackTree.InsertColour` | include/tree.h:405-447 | The recolouring loop ends with a balanced tree over the same sequence. |
| `RedBlack.RedBlackTree.Insert` | include/tree.h:595-623 | Finds the node that compares equal and changes nothing, or adds exactly the new node at its place and stays a balanced search tree, for any comparator that orders the nodes. |
| `RedBlack.RedBlackTree.RemoveColour` | include/tree.h:449-525 | The loop ends with a balanced tree over the same sequence. |
| `RedBlack.RedBlackTree.Remove` | include/tree.h:527-592 | Exactly the node leaves the sequence, and the tree stays a balanced search tree. |
| `RedBlack.RedBlackTree.MinMax` | include/tree.h:708-721 | The first or last node of the order, 0 for an empty tree. |
| `RedBlack.RedBlackTree.Neighbour` | include/tree.h:665-706 | The next or previous node of the order, 0 past its ends. |
| `RedBlack.RedBlackTree.ForEach` | include/tree.h:735-738 | The iteration meets every node once, in order. |
| `TreeHeight.HeightBlack` | include/tree.h:51-59 | The height is at most twice the black height, one more for a red node. |
| `TreeHeight.SizeBlack` | include/tree.h:51-59 | A subtree has at least 2 to the black height less one nodes. |
| `TreeHeight.PathsAreShorter` | include/tree.h:51-59 | No path down from a node is longer than its height. |
| `TreeHeight.LongestPath` | include/tree.h:51-59 | One path is as long. |
| `TreeHeight.HeightBound` | include/tree.h:51-59 | 2 to the height, or to the number of nodes on any path from the root, is at most the square of n + 1: the height is at most 2 lg (n + 1). |
| `SpareTree.SpareTotal` | src/spare.c:14-17 | The spare comparator orders any nodes that start below 2^31. |
| `SpareTree.InsertSpare` | src/spare.c:172-176 | Insertion into the pointer tree is the insertion into the sequence of extents that the volume uses. |
| `SpareTree.RemoveSpare` | src/spare.c:448-459 | Removal from the pointer tree is removal from that sequence. |
| `SpareTree.NeighbourSpare` | src/spare.c:178-194 | The neighbours of a node are the extents next to it in that sequence. |

## Left out

- I/O errors, short reads and out-of-memory paths: every read, write, seek and truncation is taken to succeed.
- Request allocation, magic numbers and NULL checks of parameters; requests with an empty key are refused by the callers, so keys are not empty here.
- SHA-256 and the salt (`src/hash.c`): the hash is any function from keys to 32 bytes.
- Opening, closing, locking, option parsing and printing (`src/db.c`, `src/io.c`, `main.c`, `src/utils.c`), and the creation time in the info block.
- Place holders (`src/place-holder.c`, `src/check.c:430-492`): they exist to exercise the allocator, which is proved for extents with any content.
- The bytes of a block: blocks are values with a length and a position. A read of a place where no block was written is an error here, whatever bytes may be there.
- Records of 2^31 bytes or more: the volume is proved up to requests of 2^32 - 36 bytes, set asks for a file that stays below 2^31.
- A bar below depth 31: the program writes past the ends of its arrays in the request; in the model lookup reports a data error, and no valid store has such a bar. The same goes for a 33rd bar on the stack of the enumeration.
- A write that is itself torn: a whole field or block appears at once, but the pieces of a block and all writes of an operation are separate.
- Nodes of the spare tree in the volume: there they are known by their starts, as a sequence in order; `SpareTree` connects that sequence with the pointer tree. The volume itself does not run on the pointers.
- Mirrored halves of the red-black tree: one function with a side as argument stands for both. Nodes are numbers with 0 for NULL and their fields are entries of a map, so a node outside the tree has no fields.
- RB_FIND, RB_NFIND, RB_AUGMENT and the splay trees of `include/tree.h`: not used by the store.
- Suspension of the other procedures: lookup and get are modelled with their resume points; set, delete, alloc, free and enumeration are modelled as uninterrupted, with every write visible.
- A second process or another request between two steps: operations run one at a time.
- Checker.CheckTlv: asks for a file on which the walk ends, because on others it does not (`WalkEndsSoon`); the dump output and `butter_check_tree`, a stub, are not modelled.
- Enumeration.Enumerate: asks for a file on which the traversal ends, because on others it does not; `EnumStore` needs no such assumption.
- VolumeManager.Volume.LoadSpareChain: asks for the chain of a sound volume or for blocks below 2^31, the bound of the comparator.
- StoreRuns.Run: stops before a set that could take the file past 2^31 bytes, where the comparator fails.
- gc and fix: named in the documentation, not implemented.
