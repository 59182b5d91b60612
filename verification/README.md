# A verified model of the cominix file system

cominix is a Minix V3 file system for Linux that can replace a file by a list of content-defined,
deduplicated chunks.  This project models its core in Dafny and proves what the code keeps, promises
and undoes.  `dafny verify dfyconfig.toml` checks everything.

The modules follow the system from the bottom up.

| part | modules |
|---|---|
| arithmetic, bytes, the format | `Arith`, `Geometry`, `Bytes` |
| zone bitmap (bitmap.c) | `ZoneMap` |
| the device, zones and chunk area (inode.c) | `Volumes`, `Mount` |
| block-mapping tree (itree_common.c, itree_v2.c) | `BlockPath`, `Trees`, `Itree`, `Truncation`, `BlockCount` |
| concurrent get_block calls | `Interleave` |
| chunk cutter (cdc.h) | `Cdc` |
| chunk heap and hashtable (chunk_handler.c) | `ChunkHeap`, `ChunkStore`, `Dedup`, `Collisions` |
| list of chunk entries (linked_list.h) | `ChunkList` |
| chunking and reading back (file.c) | `FileData`, `ChunkFile`, `ChunkRead` |
| zone ownership over all files and runs | `Ownership`, `FileSteps`, `Files` |
| directories (dir.c), link counts and namei.c | `Directory`, `Links`, `Namei` |

**The device** is a flat sequence of bytes.  `Volume` keeps two views of it in step: the zones, as
blocks and as 32-bit words, and the chunk area that follows them.  Code that updates the device, the
bitmap, an inode or a directory page in place is a method of a class or on one; each is proved
against a function on values (`Cut`, `Graft`, `AddAll`, `Find`, `Stored`, `MovedDir` and so on),
and what the code is for is proved about those functions.

**The tree.**  `Load` reads the tree below a slot out of the blocks.  Truncation refines `Cut`, which
removes everything at or after a path and every indirect block that is left without children;
`get_block` refines `Graft`, which hangs a branch into a hole.  The mapping from logical blocks to
zones and the set of zones owned are functions of the tree.

**The chunk store.**  `Store` says that the bytes of the chunk area agree with the list of the chunks
added since the last reset: where they lie, their headers, their data, the chain of each bucket.  The
digest is a parameter, any function from byte strings to 64-bit numbers, and so is the gear table.

**Hypotheses.**  The device is shorter than 4 GiB, because chunk_alloc computes a product in 32 bits
(`ChunkHeap.PlaceExactly` says exactly when that goes wrong).  The content round trip assumes that no
two different chunks share a digest, because the table is searched by digest alone
(`Collisions.NamesExactly` gives the exact condition and `Collisions.CollisionSubstitutes` an input
that violates it).  A directory has a size that is a multiple of 64, and names are unique as long as
callers look a name up before they add it (`Directory.AddPresent` says what happens otherwise).

**The namespace.**  `Links` is about one map from places to inodes and says what link, mknod, unlink,
mkdir, rmdir and rename make of it and of the link counts.  `Namei` carries the same operations out on
`Dir` objects, slot by slot; the map is the union of what their slots stand for.

**Findings about the code.**

- cominix_add_link notices an existing name only before the first free slot (`Directory.AddPresent`,
  `Directory.AddedTwice`).
- A failing cominix_new_block sets a padding bit if one is clear, and the count of free zones can fall
  (`ZoneMap.ZoneBitmap.NewBlock`, `ZoneMap.ChangesExactly`, `ZoneMap.PaddingIsTaken`).
- The size test of block_to_path multiplies in 64 bits and its offsets are 32-bit numbers.  A block
  number for which the product wraps to something below the limit is accepted; it is then taken for
  another block, or leads outside a block (`BlockPath.AcceptedExactly`, `BlockPath.StoredExactly`,
  `BlockPath.TakenForAnother`).  No file position has such a number: the product is then below 2^63
  (`BlockPath.TargetSame`, `Files.FileSystem.Write`).
- nblocks returns a wrong number exactly when the right one needs more than 32 bits, which takes a size
  of more than 32 bits and so never happens (`BlockCount.NBlocks`, `BlockCount.CountTooLarge`).
- A device without a free zone is mounted without an extra superblock and with an uncleared table
  (`Mount.MountNew`).
- Removing a chunked file abandons its list and its chunks.  The comment in cominix_truncate says as
  much; the model follows the code.

## Model

| member | source | states |
|---|---|---|
| `ZoneMap.ZoneBitmap.constructor` | src/inode.c:323-372 | After mounting, bit 0 is set and `used` is exactly the set of in-range zones whose bit is set. |
| `ZoneMap.ZoneBitmap.NewBlock` | src/bitmap.c:71-121 | Returns the lowest zone that was free and in range and adds exactly it to the zones in use, one fewer free; returns 0 if and only if no in-range zone is free. Either way the bits become those with the first clear bit of the first row that has one set, padding included: so a failing call leaves the bitmap alone exactly when every bit is set, and otherwise lowers the count of free bits by one if it was positive. |
| `ZoneMap.ChangesExactly` | src/bitmap.c:77-106 | Setting the first clear bit changes the bitmap if and only if some bit, padding included, is clear. |
| `ZoneMap.PaddingIsTaken` | src/bitmap.c:77-106 | On a bitmap block of 8192 bits for one zone, which is in use, no zone is free; what a failing call does there sets the first padding bit and lowers the count of free zones by one. |
| `ZoneMap.ZoneBitmap.FreeBlock` | src/bitmap.c:42-69 | Removes exactly the zone; the count of free bits rises by one exactly when it was in use, otherwise a complaint is logged; the branch for a nonexistent bitmap buffer is dead. |
| `ZoneMap.ZoneBitmap.CountFree` | src/bitmap.c:27-40 | Word-by-word counting gives the number of clear bits in the bitmap blocks looked at, padding included. |
| `ZoneMap.StopsAt` | src/bitmap.c:77-91 | The scan stops beyond the last zone exactly when no zone is free. |
| `ZoneMap.FreeBitsSet` | src/bitmap.c:27-40 | Setting a clear bit lowers the count by one and clearing a set bit raises it by one. |
| `BlockPath.BlockToPath` | src/itree_v2.c:23-53 | The offsets, each stored in a 32-bit int, or none when the block is refused. Those of an accepted block are the path of its target, and that path leads to the target, unless the block is stray, and then the second offset lies outside its block. |
| `BlockPath.PathRoundTrip` | src/itree_v2.c:36-52 | Every offset lies inside its block and the explicit inverse gives the block back, for every block the tree can hold. |
| `BlockPath.PathInverse` | src/itree_v2.c:36-52 | Every well-formed path is the path of exactly one block. |
| `BlockPath.PathOrder` | src/itree_v2.c:36-52 | Lexicographic order on paths is numeric order on blocks. |
| `BlockPath.LimitFits` | src/itree_v2.c:33 | With blocks of at least 1024 bytes and a 32-bit size limit, the tree has room for every block below the limit. |
| `BlockPath.AcceptedExactly` | src/itree_v2.c:33-34 | The size test agrees with the true product unless, and only unless, the 64-bit product overflows to something below the limit; a block number for which it does. |
| `BlockPath.StoredExactly` | src/itree_v2.c:33-50 | For a block that the size test lets through by overflow, at every block size: the second offset, cut to 32 bits, lies inside the indirect block if and only if the remainder that the test saw is a block of the triple indirect tree, and then all offsets are those of that other block. |
| `BlockPath.TakenForAnother` | src/itree_v2.c:33-50 | With blocks of 1024 bytes, block 2^54 + 65799 gets the path of block 65799, and the second offset of block 2^54 is negative. |
| `BlockPath.TargetSame` | src/itree_v2.c:33-50 | A block whose product fits in 64 bits, as that of every file position does, is its own target. |
| `Trees.CutAt` | src/itree_common.c:301-356 | Cutting at a path keeps every mapping below it and no other. |
| `Trees.CutKeeps` | src/itree_common.c:301-356 | A cut tree owns a subset of the zones, still reaches each once, and has no indirect block without children. |
| `Trees.CutSurvivors` | src/itree_common.c:224-262 | The indirect blocks that survive a cut are exactly those above a surviving data block, and they keep their zones. |
| `Trees.GraftAt` | src/itree_common.c:115-141 | Splicing a branch maps exactly its path, to its last zone, and nothing else. |
| `Trees.GraftKeeps` | src/itree_common.c:115-141 | Splicing adds exactly the zones of the branch and keeps every zone reached once. |
| `Trees.GraftStable` | src/itree_common.c:115-141 | Splicing changes no node that is already there. |
| `Trees.GraftLoad` | src/itree_common.c:115-141 | One store of a zone number into the vacant slot turns the blocks of the tree into the blocks of the grafted tree. |
| `Trees.LoadFrame` | src/itree_common.c:30-57 | A tree depends on no block but its own. |
| `Trees.ChainAt` | src/itree_common.c:30-57 | Each key of a chain names the subtree that the path leads to. |
| `Trees.ChainHole` | src/itree_common.c:30-68 | A chain that ends in 0 has met a hole of the tree. |
| `Itree.GetBranch` | src/itree_common.c:30-68 | Reads a verified chain of keys, down to the data or to a hole. |
| `Itree.VerifyChain` | src/itree_common.c:18-23 | True exactly when every key is still what its slot holds. |
| `Itree.AllocBranch` | src/itree_common.c:70-113 | Takes exactly the zones of a branch and chains them, or takes none; it fails if and only if fewer zones are free than the branch needs; only free zones are written. |
| `Itree.SpliceBranch` | src/itree_common.c:115-150 | Hangs the branch in if and only if the chain is intact and the place vacant, otherwise gives all its zones back and leaves the tree alone. |
| `Itree.Grow` | src/itree_common.c:197-206 | Fails if and only if fewer zones are free than the missing levels need, and then leaves tree and bitmap as they were; otherwise grafts fresh zones. |
| `Itree.Lookup` | src/itree_common.c:160-176 | The last key read is the zone that the block is mapped to, or 0 for a hole. |
| `Itree.GetBlock` | src/itree_common.c:152-214 | A refinement of a partial map, for every block number: lookup returns the zone of the target or a hole; creation on a hole adds exactly one mapping, to a fresh zone, and changes no other; it fails for lack of space if and only if the path misses more blocks than zones are free, and then leaves tree and zones in use as they were. A block below the limit is its own target; one is refused exactly when the size test refuses it; the access leaves a block exactly for a stray number whose tree is there or is about to be made. The BUG_ON cannot fire. |
| `Itree.FreeSlots` | src/itree_common.c:264-299 | Frees exactly the zones below the slots, each once, clears those slots and touches no other block. |
| `Itree.FreeInodeSlots` | src/itree_common.c:264-353 | The same for slots of the inode itself. |
| `Truncation.FindShared` | src/itree_common.c:224-262 | Finds the deepest block that the cut leaves nonempty and detaches what hangs below the cut there, if anything does. |
| `Truncation.CutTree` | src/itree_common.c:316-353 | The blocks on the device become those of the cut tree, and exactly the zones it lost are given back. |
| `Truncation.Truncate` | src/itree_common.c:301-356 | A block stays mapped, to the zone it had, exactly when its first byte lies below the size, and every other mapping goes; gives back exactly the zones that the tree lost, none twice (no complaint is logged); no empty indirect block is left; the tree is the one trimmed at that block; only blocks of the tree are written. |
| `Truncation.FirstGoneIs` | src/itree_common.c:313 | The first block that goes is the quotient rounded up: the blocks before it are exactly those that begin below the size. |
| `Truncation.KeepsBytes` | src/itree_common.c:313-356 | Keeping the blocks before it means keeping exactly the blocks that begin below the size. |
| `Truncation.TrimmedSurvivors` | src/itree_common.c:224-262 | The indirect blocks that truncation leaves are exactly those above a block that stays mapped, and they keep their zones. |
| `Truncation.CutMapping` | src/itree_common.c:313-318 | The cut at the path of a block keeps exactly the mappings of smaller blocks. |
| `Truncation.NothingLeft` | src/itree_common.c:301-356 | A tree truncated to size 0 leaves all slots of the inode clear. |
| `Interleave.StepKeepsInv` | src/itree_common.c:30-214 | Every step of every concurrent call keeps the invariant of trees, chains and held zones. |
| `Interleave.EveryRunIsSafe` | src/itree_common.c:30-214 | In any interleaving of creating calls without truncation, every zone in use is in the tree exactly once or held by exactly one call; chains stay valid; no call retries more often than its path is long, at most DEPTH times; a call that has finished has failed if it met a full volume, and otherwise has the zone, not 0, that the block of its own path is mapped to. |
| `Interleave.RunOutcome` | src/itree_common.c:143-214 | A call keeps its path, and gives up exactly when it has met a full volume: a lost splice or a changed chain never ends it. |
| `Interleave.EveryCallEnds` | src/itree_common.c:152-214 | However the others interfere, no call takes more than 76 steps in any run, and one that has not finished can always take its next step, which is to fail only if no zone is free. |
| `Interleave.NothingLeaks` | src/itree_common.c:143-150 | When all calls have finished, the zones in use are exactly those of the tree: losers of a splice have returned everything. |
| `Interleave.SpliceLost` | src/itree_common.c:122-150 | A lost splice means that the path has grown deeper than the call had seen. |
| `Interleave.RunKeepsNodes` | src/itree_common.c:115-141 | No run removes or changes a node of the tree. |
| `BlockCount.NBlocks` | src/itree_common.c:358-372 | The 32-bit loop of ceiling divisions returns the number of blocks of a file without holes if and only if that number fits in 32 bits, for every size the tree can hold; it fits for every size below 4 GiB, which is all that s_max_size and i_size can say, and with blocks of at most 4096 bytes for every size. |
| `BlockCount.CountTooLarge` | src/itree_common.c:358-372 | With blocks of 65536 bytes the tree has room for a file whose number of blocks does not fit; its size takes more than 32 bits. |
| `BlockCount.Collapse` | src/itree_common.c:364-370 | The lowest indirect blocks of a dense tree are the leaves of a dense tree one level lower. |
| `BlockCount.RoundsAreLevels` | src/itree_common.c:364-370 | The rounds of the loop add up to the levels of the single, double and triple indirect trees. |
| `BlockCount.DenseForest` | src/itree_common.c:358-372 | A sound tree that maps exactly the first b blocks owns exactly that many zones. |
| `Cdc.GetChunkSize` | src/cdc.h:4-42 | The two-phase loop returns the specified size of the first chunk of the rest of the file. |
| `Cdc.CutIsFirst` | src/cdc.h:28-41 | The cut is at the first index whose masked fingerprint is zero, else at the end. |
| `Cdc.CutExactly` | src/cdc.h:4-42 | The size of a chunk in plain terms: the first index from 2048 on at which the gear words of the bytes from there, each doubled for every later byte, add up in 64 bits to a number without a bit of the mask, and 65536 or the end if there is none. |
| `Cdc.RollIsSum` | src/cdc.h:30-37 | The rolling fingerprint is the sum of the gear words of its bytes, each doubled for every later byte, in 64 bits. |
| `Cdc.AndBits` | src/cdc.h:31-38 | The bitwise and is 0 exactly when no bit is set in both numbers. |
| `Cdc.WindowEnough` | src/cdc.h:28-33 | The masked test sees the last fifty bytes and no more: the rolling hash refines a window hash. |
| `Cdc.BoundaryIsLocal` | src/cdc.h:28-41 | The test at index i depends only on bytes max(2048, i - 49) to i of the chunk. |
| `Cdc.PiecesPartition` | src/file.c:113-158 | Repeated cutting partitions any file into nonempty pieces of at most 65536 bytes, all but the last at least 2048. |
| `Cdc.PiecesAfter` | src/file.c:113-114 | What comes after a boundary is cut as if the file began there. |
| `Cdc.CommonSuffix` | src/file.c:113-114 | Files with a common suffix that both have a boundary before are cut alike from there on. |
| `ChunkHeap.PlaceFits` | src/chunk_handler.c:55-58 | Below 4 GiB a chunk starts at the break or at most 23 bytes after it, with its header inside one block. |
| `ChunkHeap.PlaceExactly` | src/chunk_handler.c:55-58 | A chunk goes to the break if its header fits in the block, else to the next block, modulo 2^32 because that product is computed in 32 bits: allocation moves forward if and only if the header does not straddle or the next block starts below 4 GiB; a break for which it falls back to 1024. |
| `ChunkHeap.BucketIs` | src/chunk_handler.c:91-94 | Two hashes share a bucket exactly when they differ by a multiple of the number of buckets. |
| `ChunkHeap.HeadFields` | src/chunk_handler.h:9-15 | The fields of a header: hash, length and next location, each at its place. |
| `ChunkHeap.AllocLaid` | src/chunk_handler.c:43-73 | A new chunk keeps extents disjoint, in order, between the table and the end of the device, with fewer than 24 bytes lost before each of them and none after the last. |
| `ChunkHeap.HeapBound` | src/chunk_handler.c:43-73 | A heap laid out like that takes up at most the data of its chunks and 47 bytes for each. |
| `ChunkHeap.FindIsMap` | src/chunk_handler.c:96-124 | Search finds a location exactly when a chunk with that hash was added, namely the location of such a chunk. |
| `ChunkHeap.ChainDescends` | src/chunk_handler.c:111-121 | The next location in a chain is strictly smaller. |
| `ChunkHeap.StoreAdd` | src/chunk_handler.c:226-244 | Writing the bucket, header and data of a new chunk keeps the table in agreement with the list of chunks and changes no byte of any earlier chunk. |
| `ChunkHeap.StoreReset` | src/chunk_handler.c:216-223 | A table of zeros stands for no chunks. |
| `ChunkStore.WriteStorage` | src/chunk_handler.c:142-176 | Block-by-block writing of any length at any offset is one flat write; bytes outside the range and all zones are untouched. |
| `ChunkStore.ReadStorage` | src/chunk_handler.c:178-205 | Block-by-block reading is one flat read. |
| `Bytes.SubPut` | src/chunk_handler.c:142-205 | A read after a flat write returns the written bytes, and bytes outside the range are as before. |
| `Bytes.EncAt` | src/chunk_handler.c:142-205 | Numbers are stored low byte first. |
| `ChunkStore.SearchHashtable` | src/chunk_handler.c:96-124 | The walk along the chain on the device ends and returns what the abstract map from hashes to locations holds. |
| `ChunkStore.ChunkAlloc` | src/chunk_handler.c:43-73 | Moves the break, in memory and in the extra superblock, to the end of the new chunk; a panic if and only if that is not below the end of the device. |
| `ChunkStore.BreakAboveZones` | src/chunk_handler.c:53 | The check at the start of chunk_alloc never fires. |
| `ChunkStore.FillHashtable` | src/chunk_handler.c:226-244 | Adds exactly the chunk to the store; a panic if and only if the heap is full; no zone but the extra superblock changes. |
| `ChunkStore.ResetHashtable` | src/chunk_handler.c:216-223 | The store is empty and the break right after the table. |
| `ChunkStore.CopyIntoBuffer` | src/chunk_handler.c:246-258 | The bytes of a chunk from a position on, as many as asked for and there are. |
| `Dedup.AddAllSound` | src/file.c:113-158 | Chunking only adds to the heap, and what it adds are pieces of the file. |
| `Dedup.EntriesFound` | src/file.c:147-156 | After chunking, every piece is found in the table where its entry says. |
| `Dedup.ChunkAgain` | src/file.c:147-156 | Chunking the same pieces again gives the same entries and adds nothing, however much was added in between. |
| `Dedup.SuffixIsShared` | src/file.c:113-158 | A second file with a common suffix at aligned boundaries stores nothing for the suffix and lists the same entries for it. |
| `Collisions.NamesExactly` | src/chunk_handler.c:113-118 | The entries name the pieces if and only if each piece equals the chunk already stored under its hash, and pieces sharing a new hash are equal. |
| `Collisions.NoCollisionIsFaithful` | src/chunk_handler.c:113-118 | Without collisions that condition holds. |
| `Collisions.CollisionSubstitutes` | src/chunk_handler.c:113-118 | Two one-byte files that the digest does not tell apart: the second is listed as the first. |
| `ChunkList.PutEntry` | src/linked_list.h:47-49 | A store of 16 bytes changes one slot of a list block and not its next field. |
| `ChunkList.AppendHere` | src/linked_list.h:47-49 | An entry stored in the next free slot extends the list that the chain of blocks represents. |
| `ChunkList.AppendBlock` | src/linked_list.h:34-49 | A new block after a full one extends it too. |
| `ChunkList.ListPacked` | src/linked_list.h:31-53 | The chain has exactly as many blocks as its entries need. |
| `ChunkList.ListNeeds` | src/linked_list.h:31-53 | The number of blocks is the quotient rounded up, at least one, and a full list needs one block more for the next entry. |
| `ChunkList.PerBlockIs` | src/linked_list.h:2-5 | A block holds as many entries of 16 bytes as fit before its last four bytes. |
| `ChunkList.EntryLayout` | src/cominix.h:96-99 | An entry is its location, then its size; the last four bytes of a block name the next. |
| `ChunkList.Append` | src/linked_list.h:31-53 | Any sequence of appends leaves an acyclic, zero-terminated, packed chain that holds exactly the appended entries in order; a new block comes from the free zones; a panic if and only if one is needed and none is free. |
| `ChunkList.LocateFinds` | src/linked_list.h:57-79 | Search finds the one entry whose prefix-sum interval has the position, and its start; {0, 0} exactly when the position is at or past the total. |
| `ChunkList.SearchLeft` | src/linked_list.h:57-79 | The walk over the blocks computes that search. |
| `FileData.ReadFile` | src/file.c:123-135 | Reading block by block through the tree gives the content, holes as zeros. |
| `FileData.ContentFrame` | src/file.c:123-135 | The content of a file depends on no block but those of its tree. |
| `FileData.ContentAt` | src/file.c:123-135 | A byte of a file is the one at its offset in the zone that its block is mapped to, and 0 in a hole. |
| `FileData.PutData` | src/inode.c:509-533 | Bytes written into a mapped block appear in the content at their position and nowhere else; the tree stays; a hole is not written. |
| `ChunkFile.AddChunk` | src/file.c:147-153 | Search or store: the heap changes as specified, or the heap is full. |
| `ChunkFile.ChunkAll` | src/file.c:111-159 | The loop lists exactly the pieces of the content, which it does not disturb; it gets to the end if and only if the heap has room for the new pieces and enough zones were free for the list. |
| `ChunkFile.TreeNotChunked` | src/cominix.h:126-136 | The slots of an ordinary file are never taken for the mark of a chunked one. |
| `ChunkFile.TruncateInode` | src/inode.c:685-702 | A chunked inode is left alone; an ordinary one keeps exactly the blocks that begin below its size. |
| `ChunkFile.ChunkAndReplace` | src/file.c:101-191 | The file becomes a list of its pieces, its tree is given back exactly, the inode is marked; nothing else but the extra superblock is written; it succeeds if and only if the heap has room for the new pieces and as many zones are free as the list needs blocks. |
| `ChunkFile.ChunkedFileStays` | src/file.c:101-191 | A chunked file is not disturbed by writes outside its list or by new chunks. |
| `ChunkRead.ReadChunked` | src/file.c:24-49 | Returns the bytes of the original at the position, up to the end of the chunk there, something whenever a positive count is asked for inside the file; the BUG_ONs cannot fire. |
| `ChunkRead.RunProgress` | src/file.c:24-49 | Reads with positive counts get on by at least a byte each until the end of the file, where they stay. |
| `ChunkRead.ReadMany` | src/file.c:24-49 | Any sequence of positive counts from position 0 returns exactly a prefix of the original, and all of it when there are enough. |
| `ChunkRead.ChunkedIsFile` | src/file.c:101-191 | After chunking, the list names exactly the pieces of the file, whenever the pieces are faithful. |
| `ChunkRead.RoundTrip` | src/file.c:24-191 | Chunking any file and reading it back gives the original bytes, if no two different chunks share a hash. |
| `ChunkRead.OthersUndisturbed` | src/file.c:101-191 | Every previously chunked file still reads the same. |
| `ChunkRead.TreesUndisturbed` | src/file.c:160-178 | Every other ordinary file keeps its tree and its content. |
| `Ownership.ChangeOne` | src/file.c:106-178 | A change of one file within its own zones and free zones keeps the zones in use the disjoint union of trees, lists, extra superblock and abandoned lists. |
| `Ownership.ChangeOthers` | src/file.c:106-178 | A change of one file within its own zones and free zones leaves every other file as it is: the tree and the bytes of an ordinary one, the list of a chunked one. |
| `Ownership.OthersContent` | src/file.c:106-178 | A change of one file leaves the tree and the content of every other ordinary file as they are. |
| `Files.StartFresh` | src/inode.c:181-402 | The invariant holds to begin with, on a volume with the block of its root directory and its extra superblock. |
| `Ownership.DropFile` | src/inode.c:685-698 | Removing a file moves what it still owns to the abandoned zones. |
| `Files.FileSystem.Write` | src/itree_common.c:152-214 | Creation at a position of one file: refused exactly at or past the limit; otherwise exactly one mapping is added, to a zone that was free; on any failure its tree and the zones in use are as before; the trees and bytes of all other files are unchanged; a chunked file is refused; the partition of the zones is kept. |
| `Files.FileSystem.WriteData` | src/inode.c:509-533 | Bytes go into a mapped block of an ordinary file and nowhere else; the content of that file changes by exactly them, all other files and the partition are unchanged. |
| `Files.FileSystem.Resize` | src/file.c:218 | The size alone changes, as the VFS does where the file system has no operation of its own; the partition is kept. |
| `Files.FileSystem.SetSize` | src/inode.c:685-702 | An ordinary file becomes its trimmed tree, in which exactly the blocks that begin below the size are mapped as before, and gives back exactly what it loses; a chunked one keeps its list; the trees and bytes of all other files are unchanged; the partition is kept. |
| `Files.FileSystem.Remove` | src/inode.c:37-49 | An ordinary file gives back exactly its zones, the list of a chunked one is abandoned; the trees and bytes of all other files are unchanged; the partition is kept. |
| `Files.FileSystem.Add` | src/bitmap.c:239-287 | A new inode owns nothing; the partition is kept. |
| `Files.FileSystem.Chunk` | src/file.c:273-286 | Ownership moves from the tree to a list of fresh zones; the trees, lists and bytes of all other files and every original are unchanged; a file that is already chunked is refused, and any other is chunked if and only if heap and free zones suffice. |
| `Files.FileSystem.Read` | src/file.c:24-49 | At any time in any run, a file that was chunked without a collision and not resized since reads back exactly the bytes it had when it was chunked. |
| `Files.FileSystem.ZonesBelowChunks` | src/inode.c:323-327 | No zone in use reaches into the hashtable or the heap, where every chunk lies. |
| `Files.FileSystem.HeapIsTight` | src/chunk_handler.c:43-73 | At any time in any run the heap takes up at most the data of its chunks and 47 bytes for each. |
| `Mount.MountBitmap` | src/inode.c:333-372 | Mounting is refused exactly when the bitmap has fewer blocks than the zones need. |
| `Mount.EnoughBlocks` | src/cominix.h:111-114 | The rounded quotient is at most the number of blocks exactly when the blocks have a bit for every zone. |
| `Mount.MountNew` | src/inode.c:181-402 | On a device without an extra superblock: a device too small for the zones, or with a free zone but too small for the table, is a crash; a bitmap with too few blocks is refused; every other device is mounted; a mounted volume has an extra superblock if and only if a zone was free, and then a cleared table and a sound, empty store; without one no byte of it has changed but, where there is one, the first clear padding bit of the bitmap, which is set in any case as by a failing allocation. |
| `Mount.MountAgain` | src/inode.c:218-372 | Mounting again reads the same table, break and chunks back from the device, and from the bitmap blocks as they were left the same zones in use. |
| `Mount.PadsRoundTrip` | src/inode.c:205-314 | The two 16-bit fields, low half first, give the location of the extra superblock back. |
| `Directory.NameCompareExact` | src/dir.c:137-143 | The comparison is exact for names without NUL of at most 60 bytes. |
| `Directory.Dir.FindEntry` | src/dir.c:154-197 | Finds the first live slot with the name, and one exactly when the map has the name, with the inode that the map holds. |
| `Directory.Dir.AddLink` | src/dir.c:199-284 | For an absent name, a map insertion; in general EEXIST exactly when the name is seen before the first free slot, else a failure exactly when there is no room, else the entry goes into the first free slot or a new one; every failure leaves the slots as they were, though it may clear the field at i_size; the BUG() after the loop is unreachable. |
| `Directory.AddPresent` | src/dir.c:241-254 | Adding a present name is refused if and only if its slot comes before the first free one; otherwise the name ends up in two slots. |
| `Directory.AddedTwice` | src/dir.c:241-254 | A directory of four slots, the third one freed, where adding the name of the fourth stores it twice. |
| `Directory.AddAbsent` | src/dir.c:241-254 | Adding an absent name is never refused and is an insertion. |
| `Directory.EntriesInsert` | src/dir.c:261-276 | A live slot stored where there was none inserts into the map and preserves all other names. |
| `Directory.SlotLayout` | src/dir.c:261-276 | A slot is the inode number, the name and NULs. |
| `Directory.EntriesSet` | src/dir.c:300-307 | Overwriting the inode number of a live slot updates the map, or removes the name if it is 0. |
| `Directory.Dir.SetLink` | src/dir.c:407-429 | A map update. |
| `Directory.Dir.DeleteEntry` | src/dir.c:286-308 | A map removal. |
| `Directory.Dir.MakeEmpty` | src/dir.c:310-352 | The map of "." and "..". |
| `Directory.Dir.EmptyDir` | src/dir.c:357-404 | True exactly when every name is "." leading to the directory itself, or "..". |
| `Directory.Dir.LastByteIs` | src/dir.c:33-41 | The part of a page that is below i_size. |
| `Links.EmptyHasTwo` | src/namei.c:166-171 | An empty directory is named by exactly its own "." and its entry. |
| `Namei.Namespace.SlotsHold` | src/dir.c:154-197 | A name is among the slots of a directory exactly when the union has it at that place, with the same inode. |
| `Namei.Namespace.Enter` | src/dir.c:199-284 | On stored directories, cominix_add_link for an absent name inserts one entry into the union of all directories, or, after the same scan, fails for lack of space without a change; its partial test for an existing name never misfires. |
| `Namei.Namespace.Point` | src/dir.c:407-429 | The slot that is found is overwritten: one entry of the union changes. |
| `Namei.Namespace.PointParent` | src/dir.c:407-438 | The second slot of every directory is its ".." in every run, and overwriting it changes that entry alone. |
| `Namei.Namespace.Erase` | src/dir.c:286-308 | The slot that is found is freed: one entry of the union goes. |
| `Namei.Namespace.CheckEmpty` | src/dir.c:357-404 | True exactly when the union has no normal entry in the directory. |
| `Namei.Namespace.MakeDir` | src/dir.c:310-352 | A new directory adds its two entries to the union. |
| `Namei.Namespace.Lookup` | src/dir.c:441-455 | Finds the inode that the union names, if any. |
| `Namei.Namespace.AddNondir` | src/namei.c:10-20 | Enters an inode, or takes its link back and drops it with its last. |
| `Namei.Namespace.Link` | src/namei.c:96-105 | One entry and one link more and nothing else; on failure everything is as it was. |
| `Namei.Namespace.Mknod` | src/namei.c:36-51 | One entry more, for a new inode with one link, and nothing else; on failure everything is as it was. |
| `Namei.Namespace.Unlink` | src/namei.c:141-159 | One entry and one link less and nothing else; an inode goes with its last link. |
| `Namei.Namespace.Mkdir` | src/namei.c:107-139 | Three entries more, the name and the two of the new directory, which has two links, and one link more for its parent; the rollback after either failure restores everything. |
| `Namei.Namespace.Rmdir` | src/namei.c:161-174 | Succeeds exactly for an empty directory, which goes with its three entries and its links; one link less for the parent; nothing else changes. |
| `Namei.Namespace.Rename` | src/namei.c:176-249 | For files and directories, within and across directories, to a free name and over a file or an empty directory: the inode of the old name is at the new one, the old name is gone, a moved directory has a new "..", a replaced one is gone with its entries, and no other entry changes; each failure leaves everything as it was and happens exactly when stated. |
| `Links.RenamedKeeps` | src/namei.c:203-241 | Every kind of rename keeps the invariant. |
| `Links.RenamedIs` | src/namei.c:203-241 | The same of the value that a successful rename computes, entry by entry. |
| `Links.RenamedCounts` | src/namei.c:203-241 | The link counts after each kind of rename: unchanged, one less for a replaced file, one parent less and the other more for a moved directory, a replaced directory gone. |
| `Links.EveryRun` | src/namei.c:96-249 | In every state of every run of link, mknod, unlink, mkdir, rmdir and rename, each live inode has as many links as there are entries of live directories that name it, "." and ".." included. |

## Left out

- Buffer heads, the page cache, dirty marking and writeback: the device is an in-memory byte string and every read and write succeeds.
- I/O and memory-allocation errors; lack of zones, a full heap and a directory that cannot grow are modelled.
- The digest (md5_wrapper.h) and the constants of the gear table: parameters.
- Zeroing the rest of the last page by block_truncate_page: truncation is about the mapping and the zones.
- Itree.GetBlock: says nothing of the state after an access outside a block; no file position leads to one.
- Blocks of 512 bytes: with them the tree has less room than a size limit of 32 bits allows.
- The cutter's one-byte reads and the loop that fills the chunk buffer are full reads of the file's content.
- Locks of the chunk store: chunk_and_replace is one step. Concurrent get_block calls are modelled, without truncation at the same time.
- Slots 10 to 15 of the in-memory i_data, which no code uses.
- The inode bitmap and inode table: inode numbers are given, and inodes are objects in memory.
- Access times, modes, user and group ids, V1 inodes, statfs, getattr, the proc entry and path lookup.
- The checks that the VFS makes before it calls the operations of namei.c: they are the preconditions of `Namei.Namespace`.
- tmpfile and symlink: like mknod, with nothing new for the counts.
- Ownership of zones by directory pages is that of any ordinary file; the bytes of a `Dir` do not sit on a `Volume`.
- Files.FileSystem.SetSize: says of a chunked file only that its list stays; the code does not define what reading it then means.
- Mount.MountAgain: the bitmap blocks are arrays of bits in memory, not part of the bytes of a `Volume`.
- Mount.MountNew: a superblock whose first data zone lies behind the table at 40 MB is not considered.
- ChunkFile.ChunkAndReplace: after a panic nothing is said about the state.
