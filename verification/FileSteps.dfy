/** What the operations on one file do to the volume, and what that means for all files together. */
module FileSteps {
  import opened Arith
  import opened Geometry
  import opened Bytes
  import opened BlockPath
  import opened Trees
  import opened Volumes
  import opened Itree
  import opened Truncation
  import opened FileData
  import opened Cdc
  import opened ChunkHeap
  import opened Dedup
  import opened Collisions
  import opened ChunkStore
  import opened ChunkList
  import opened ChunkFile
  import opened ChunkRead
  import opened Ownership

  // ---------------------------------------------------------------- originals

  /** The data that a chunked file was made from, for those that were chunked without a collision. */
  type Originals = map<nat, seq<seq<Byte>>>

  /** Every original is still there, in the chunks that the list of its file names. */
  ghost predicate Kept(files: map<nat, File>, data: Originals, cs: seq<Chunk>) {
    forall i :: i in data ==>
      && i in files && files[i].Listing? && files[i].size == |Flatten(data[i])| && |files[i].es| == |data[i]|
      && forall j :: 0 <= j < |data[i]| ==> Names(cs, files[i].es[j], data[i][j])
  }

  lemma {:induction false} KeptLater(files: map<nat, File>, data: Originals, cs: seq<Chunk>, cs': seq<Chunk>)
    requires Kept(files, data, cs) && cs <= cs'
    ensures Kept(files, data, cs')
  {
    hide Names;
    forall i, j | i in data && 0 <= j < |data[i]|
      ensures Names(cs', files[i].es[j], data[i][j])
    {
      NamesStays(cs, cs', files[i].es[j], data[i][j]);
    }
  }

  /** A file that changes or goes is no longer known by an original; an ordinary one has none. */
  lemma KeptWithout(files: map<nat, File>, data: Originals, cs: seq<Chunk>, i: nat)
    requires Kept(files, data, cs)
    ensures Kept(files - {i}, data - {i}, cs)
    ensures forall f: File {:trigger files[i := f]} :: Kept(files[i := f], data - {i}, cs)
    ensures (i in files ==> files[i].Mapping?) ==> i !in data
    ensures i !in data ==> data - {i} == data
  {}

  lemma KeptNew(files: map<nat, File>, data: Originals, cs: seq<Chunk>, i: nat, ps: seq<seq<Byte>>)
    requires Kept(files, data, cs) && i in files && files[i].Listing?
    requires |files[i].es| == |ps| && files[i].size == |Flatten(ps)|
    requires forall j :: 0 <= j < |ps| ==> Names(cs, files[i].es[j], ps[j])
    ensures Kept(files, data[i := ps], cs)
  {
    hide Names;
  }

  /** No file is longer than the limit. */
  ghost predicate Bounded(files: map<nat, File>, maxBytes: nat) {
    forall i :: i in files ==> files[i].size <= maxBytes
  }

  lemma BoundedStill(files: map<nat, File>, maxBytes: nat, i: nat)
    requires Bounded(files, maxBytes)
    ensures Bounded(files - {i}, maxBytes)
    ensures forall f: File {:trigger files[i := f]} :: f.size <= maxBytes ==> Bounded(files[i := f], maxBytes)
  {}

  // ---------------------------------------------------------------- files and their zones

  /** An ordinary file: its tree, and that it is told from a chunked one. */
  lemma MappingOk(w: World, p: Params, i: nat)
    requires WorldOk(w, p) && i in w.files && w.files[i].Mapping?
    ensures var f := w.files[i];
      && ZonesOf(w.m, f) == ZonesAll(LoadAll(w.m, f.ws, Root)) <= w.used && p.esb !in ZonesOf(w.m, f)
      && FileTree(w.m, f.ws, p.bs / 4, w.used) && Limited(LoadAll(w.m, f.ws, Root), p.bs, p.maxBytes)
      && |f.ws| == INODE_SLOTS && (AllZero(f.ws, INODE_SLOTS) ==> ZonesOf(w.m, f) == {})
  {
    hide ListIn, Limited, WellFormedAll, SepAll, FullAll;
    OwnedInUse(w, p, i);
    assert FileOk(w.bl, w.m, p, w.files[i]);
    if AllZero(w.files[i].ws, INODE_SLOTS) {
      EmptyTree(w.bl, w.m, p.(bs := 1024), w.files[i].ws);
    }
  }

  /** The mark tells the two kinds of files apart. */
  lemma Kind(w: World, p: Params, i: nat)
    requires WorldOk(w, p) && i in w.files
    ensures w.files[i].Listing? <==> IsChunked(w.files[i].ws)
    ensures w.files[i].Mapping? <==> !w.files[i].Listing?
  {
    hide ListIn, FileTree, Limited;
    assert FileOk(w.bl, w.m, p, w.files[i]);
  }

  /** A chunked file whose original is known. */
  lemma ListingReady(w: World, p: Params, i: nat, data: Originals, cs: seq<Chunk>)
    requires WorldOk(w, p) && i in w.files && i in data && Kept(w.files, data, cs)
    ensures var f := w.files[i];
      && f.Listing? && ZonesOf(w.m, f) == Elems(f.zs) <= w.used && f.size == |Flatten(data[i])|
      && ChunkedFile(w.bl, p.bs, cs, f.ws, f.size, f.zs, f.es, data[i])
  {
    hide ListIn, Names, Flatten, FileTree, Limited;
    OwnedInUse(w, p, i);
    assert FileOk(w.bl, w.m, p, w.files[i]);
  }

  /** The store does not notice writes to other zones than the extra superblock. */
  lemma StoreStays(v: Volume, hash: Hash, d: Blocks, changed: set<nat>)
    requires v.Valid() && v.bs > 0 && |v.disk| < U32 && |v.disk| % v.bs == 0 && |v.disk| / v.bs < U32
    requires EsbStored(d, v.esb, v.hashtable, v.buckets, v.heapBrk)
    requires v.esb in v.bitmap.used && Frame(d, v.blocks, changed) && v.esb !in changed
    requires Store(Area(v.bs, v.hashtable, v.buckets, |v.disk|), v.tail, v.chunks, v.heapBrk)
    requires Sound(Area(v.bs, v.hashtable, v.buckets, |v.disk|), hash, Heap(v.chunks, v.heapBrk))
    ensures StoreOk(v, hash)
  {
    hide Store, Sound, InSync, WordsOf;
    MakeStoreOk(v, hash);
  }

  // ---------------------------------------------------------------- changes of a tree

  /** A tree has been changed within its zones `z` and free zones; the store is as it was. */
  ghost predicate TreeStep(v: Volume, ws: seq<nat>, hash: Hash, bl: Blocks, used: set<nat>, z: set<nat>)
    reads v, v.bitmap, v.bitmap.bits
  {
    && StoreOk(v, hash) && FileTree(v.mem, ws, v.bs / 4, v.bitmap.used) && !IsChunked(ws)
    && Limited(LoadAll(v.mem, ws, Root), v.bs, v.maxBytes)
    && Frame(bl, v.blocks, z + Unused(v.bitmap.nzones, used))
    && v.bitmap.used == used - z + ZonesAll(LoadAll(v.mem, ws, Root)) && z <= used
    && forall y :: y in ZonesAll(LoadAll(v.mem, ws, Root)) && y in used ==> y in z
  }

  /** What the state before a change of a tree says, and what the change may touch. */
  lemma BeforeStep(v: Volume, inode: Inode, hash: Hash)
    requires TreeOk(v, inode) && StoreOk(v, hash) && v.esb !in ZonesAll(Forest(v, inode))
    ensures v.Valid() && BlockSizeOk(v.bs) && v.bs >= 1024 && v.bs / 4 > 0 && v.maxBytes < U32 == 0x1_0000_0000
    ensures |v.disk| == v.hashtable + |v.tail| && ZonesAll(Forest(v, inode)) <= v.bitmap.used
    ensures v.esb !in ZonesAll(Forest(v, inode)) + Unused(v.bitmap.nzones, v.bitmap.used)
    ensures Forest(v, inode) == LoadAll(v.mem, inode.zones, Root)
    ensures !IsChunked(inode.zones) && |inode.zones| == INODE_SLOTS
  {
    hide Store, Sound, WellFormedAll, SepAll, FullAll;
    TreeNotChunked(v, inode);
  }

  /** The state after it. */
  lemma AfterStep(v: Volume, inode: Inode, hash: Hash, bl: Blocks, used: set<nat>, z: set<nat>, changed: set<nat>)
    requires TreeOk(v, inode) && Limited(Forest(v, inode), v.bs, v.maxBytes) && |v.disk| < U32
    requires v.bs > 0 && |v.disk| % v.bs == 0 && |v.disk| / v.bs < U32
    requires EsbStored(bl, v.esb, v.hashtable, v.buckets, v.heapBrk) && v.esb in used && v.esb !in z
      && v.esb !in changed
    requires Store(Area(v.bs, v.hashtable, v.buckets, |v.disk|), v.tail, v.chunks, v.heapBrk)
    requires Sound(Area(v.bs, v.hashtable, v.buckets, |v.disk|), hash, Heap(v.chunks, v.heapBrk))
    requires Frame(bl, v.blocks, changed) && changed <= z + Unused(v.bitmap.nzones, used)
    requires v.bitmap.used == used - z + ZonesAll(Forest(v, inode)) && z <= used
    requires forall y :: y in ZonesAll(Forest(v, inode)) && y in used ==> y in z
    ensures TreeStep(v, inode.zones, hash, bl, used, z)
  {
    hide Store, Sound, WellFormedAll, SepAll, FullAll, Limited, InSync, WordsOf, LoadAll, Unused, ZonesAll;
    TreeNotChunked(v, inode);
    StoreStays(v, hash, bl, changed);
  }

  /** The length of the device, which no tree operation changes. */
  lemma LengthIs(v: Volume, inode: Inode)
    requires TreeOk(v, inode)
    ensures |v.disk| == v.hashtable + |v.tail| && Forest(v, inode) == LoadAll(v.mem, inode.zones, Root)
    ensures |inode.zones| == INODE_SLOTS
  {}

  /** What a change of a tree means for the world. */
  lemma {:induction false} TreeChange(w: World, w': World, p: Params, i: nat, f: File, v: Volume, hash: Hash)
    returns (changed: set<nat>)
    requires WorldOk(w, p) && i in w.files && w.files[i].Mapping? && p == Params(v.bs, v.maxBytes, v.esb) && f.Mapping?
    requires w' == World(v.blocks, v.mem, v.bitmap.used, w.files[i := f], w.lost)
    requires TreeStep(v, f.ws, hash, w.bl, w.used, ZonesOf(w.m, w.files[i]))
    ensures ChangesOne(w, w', p, i, f, changed) && StoreOk(v, hash)
    ensures ZonesOf(w'.m, f) - ZonesOf(w.m, w.files[i]) == w'.used - w.used
    ensures ZonesOf(w'.m, f) == ZonesAll(LoadAll(w'.m, f.ws, Root))
  {
    hide WellFormedAll, SepAll, FullAll, Limited, InSync, Store, Sound;
    changed := ZonesOf(w.m, w.files[i]) + Unused(v.bitmap.nzones, w.used);
    VolumeParts(v);
  }

  // ---------------------------------------------------------------- mapping a block

  /** Writing to a block of a tree keeps every mapping below the limit. */
  lemma {:induction false} WrittenZones(ts: seq<Tree>, ts': seq<Tree>, bs: nat, maxBytes: nat, block: int, zone: nat,
                                        used: set<nat>, used': set<nat>, isNew: bool)
    requires bs >= 4 && Limited(ts, bs, maxBytes) && ZonesAll(ts) <= used
    requires !isNew ==> ts' == ts && used' == used
    requires isNew ==> 0 <= block && block * bs < maxBytes && AddsOne(ts, ts', bs / 4, block, zone, used, used')
    ensures Limited(ts', bs, maxBytes) && used' == used - ZonesAll(ts) + ZonesAll(ts')
    ensures forall z :: z in ZonesAll(ts') && z in used ==> z in ZonesAll(ts)
  {
    hide Mapped, ZonesAll, Capacity;
    forall z | z in ZonesAll(ts') && z in used
      ensures z in ZonesAll(ts)
    {
      assert isNew ==> z !in used' - used;
    }
    assert isNew ==> forall z :: z in used' <==> z in used || z in used' - used;
  }

  /** Block `block` is mapped to `zone`, and the other blocks as before. */
  ghost predicate Wrote(ts: seq<Tree>, ts': seq<Tree>, n: nat, block: int, zone: nat) {
    && n > 0 && zone != 0 && 0 <= block < Capacity(n)
    && forall b :: 0 <= b < Capacity(n) ==> Mapped(ts', n, b) == if b == block then zone else Mapped(ts, n, b)
  }

  /** What get_block with creation reports and does, and when. */
  ghost predicate WriteResult(v: Volume, ts: seq<Tree>, ts': seq<Tree>, used: set<nat>, used': set<nat>, block: int,
                              status: Itree.Status, zone: nat) {
    && (status == Itree.Invalid <==> !BelowLimit(v, block))
    && (status == Itree.NoSpace <==> BelowLimit(v, block) && Starved(v, ts, used, block))
    && (status == Itree.Ok ==> Wrote(ts, ts', v.bs / 4, block, zone))
    && (status != Itree.Ok ==> ts' == ts && used' == used)
    && status != Itree.Again && status != Itree.Wild
  }

  lemma {:induction false} WriteResultIs(v: Volume, ts: seq<Tree>, ts': seq<Tree>, used: set<nat>, used': set<nat>,
                                         block: int, status: Itree.Status, zone: nat, isNew: bool)
    requires BlockSizeOk(v.bs) && v.maxBytes < U32 && status != Itree.Again && status != Itree.Wild
    requires status == Itree.Invalid <==> !BelowLimit(v, block)
    requires status == Itree.NoSpace <==> BelowLimit(v, block) && Starved(v, ts, used, block)
    requires status == Itree.Ok && !isNew ==> zone == Mapped(ts, v.bs / 4, block) && zone != 0
    requires !isNew ==> ts' == ts && used' == used
    requires isNew ==> status == Itree.Ok && AddsOne(ts, ts', v.bs / 4, block, zone, used, used')
    ensures WriteResult(v, ts, ts', used, used', block, status, zone)
  {
    hide Mapped, Capacity, Starved;
    if status == Itree.Ok {
      LimitFits(block, v.bs, v.maxBytes);
    }
  }

  /** get_block with creation, on an ordinary file, for a block that a file position can be in. */
  method WriteBlock(v: Volume, inode: Inode, hash: Hash, block: nat) returns (status: Itree.Status, zone: nat)
    requires block * v.bs < 0x8000_0000_0000_0000
    requires TreeOk(v, inode) && Limited(Forest(v, inode), v.bs, v.maxBytes)
    requires StoreOk(v, hash) && v.esb !in ZonesAll(Forest(v, inode))
    modifies v`disk, v`blocks, v`mem, v.bitmap, v.bitmap.bits, inode`zones
    ensures TreeStep(v, inode.zones, hash, old(v.blocks), old(v.bitmap.used), ZonesAll(old(Forest(v, inode))))
    ensures WriteResult(v, old(Forest(v, inode)), LoadAll(v.mem, inode.zones, Root), old(v.bitmap.used), v.bitmap.used,
                        block, status, zone)
  {
    hide *;
    BeforeStep(v, inode, hash);
    StoreParts(v, hash);
    ghost var ts, used, d := Forest(v, inode), v.bitmap.used, v.blocks;
    var isNew;
    NoOverflow(v, block);
    status, zone, isNew := GetBlock(v, inode, block, true);
    LengthIs(v, inode);
    WrittenZones(ts, Forest(v, inode), v.bs, v.maxBytes, block, zone, used, v.bitmap.used, isNew);
    WriteResultIs(v, ts, Forest(v, inode), used, v.bitmap.used, block, status, zone, isNew);
    AfterStep(v, inode, hash, d, used, ZonesAll(ts), ZonesAll(ts) + Unused(v.bitmap.nzones, used));
  }

  /** Such a block is accepted exactly when it is below the limit, and is its own target. */
  lemma NoOverflow(v: Volume, block: nat)
    requires v.Valid() && block * v.bs < 0x8000_0000_0000_0000
    ensures Accepted(block, v.bs, v.maxBytes) <==> BelowLimit(v, block)
    ensures BelowLimit(v, block) <==> block * v.bs < v.maxBytes
    ensures !Stray(block, v.bs) && Target(block, v.bs) == block
  {
    AcceptedExactly(block, v.bs, v.maxBytes);
    TargetSame(block, v.bs);
  }

  // ---------------------------------------------------------------- cutting and writing

  /** cominix_truncate on an ordinary file. */
  method CutFile(v: Volume, inode: Inode, hash: Hash, size: nat)
    requires TreeOk(v, inode) && Limited(Forest(v, inode), v.bs, v.maxBytes) && size <= v.maxBytes
    requires StoreOk(v, hash) && v.esb !in ZonesAll(Forest(v, inode)) && v.bs >= 1024
    modifies v`disk, v`blocks, v`mem, v.bitmap, v.bitmap.bits, inode`zones, inode`size
    ensures TreeStep(v, inode.zones, hash, old(v.blocks), old(v.bitmap.used), ZonesAll(old(Forest(v, inode))))
    ensures inode.size == size && |inode.zones| == INODE_SLOTS && (size == 0 ==> AllZero(inode.zones, INODE_SLOTS))
    ensures var ts, ts' := old(Forest(v, inode)), LoadAll(v.mem, inode.zones, Root);
      && ts' == Trimmed(ts, v.bs, v.maxBytes, FirstGone(size, v.bs))
      && KeepsBelow(ts, ts', v.bs / 4, FirstGone(size, v.bs)) && ZonesAll(ts') <= ZonesAll(ts)
      && v.bitmap.used == old(v.bitmap.used) - (ZonesAll(ts) - ZonesAll(ts'))
  {
    hide *;
    BeforeStep(v, inode, hash);
    StoreParts(v, hash);
    TreeParts(v, inode);
    ghost var ts, used, d := Forest(v, inode), v.bitmap.used, v.blocks;
    inode.size := size;
    TreeParts(v, inode);
    TruncateInode(v, inode);
    LengthIs(v, inode);
    ghost var z, z' := ZonesAll(ts), ZonesAll(Forest(v, inode));
    assert used - (z - z') == used - z + z';
    AfterStep(v, inode, hash, d, used, z, z);
  }

  /** A write of data into a block of an ordinary file that is mapped. */
  method PutFile(v: Volume, inode: Inode, hash: Hash, pos: nat, s: seq<Byte>) returns (ok: bool)
    requires TreeOk(v, inode) && Limited(Forest(v, inode), v.bs, v.maxBytes) && inode.size <= v.maxBytes
    requires StoreOk(v, hash) && v.esb !in ZonesAll(Forest(v, inode)) && v.bs >= 1024
    requires pos < v.maxBytes && Rem(pos, v.bs) + |s| <= v.bs
    modifies v`disk, v`blocks, v`mem
    ensures TreeStep(v, inode.zones, hash, old(v.blocks), v.bitmap.used, ZonesAll(old(Forest(v, inode))))
    ensures var ts := old(Forest(v, inode));
      && LoadAll(v.mem, inode.zones, Root) == ts && (ok <==> Mapped(ts, v.bs / 4, Quot(pos, v.bs)) != 0)
      && (!ok ==> v.blocks == old(v.blocks))
      && (ok ==>
            Content(v.blocks, ts, v.bs, inode.size) == Overlay(Content(old(v.blocks), ts, v.bs, inode.size), pos, s))
  {
    hide *;
    BeforeStep(v, inode, hash);
    StoreParts(v, hash);
    ghost var ts, used, d := Forest(v, inode), v.bitmap.used, v.blocks;
    ok := PutData(v, inode, pos, s);
    LengthIs(v, inode);
    ghost var z := ZonesAll(ts);
    assert used == used - z + z;
    AfterStep(v, inode, hash, d, used, z, z);
  }

  // ---------------------------------------------------------------- switching to a list

  /** The originals, with that of a file that has just been chunked. */
  lemma {:induction false} Original(files: map<nat, File>, data: Originals, v: Volume, hash: Hash, gear: Gear,
                                    a: Area, st: Heap, file: seq<Byte>, i: nat, f: File)
    requires Kept(files, data, st.cs) && i !in data && f.Listing? && f.size == |file|
    requires Sound(a, hash, st) && Digest(hash) && a.bs > 0 && a.buckets > 0
    requires AddAll(a, hash, st, Pieces(gear, file)) == Made(Heap(v.chunks, v.heapBrk), f.es)
    ensures Kept(files[i := f], data, v.chunks) && data - {i} == data && Fit(f.es) && st.cs <= v.chunks
    ensures Flatten(Pieces(gear, file)) == file && data[i := Pieces(gear, file)] - {i} == data
    ensures NoCollision(hash, st.cs, Pieces(gear, file)) ==>
      Kept(files[i := f], data[i := Pieces(gear, file)], v.chunks)
  {
    hide *;
    var ps := Pieces(gear, file);
    PiecesPartition(gear, file);
    AllStorable(hash, ps);
    EntriesFit(a, hash, gear, st, file, Heap(v.chunks, v.heapBrk), f.es);
    KeptLater(files, data, st.cs, v.chunks);
    KeptWithout(files, data, v.chunks, i);
    if NoCollision(hash, st.cs, ps) {
      NoCollisionIsFaithful(a, hash, st, ps);
      NamesExactly(a, hash, st, ps);
      KeptNew(files[i := f], data, v.chunks, i, ps);
    }
  }

  /** How chunking ends: it is done exactly when the heap has room for the new pieces, and the free zones
      for the list. */
  ghost predicate Ended(v: Volume, status: Ending, a: Area, hash: Hash, st: Heap, used: set<nat>,
                        ps: seq<seq<Byte>>) {
    && a.bs > 0 && a.buckets > 0 && status != Already
    && (status == HeapFull ==> AddAll(a, hash, st, ps).Panic?)
    && (status == NoZones ==> NoRoom(v, used, |ps|))
    && (status == Done <==> AddAll(a, hash, st, ps).Made? && !NoRoom(v, used, |ps|))
  }

  /** Chunking an ordinary file, with the original it leaves when there is no collision. */
  method ChunkOne(v: Volume, inode: Inode, hash: Hash, gear: Gear, ghost files: map<nat, File>, ghost data: Originals,
                  ghost i: nat)
    returns (status: Ending, ghost f: File, ghost data': Originals)
    requires TreeOk(v, inode) && Limited(Forest(v, inode), v.bs, v.maxBytes) && inode.size <= v.maxBytes && v.bs >= 1024
    requires StoreOk(v, hash) && Digest(hash) && v.esb !in ZonesAll(Forest(v, inode))
    requires Kept(files, data, v.chunks) && i !in data
    modifies v`disk, v`blocks, v`mem, v`tail, v`heapBrk, v`chunks, v.bitmap, v.bitmap.bits, inode`zones, inode`size
    ensures status != Already && (status == NoZones ==> v.bitmap.Exhausted())
    ensures var file := old(Content(v.blocks, Forest(v, inode), v.bs, inode.size));
      && Ended(v, status, old(v.Where()), hash, old(Heap(v.chunks, v.heapBrk)), old(v.bitmap.used),
               Pieces(gear, file))
      && (status == Done && NoCollision(hash, old(v.chunks), Pieces(gear, file)) ==>
            i in data' && Flatten(data'[i]) == file)
    ensures status == Done ==>
      && f.Listing? && f.ws == inode.zones && f.size == inode.size == old(inode.size) && Fit(f.es)
      && Switched(v, f.ws, hash, ZonesAll(old(Forest(v, inode))), old(v.blocks), old(v.bitmap.used), f.zs, f.es)
      && Kept(files[i := f], data', v.chunks) && data' - {i} == data && old(v.chunks) <= v.chunks
  {
    ghost var a, st := v.Where(), Heap(v.chunks, v.heapBrk);
    ghost var file := Content(v.blocks, Forest(v, inode), v.bs, inode.size);
    ghost var zs, es;
    status, zs, es := ChunkAndReplace(v, inode, hash, gear);
    f, data' := Listing(inode.zones, inode.size, zs, es), data;
    if status == Done {
      Original(files, data, v, hash, gear, a, st, file, i, f);
      if NoCollision(hash, st.cs, Pieces(gear, file)) {
        data' := data[i := Pieces(gear, file)];
      }
    }
  }

  /** What the switch to a list means for the world. */
  lemma {:induction false} ListChange(w: World, w': World, p: Params, i: nat, f: File, v: Volume, hash: Hash)
    returns (changed: set<nat>)
    requires WorldOk(w, p) && i in w.files && w.files[i].Mapping? && p == Params(v.bs, v.maxBytes, v.esb)
    requires f.Listing? && Fit(f.es)
    requires w' == World(v.blocks, v.mem, v.bitmap.used, w.files[i := f], w.lost)
    requires Switched(v, f.ws, hash, ZonesOf(w.m, w.files[i]), w.bl, w.used, f.zs, f.es)
    ensures ChangesOne(w, w', p, i, f, changed) && StoreOk(v, hash)
    ensures ZonesOf(v.mem, f) == Elems(f.zs) && Elems(f.zs) !! w.used
    ensures v.bitmap.used == w.used - ZonesOf(w.m, w.files[i]) + Elems(f.zs)
  {
    hide *;
    SwitchedParts(v, f.ws, hash, ZonesOf(w.m, w.files[i]), w.bl, w.used, f.zs, f.es);
    changed := ZonesOf(w.m, w.files[i]) + Elems(f.zs) + {v.esb};
    VolumeParts(v);
    ListingOk(w, w', p, i, f, v, hash);
    MakeChangesOne(w, w', p, i, f, changed);
  }

  lemma ListingOk(w: World, w': World, p: Params, i: nat, f: File, v: Volume, hash: Hash)
    requires p == Params(v.bs, v.maxBytes, v.esb) && f.Listing? && Fit(f.es) && w'.bl == v.blocks
    requires i in w.files && Switched(v, f.ws, hash, ZonesOf(w.m, w.files[i]), w.bl, w.used, f.zs, f.es)
    ensures FileOk(w'.bl, w'.m, p, f) && ZonesOf(w'.m, f) == Elems(f.zs)
  {
    hide ListIn, StoreOk, Fit;
  }

  lemma MakeChangesOne(w: World, w': World, p: Params, i: nat, f: File, changed: set<nat>)
    requires i in w.files && w'.files == w.files[i := f] && w'.lost == w.lost && Frame(w.bl, w'.bl, changed)
    requires forall z :: z in changed && z in w.used ==> z in ZonesOf(w.m, w.files[i]) || z == p.esb
    requires forall z :: z in ZonesOf(w'.m, f) && z in w.used ==> z in ZonesOf(w.m, w.files[i])
    requires w'.used == w.used - ZonesOf(w.m, w.files[i]) + ZonesOf(w'.m, f)
    requires FileOk(w'.bl, w'.m, p, f) && WordsOf(w'.bl, w'.m) && forall z :: z in w'.used ==> z in w'.bl
    ensures ChangesOne(w, w', p, i, f, changed)
  {}
}
