/** Reading, writing and searching the chunk area in place (chunk_handler.c). */
module ChunkStore {
  import opened Arith
  import opened Bytes
  import opened Volumes
  import opened ChunkHeap
  import opened Dedup

  /** A write to the chunk area leaves the zones alone. */
  lemma PutTail(d: seq<Byte>, bs: nat, nzones: nat, table: nat, blocks: Blocks, tail: seq<Byte>, off: nat, s: seq<Byte>)
    requires InSync(d, bs, nzones, table, blocks, tail) && nzones == table / bs && table <= off && off + |s| <= |d|
    ensures |tail| == |d| - table
    ensures InSync(Put(d, off, s), bs, nzones, table, blocks, Put(tail, off - table, s))
  {
    var d' := Put(d, off, s);
    assert d'[table..] == Put(tail, off - table, s);
    forall z | 0 <= z < nzones
      ensures z in blocks && blocks[z] == Block(d', bs, z)
    {
      ZoneEnd(z, bs, nzones, table);
      BlockFits(z, bs, |d|);
      SubPut(d, off, s, Start(z, bs), bs);
      assert Block(d, bs, z) == Block(d', bs, z);
    }
  }

  /** A byte offset inside the device is in the block that block_no says: the number of blocks fits in
      32 bits. */
  predicate Addressable(v: Volume)
    reads v`disk
  {
    v.bs > 0 && |v.disk| % v.bs == 0 && |v.disk| / v.bs < U32
  }

  lemma BlockNoExact(v: Volume, off: nat)
    requires Addressable(v) && off < |v.disk|
    ensures BlockNo(off, v.bs) == off / v.bs && Start(off / v.bs, v.bs) + off % v.bs == off
    ensures Start(off / v.bs, v.bs) + v.bs <= |v.disk|
  {
    DivMod(|v.disk|, v.bs, 0);
    DivMod(off, v.bs, |v.disk| / v.bs);
    MulMono(off / v.bs + 1, |v.disk| / v.bs, v.bs, v.bs);
  }

  lemma StartNext(blk: nat, bs: nat)
    requires blk > 0
    ensures Start(blk, bs) == Start(blk - 1, bs) + bs
  {}

  /** write_data_storage: block by block is one flat write. */
  method WriteStorage(v: Volume, storage: nat, data: seq<Byte>)
    requires v.Valid() && Addressable(v) && v.hashtable <= storage < |v.disk| && storage + |data| <= |v.disk|
    modifies v`disk, v`tail
    ensures v.Valid() && v.disk == Put(old(v.disk), storage, data)
    ensures storage - v.hashtable + |data| <= |old(v.tail)| && v.tail == Put(old(v.tail), storage - v.hashtable, data)
  {
    hide Start, Put, BlockNo;
    ghost var d := v.disk;
    PutTail(d, v.bs, v.bitmap.nzones, v.hashtable, v.blocks, v.tail, storage, data);
    BlockNoExact(v, storage);
    var blk, off := BlockNo(storage, v.bs), storage % v.bs;
    var n := if v.bs - off < |data| then v.bs - off else |data|;
    v.disk := Put(v.disk, Start(blk, v.bs) + off, data[..n]);
    var pos := n;
    while pos < |data|
      invariant pos <= |data| && v.disk == Put(d, storage, data[..pos]) && v.tail == old(v.tail)
      invariant pos < |data| ==> Start(blk, v.bs) + v.bs == storage + pos
    {
      blk := blk + 1;
      StartNext(blk, v.bs);
      n := if v.bs < |data| - pos then v.bs else |data| - pos;
      PutPut(d, storage, data[..pos], data[pos..pos + n]);
      assert data[..pos] + data[pos..pos + n] == data[..pos + n];
      v.disk := Put(v.disk, Start(blk, v.bs), data[pos..pos + n]);
      pos := pos + n;
    }
    assert data[..pos] == data;
    v.tail := Put(v.tail, storage - v.hashtable, data);
  }

  /** read_data_storage: block by block is one flat read. */
  method ReadStorage(v: Volume, storage: nat, length: nat) returns (data: seq<Byte>)
    requires Addressable(v) && storage < |v.disk| && storage + length <= |v.disk|
    ensures data == Sub(v.disk, storage, length)
  {
    hide Start, BlockNo;
    BlockNoExact(v, storage);
    var blk, off := BlockNo(storage, v.bs), storage % v.bs;
    var n := if v.bs - off < length then v.bs - off else length;
    data := Sub(v.disk, Start(blk, v.bs) + off, n);
    while |data| < length
      invariant |data| <= length && data == Sub(v.disk, storage, |data|)
      invariant |data| < length ==> Start(blk, v.bs) + v.bs == storage + |data|
    {
      blk := blk + 1;
      StartNext(blk, v.bs);
      var pos := |data|;
      n := if v.bs < length - pos then v.bs else length - pos;
      data := data + Sub(v.disk, Start(blk, v.bs), n);
      assert v.disk[storage..storage + pos + n] ==
        v.disk[storage..storage + pos] + v.disk[storage + pos..storage + pos + n];
    }
  }

  /** load_blockoff: bytes at `off`, as far as the end of the block. */
  method LoadWithin(v: Volume, off: nat, n: nat) returns (s: seq<Byte>)
    requires Addressable(v) && off + n <= |v.disk| && off < |v.disk| && off % v.bs + n <= v.bs
    ensures s == Sub(v.disk, off, n)
  {
    BlockNoExact(v, off);
    s := Sub(Sub(v.disk, Start(BlockNo(off, v.bs), v.bs), v.bs), off % v.bs, n);
    SubSub(v.disk, Start(BlockNo(off, v.bs), v.bs), v.bs, off % v.bs, n);
  }

  // ---------------------------------------------------------------- the hashtable

  /** The table and the heap on the device agree with the chunks, and the extra superblock has the
      current break. */
  ghost predicate StoreOk(v: Volume, hash: Hash)
    reads v, v.bitmap, v.bitmap.bits
  {
    && v.Valid() && Addressable(v) && |v.disk| < U32
    && Store(v.Where(), v.tail, v.chunks, v.heapBrk)
    && Sound(v.Where(), hash, Heap(v.chunks, v.heapBrk))
    && v.esb in v.bitmap.used && EsbStored(v.blocks, v.esb, v.hashtable, v.buckets, v.heapBrk)
  }

  /** The fields of the extra superblock: where the table is, its size in bytes, and the break. */
  ghost predicate EsbStored(blocks: Blocks, esb: nat, table: nat, buckets: nat, brk: nat) {
    && esb in blocks && |blocks[esb]| >= 24 && Sub(blocks[esb], 0, 8) == Enc(table, 8)
    && Sub(blocks[esb], 8, 4) == Enc(BUCKET_SIZE * buckets, 4) && Sub(blocks[esb], 16, 8) == Enc(brk, 8)
  }

  /** Bytes of the chunk area read through the flat device. */
  lemma TailBytes(v: Volume, off: nat, n: nat)
    requires v.Valid() && v.hashtable <= off && off + n <= |v.disk|
    ensures |v.tail| == |v.disk| - v.hashtable && Sub(v.disk, off, n) == Sub(v.tail, off - v.hashtable, n)
  {
    SubSub(v.disk, v.hashtable, |v.disk| - v.hashtable, off - v.hashtable, n);
    assert v.tail == Sub(v.disk, v.hashtable, |v.disk| - v.hashtable);
  }

  /** What a bucket holds. */
  method LoadBucket(v: Volume, b: nat, ghost brk: nat) returns (loc: nat)
    requires v.Valid() && Addressable(v) && Store(v.Where(), v.tail, v.chunks, brk) && b < v.buckets
    ensures loc == Head(v.Where(), v.chunks, b)
  {
    var off := v.hashtable + BUCKET_SIZE * b;
    BucketInBlock(v.Where(), b);
    var s := LoadWithin(v, off, 8);
    TailBytes(v, off, 8);
    BucketHolds(v.Where(), v.tail, v.chunks, brk, b);
    loc := Dec(s);
  }

  lemma BucketHolds(a: Area, t: seq<Byte>, cs: seq<Chunk>, brk: nat, b: nat)
    requires Store(a, t, cs, brk) && b < a.buckets
    ensures a.buckets > 0 && 8 * b + 8 <= |t| && Dec(Sub(t, 8 * b, 8)) == Head(a, cs, b)
  {
    assert BucketStored(a, t, cs, b);
    HeadBound(a, cs, brk, b);
    Pow256Is();
    DecEnc(Head(a, cs, b), 8);
  }

  lemma {:induction false} HeadBound(a: Area, cs: seq<Chunk>, brk: nat, b: nat)
    requires AreaOk(a) && a.max <= U64 && Laid(a, cs, brk)
    ensures Head(a, cs, b) < U64
    decreases |cs|
  {
    if Head(a, cs, b) != 0 {
      var j := HeadIsLast(a, cs, b);
    }
  }

  /** The hash and next fields of a stored chunk. */
  method LoadHead(v: Volume, ghost hash: Hash, ghost i: nat, loc: nat) returns (h: nat, next: nat)
    requires StoreOk(v, hash) && i < |v.chunks| && loc == v.chunks[i].loc
    ensures h == v.chunks[i].hash && next == v.chunks[i].next && next < loc
  {
    hide *;
    ghost var c := v.chunks[i];
    ChunkFacts(v, hash, i);
    HeadFields(c);
    var s := LoadWithin(v, loc, HEAD_SIZE);
    h, next := Dec(Sub(s, 0, 8)), Dec(Sub(s, 16, 8));
  }

  lemma AreaFacts(v: Volume)
    ensures v.Where() == Area(v.bs, v.hashtable, v.buckets, |v.disk|) && HEAD_SIZE == 24 && BUCKET_SIZE == 8
  {}

  /** The parts of a sound store. */
  lemma StoreParts(v: Volume, hash: Hash)
    requires StoreOk(v, hash)
    ensures HEAD_SIZE == 24 && BUCKET_SIZE == 8
    ensures v.Valid() && Addressable(v) && v.bs > 0 && 0 < v.buckets && 0 < v.hashtable
      && v.hashtable + 8 * v.buckets <= |v.disk| < U32
    ensures v.Where() == Area(v.bs, v.hashtable, v.buckets, |v.disk|) && AreaOk(v.Where())
    ensures |v.disk| % v.bs == 0 && |v.disk| / v.bs < U32
    ensures Store(v.Where(), v.tail, v.chunks, v.heapBrk) && Sound(v.Where(), hash, Heap(v.chunks, v.heapBrk))
    ensures v.esb in v.bitmap.used && v.esb < v.bitmap.nzones && v.esb in v.blocks && |v.blocks[v.esb]| == v.bs >= 1024
      && EsbStored(v.blocks, v.esb, v.hashtable, v.buckets, v.heapBrk)
  {}

  /** What the store says about one of its chunks. */
  lemma ChunkFacts(v: Volume, hash: Hash, i: nat)
    requires StoreOk(v, hash) && i < |v.chunks|
    ensures v.bs > 0 && Addressable(v) && v.Valid() && HEAD_SIZE == 24 && BUCKET_SIZE == 8
    ensures var c := v.chunks[i];
      && 0 < v.hashtable <= c.loc && c.loc + HEAD_SIZE + |c.data| <= |v.disk| && c.loc % v.bs + HEAD_SIZE <= v.bs
      && c.hash < U64 && c.next < c.loc < U64 && c.hash == hash(c.data)
      && Sub(v.disk, c.loc, HEAD_SIZE) == HeadBytes(c) && Sub(v.disk, c.loc + HEAD_SIZE, |c.data|) == c.data
  {
    hide *;
    var c := v.chunks[i];
    StoreParts(v, hash);
    ChunkLaid(v.Where(), v.tail, v.chunks, v.heapBrk, i);
    ChunkHashed(v.Where(), hash, Heap(v.chunks, v.heapBrk), i);
    TailBytes(v, c.loc, HEAD_SIZE);
    TailBytes(v, c.loc + HEAD_SIZE, |c.data|);
  }

  lemma ChunkLaid(a: Area, t: seq<Byte>, cs: seq<Chunk>, brk: nat, i: nat)
    requires Store(a, t, cs, brk) && i < |cs|
    ensures a.bs > 0 && 0 < a.table <= cs[i].loc && cs[i].loc + HEAD_SIZE + |cs[i].data| <= a.max
      && cs[i].loc % a.bs + HEAD_SIZE <= a.bs
    ensures cs[i].hash < U64 && cs[i].next < cs[i].loc < U64 && |t| == a.max - a.table
    ensures Sub(t, cs[i].loc - a.table, HEAD_SIZE) == HeadBytes(cs[i])
    ensures Sub(t, cs[i].loc + HEAD_SIZE - a.table, |cs[i].data|) == cs[i].data
  {
    ChainDescends(a, cs, brk, i);
    assert Stored(a, t, cs[i]);
  }

  lemma ChunkHashed(a: Area, hash: Hash, st: Heap, i: nat)
    requires Sound(a, hash, st) && i < |st.cs|
    ensures st.cs[i].hash == hash(st.cs[i].data)
  {}

  /** One step along the chain of a bucket. */
  lemma {:induction false} ChainStep(a: Area, t: seq<Byte>, cs: seq<Chunk>, brk: nat, k: nat, h: nat) returns (j: nat)
    requires Store(a, t, cs, brk) && k <= |cs| && a.buckets > 0 && Head(a, cs[..k], BucketOf(a, h)) != 0
    ensures j < k && Head(a, cs[..k], BucketOf(a, h)) == cs[j].loc
    ensures cs[j].next == Head(a, cs[..j], BucketOf(a, h))
    ensures Find(cs[..k], h) == if cs[j].hash == h then cs[j].loc else Find(cs[..j], h)
  {
    hide AreaOk, Laid, Stored, BucketStored, BucketOf, Head;
    j := HeadIsLast(a, cs[..k], BucketOf(a, h));
    assert cs[..k][..j + 1] == cs[..j + 1] && cs[..j + 1][..j] == cs[..j];
  }

  /** chunk_search_hashtable: follow the chain of the bucket; locations get smaller, so it ends. */
  method SearchHashtable(v: Volume, hash: Hash, h: nat) returns (loc: nat)
    requires StoreOk(v, hash)
    ensures loc == Find(v.chunks, h)
  {
    hide *;
    StoreParts(v, hash);
    var b := BucketOf(v.Where(), h);
    loc := LoadBucket(v, b, v.heapBrk);
    ghost var cs, k: nat := v.chunks, |v.chunks|;
    assert cs[..k] == cs;
    while loc != 0
      invariant k <= |cs| && loc == Head(v.Where(), cs[..k], b) && Find(cs, h) == Find(cs[..k], h)
      decreases loc
    {
      ghost var j := ChainStep(v.Where(), v.tail, cs, v.heapBrk, k, h);
      var got, next := LoadHead(v, hash, j, loc);
      if got == h {
        return;
      }
      loc, k := next, j;
    }
    NothingFound(v, hash, k, h);
  }

  lemma NothingFound(v: Volume, hash: Hash, k: nat, h: nat)
    requires StoreOk(v, hash) && k <= |v.chunks| && Head(v.Where(), v.chunks[..k], BucketOf(v.Where(), h)) == 0
    ensures Find(v.chunks[..k], h) == 0
  {
    NoHead(v.Where(), v.chunks[..k], h);
  }

  // ---------------------------------------------------------------- adding a chunk

  /** chunk_alloc: move the break, in memory and in the extra superblock; a full heap is a panic. */
  method ChunkAlloc(v: Volume, ghost hash: Hash, size: nat) returns (ok: bool, place: nat)
    requires StoreOk(v, hash) && 0 < size
    modifies v`disk, v`blocks, v`mem, v`heapBrk
    ensures v.bs > 0 && |v.disk| == |old(v.disk)| && place == Place(old(v.heapBrk), v.bs)
    ensures ok <==> place + HEAD_SIZE + size < |v.disk|
    ensures ok ==>
      && v.Valid() && Addressable(v) && v.heapBrk == place + HEAD_SIZE + size && v.esb < v.bitmap.nzones
         && EsbStored(v.blocks, v.esb, v.hashtable, v.buckets, v.heapBrk)
      && Frame(old(v.blocks), v.blocks, {v.esb})
  {
    hide InSync, WordsOf, Store, Sound, AddAll;
    BreakAboveZones(v, hash);
    var brk := v.heapBrk;
    if BlockNo(brk, v.bs) != BlockNo(brk + HEAD_SIZE - 1, v.bs) {
      brk := Rem(Times(BlockNo(brk, v.bs) + 1, v.bs), U32);
    }
    place := brk;
    brk := brk + HEAD_SIZE + size;
    if brk >= |v.disk| {
      return false, place;
    }
    v.heapBrk := brk;
    v.PutBytes(v.esb, 16, Enc(brk, 8));
    BrkWritten(old(v.blocks), v.blocks, v.esb, v.hashtable, v.buckets, old(v.heapBrk), v.heapBrk);
    ok := true;
  }

  /** The check at the start of chunk_alloc never fires: the break lies above the zones. */
  lemma BreakAboveZones(v: Volume, hash: Hash)
    requires StoreOk(v, hash)
    ensures v.heapBrk > Start(v.bitmap.nzones, v.bs)
  {
    DivMod(v.hashtable, v.bs, 0);
  }

  lemma BrkWritten(b: Blocks, b': Blocks, esb: nat, table: nat, buckets: nat, brk: nat, brk': nat)
    requires EsbStored(b, esb, table, buckets, brk) && esb in b' && b'[esb] == Put(b[esb], 16, Enc(brk', 8))
    ensures EsbStored(b', esb, table, buckets, brk')
  {
    hide Enc;
    SubPut(b[esb], 16, Enc(brk', 8), 16, 8);
    SubPut(b[esb], 16, Enc(brk', 8), 0, 8);
    SubPut(b[esb], 16, Enc(brk', 8), 8, 4);
  }

  lemma StaysAddressable(v: Volume)
    requires v.bs > 0 && |v.disk| % v.bs == 0 && |v.disk| / v.bs < U32
    ensures Addressable(v) && v.Where() == Area(v.bs, v.hashtable, v.buckets, |v.disk|)
  {}

  /** chunk_fill_hashtable: store a chunk whose hash is not in the table yet, and link it into its
      bucket. */
  method FillHashtable(v: Volume, hash: Hash, data: seq<Byte>) returns (ok: bool, loc: nat)
    requires StoreOk(v, hash) && 0 < |data| <= 65536 && hash(data) < U64 && Find(v.chunks, hash(data)) == 0
    modifies v`disk, v`blocks, v`mem, v`tail, v`heapBrk, v`chunks
    ensures ok <==> old(AddPiece(v.Where(), hash, Heap(v.chunks, v.heapBrk), data)).Made?
    ensures ok ==>
      && StoreOk(v, hash) && |v.disk| == |old(v.disk)| && Frame(old(v.blocks), v.blocks, {v.esb})
      && old(AddPiece(v.Where(), hash, Heap(v.chunks, v.heapBrk), data)) ==
           Made(Heap(v.chunks, v.heapBrk), [Entry(loc, |data|)])
  {
    hide *;
    StoreParts(v, hash);
    ghost var a, t, st := v.Where(), v.tail, Heap(v.chunks, v.heapBrk);
    var h := hash(data);
    var b := BucketOf(v.Where(), h);
    ok, loc := ChunkAlloc(v, hash, |data|);
    PieceFits(a, hash, st, Chunk(loc, h, data, Head(a, st.cs, b)));
    if !ok {
      return;
    }
    AreaFacts(v);
    var next := LoadBucket(v, b, st.brk);
    var c := Chunk(loc, h, data, next);
    HeapGrown(a, hash, t, st, c);
    AreaFacts(v);
    LinkAndCopy(v, c, b);
    v.chunks := v.chunks + [c];
    AreaFacts(v);
    StaysAddressable(v);
    MakeStoreOk(v, hash);
  }

  lemma PieceFits(a: Area, hash: Hash, st: Heap, c: Chunk)
    requires a.bs > 0 && a.buckets > 0 && Find(st.cs, c.hash) == 0 && 0 < |c.data| <= 65536
    requires c == Chunk(Place(st.brk, a.bs), hash(c.data), c.data, Head(a, st.cs, BucketOf(a, c.hash))) && c.hash < U64
    ensures AddPiece(a, hash, st, c.data).Made? <==> c.loc + HEAD_SIZE + |c.data| < a.max
    ensures c.loc + HEAD_SIZE + |c.data| < a.max ==> NewChunk(a, hash, st, c)
  {}

  /** The stores of chunk_fill_hashtable and copy_chunk_into_storage: the bucket, the header and the
      data. */
  method LinkAndCopy(v: Volume, c: Chunk, b: nat)
    requires v.Valid() && Addressable(v) && v.bs > 0 && v.buckets > 0
      && b == BucketOf(Area(v.bs, v.hashtable, v.buckets, |v.disk|), c.hash)
    requires |v.disk| % v.bs == 0 && |v.disk| / v.bs < U32
    requires v.hashtable + 8 * v.buckets <= c.loc && c.loc + HEAD_SIZE + |c.data| < |v.disk|
      && |v.tail| == |v.disk| - v.hashtable
    modifies v`disk, v`tail
    ensures v.Valid() && |v.disk| == |old(v.disk)|
    ensures v.tail == Written(Area(v.bs, v.hashtable, v.buckets, |v.disk|), old(v.tail), c)
  {
    hide *;
    AreaFacts(v);
    WriteStorage(v, v.hashtable + BUCKET_SIZE * b, Enc(c.loc, 8));
    StaysAddressable(v);
    WriteStorage(v, c.loc, HeadBytes(c));
    StaysAddressable(v);
    WriteStorage(v, c.loc + HEAD_SIZE, c.data);
    WrittenIs(Area(v.bs, v.hashtable, v.buckets, |v.disk|), old(v.tail), c);
  }

  lemma WrittenIs(a: Area, t: seq<Byte>, c: Chunk)
    requires a.buckets > 0 && 8 * a.buckets <= |t| && a.table <= c.loc && c.loc + HEAD_SIZE + |c.data| - a.table <= |t|
    ensures BUCKET_SIZE * BucketOf(a, c.hash) + 8 <= |t| && BUCKET_SIZE * a.buckets <= |t| && End(c) - a.table <= |t|
    ensures var o := c.loc - a.table;
      Written(a, t, c) ==
        Put(Put(Put(t, BUCKET_SIZE * BucketOf(a, c.hash), Enc(c.loc, 8)), o, HeadBytes(c)), o + HEAD_SIZE, c.data)
  {}

  /** `c` is the chunk that the piece `c.data` becomes when it is stored in the heap `st`. */
  predicate NewChunk(a: Area, hash: Hash, st: Heap, c: Chunk) {
    && a.bs > 0 && a.buckets > 0 && Find(st.cs, c.hash) == 0
    && c.loc == Place(st.brk, a.bs) && c.hash == hash(c.data) < U64 && c.next == Head(a, st.cs, BucketOf(a, c.hash))
    && 0 < |c.data| <= 65536 && c.loc + HEAD_SIZE + |c.data| < a.max
  }

  /** The store with its new chunk. */
  lemma HeapGrown(a: Area, hash: Hash, t: seq<Byte>, st: Heap, c: Chunk)
    requires Store(a, t, st.cs, st.brk) && Sound(a, hash, st) && NewChunk(a, hash, st, c)
    ensures a.table + 8 * a.buckets <= c.loc && c.next < U64 && |t| == a.max - a.table && HEAD_SIZE == 24
    ensures Store(a, Written(a, t, c), st.cs + [c], c.loc + HEAD_SIZE + |c.data|)
    ensures Sound(a, hash, Heap(st.cs + [c], c.loc + HEAD_SIZE + |c.data|))
    ensures AddPiece(a, hash, st, c.data) ==
      Made(Heap(st.cs + [c], c.loc + HEAD_SIZE + |c.data|), [Entry(c.loc, |c.data|)])
  {
    hide *;
    NewChunkPlace(a, hash, t, st, c);
    NewChunkStored(a, hash, t, st, c);
    NewChunkMade(a, hash, st, c);
    AddPieceSound(a, hash, st, c.data);
  }

  lemma NewChunkMade(a: Area, hash: Hash, st: Heap, c: Chunk)
    requires NewChunk(a, hash, st, c)
    ensures a.bs > 0 && a.buckets > 0 && 0 < |c.data| <= 65536 && hash(c.data) < U64
    ensures AddPiece(a, hash, st, c.data) ==
      Made(Heap(st.cs + [c], c.loc + HEAD_SIZE + |c.data|), [Entry(c.loc, |c.data|)])
  {}

  lemma NewChunkPlace(a: Area, hash: Hash, t: seq<Byte>, st: Heap, c: Chunk)
    requires Store(a, t, st.cs, st.brk) && Sound(a, hash, st) && NewChunk(a, hash, st, c)
    ensures a.table + 8 * a.buckets <= c.loc && |t| == a.max - a.table && HEAD_SIZE == 24 && c.next < U64
  {
    hide Place, Head, Find, Stored, BucketStored, Chained;
    AllocLaid(a, st.cs, st.brk, c);
    HeadBound(a, st.cs, st.brk, BucketOf(a, c.hash));
  }

  lemma NewChunkStored(a: Area, hash: Hash, t: seq<Byte>, st: Heap, c: Chunk)
    requires Store(a, t, st.cs, st.brk) && Sound(a, hash, st) && NewChunk(a, hash, st, c)
    ensures a.buckets > 0 && BUCKET_SIZE * a.buckets <= |t| && a.table <= c.loc && End(c) - a.table <= |t|
    ensures End(c) == c.loc + HEAD_SIZE + |c.data| && Store(a, Written(a, t, c), st.cs + [c], End(c))
  {
    hide Place, Head, Find, Stored, BucketStored, Chained, Laid, Store, AreaOk, Written;
    NewChunkPlace(a, hash, t, st, c);
    StoreBounds(a, t, st.cs, st.brk);
    SoundBounds(a, hash, st);
    StoreAdd(a, t, st.cs, st.brk, c);
  }

  lemma StoreBounds(a: Area, t: seq<Byte>, cs: seq<Chunk>, brk: nat)
    requires Store(a, t, cs, brk)
    ensures a.buckets > 0 && BUCKET_SIZE * a.buckets <= |t| == a.max - a.table
  {}

  lemma SoundBounds(a: Area, hash: Hash, st: Heap)
    requires Sound(a, hash, st)
    ensures a.max < U32
  {}

  lemma MakeStoreOk(v: Volume, hash: Hash)
    requires v.Valid() && Addressable(v) && |v.disk| < U32 && v.esb in v.bitmap.used && v.esb < v.bitmap.nzones
      && EsbStored(v.blocks, v.esb, v.hashtable, v.buckets, v.heapBrk)
    requires Store(v.Where(), v.tail, v.chunks, v.heapBrk) && Sound(v.Where(), hash, Heap(v.chunks, v.heapBrk))
    ensures StoreOk(v, hash)
  {}

  /** chunk_reset_hashtable: an empty table, and the break right after it. */
  method ResetHashtable(v: Volume)
    requires v.Valid() && Addressable(v) && AreaOk(v.Where()) && |v.disk| < U32
    modifies v`disk, v`tail, v`heapBrk, v`chunks
    ensures v.Valid() && Addressable(v) && |v.disk| == |old(v.disk)|
    ensures v.chunks == [] && v.heapBrk == v.hashtable + BUCKET_SIZE * v.buckets
      && Store(v.Where(), v.tail, [], v.heapBrk)
  {
    hide InSync, WordsOf;
    v.heapBrk := v.hashtable + BUCKET_SIZE * v.buckets;
    v.chunks := [];
    TailBytes(v, v.hashtable, 0);
    StoreReset(v.Where(), v.tail);
    WriteStorage(v, v.hashtable, Zeros(BUCKET_SIZE * v.buckets));
  }

  /** chunk_copy_into_buffer: the bytes of a chunk from `pos` on, as many as asked for and there are. */
  method CopyIntoBuffer(v: Volume, e: Entry, count: nat, pos: nat) returns (buf: seq<Byte>)
    requires Addressable(v) && e.loc + HEAD_SIZE + e.size <= |v.disk|
    ensures buf == if pos < e.size then Sub(v.disk, e.loc + HEAD_SIZE + pos, Min(count, e.size - pos)) else []
  {
    if pos >= e.size || count == 0 {
      return [];
    }
    buf := ReadStorage(v, e.loc + HEAD_SIZE + pos, Min(count, e.size - pos));
  }
}
