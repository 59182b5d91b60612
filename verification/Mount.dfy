/** Mounting (inode.c): the split between zones and chunk area, and the extra superblock. */
module Mount {
  import opened Arith
  import opened Bytes
  import opened ZoneMap
  import opened BlockPath
  import opened Volumes
  import opened ChunkHeap
  import opened Dedup
  import opened ChunkStore
  import opened ChunkFile

  /** Where the table goes on a device that has none yet, and its size in bytes. */
  const TABLE: nat := 0x280_0000
  const TABLE_SIZE: nat := 0x8000

  predicate BlockSize(bs: nat) {
    bs == 1024 || bs == 2048 || bs == 4096
  }

  /** cominix_blocks_needed */
  function BlocksNeeded(bits: nat, bs: nat): nat
    requires bs > 0
  {
    Quot(bits + bs * 8 - 1, bs * 8)
  }

  lemma EnoughBlocks(bits: nat, bs: nat, blocks: nat)
    requires bs > 0
    ensures BlocksNeeded(bits, bs) <= blocks <==> bits <= blocks * (bs * 8)
  {
    var w := bs * 8;
    var c := BlocksNeeded(bits, bs);
    DivMod(bits + w - 1, w, blocks + 1);
    assert (blocks + 1) * w == blocks * w + w;
    if c <= blocks {
      MulMono(c, blocks, w, w);
      assert bits + w - 1 < c * w + w;
    }
  }

  /** s_pad0 and s_pad1 hold the location of the extra superblock. */
  function Pads(loc: nat): (nat, nat) {
    (Rem(loc, 0x1_0000), Quot(loc, 0x1_0000))
  }

  function EsbLocation(pad0: nat, pad1: nat): nat {
    (pad1 * 0x1_0000 + pad0) % U32
  }

  lemma PadsRoundTrip(loc: nat)
    requires loc < U32
    ensures Pads(loc).0 < 0x1_0000 && Pads(loc).1 < 0x1_0000 && EsbLocation(Pads(loc).0, Pads(loc).1) == loc
    ensures loc == Pads(loc).1 * 0x1_0000 + Pads(loc).0 && (loc < 0x1_0000 ==> Pads(loc) == (loc, 0))
  {}

  /** The zones of a device whose table lies at TABLE. */
  function ZonesBelow(bs: nat): nat
    requires BlockSize(bs)
  {
    TABLE / bs
  }

  /** The bitmap blocks of a device, and a first data zone before the table. */
  predicate Bitmap(rows: Bits, bs: nat, first: nat)
    requires BlockSize(bs)
  {
    rows != [] && (forall i :: 0 <= i < |rows| ==> |rows[i]| == bs * 8) && 1 < first <= ZonesBelow(bs)
  }

  /** The zones that the bitmap on the device says are in use, once bit 0 is set. */
  ghost function InUse(rows: Bits, bs: nat, first: nat): set<nat>
    requires BlockSize(bs) && Bitmap(rows, bs, first)
    requires BlocksNeeded(ZonesBelow(bs) - first + 1, bs) <= |rows|
  {
    EnoughBlocks(ZonesBelow(bs) - first + 1, bs, |rows|);
    Used(rows[0 := rows[0][0 := true]], bs * 8, first, ZonesBelow(bs))
  }

  predicate AllTaken(used: set<nat>, first: nat, nzones: nat) {
    forall z :: first <= z < nzones ==> z in used
  }

  /** How mounting ends; a mounted volume has an extra superblock unless both fields are 0. */
  datatype MountResult = Crash | Refused | Mounted(pad0: nat, pad1: nat)

  /** The bitmap that mounting sets up, unless there are too few blocks of it. */
  method MountBitmap(rows: Bits, bs: nat, first: nat) returns (bitmap: ZoneBitmap?)
    requires BlockSize(bs) && Bitmap(rows, bs, first)
    ensures bitmap == null <==> |rows| < BlocksNeeded(ZonesBelow(bs) - first + 1, bs)
    ensures bitmap != null ==>
      && fresh(bitmap) && fresh(bitmap.bits) && bitmap.Valid() && bitmap.first == first
         && bitmap.nzones == ZonesBelow(bs)
      && bitmap.used == InUse(rows, bs, first) && bitmap.Rows() == rows[0 := rows[0][0 := true]]
  {
    Widths(bs);
    EnoughBlocks(ZonesBelow(bs) - first + 1, bs, |rows|);
    if |rows| < BlocksNeeded(ZonesBelow(bs) - first + 1, bs) {
      return null;
    }
    bitmap := new ZoneBitmap(rows, bs * 8, first, ZonesBelow(bs));
    InUseIs(rows, bs, first);
  }

  lemma InUseIs(rows: Bits, bs: nat, first: nat)
    requires BlockSize(bs) && Bitmap(rows, bs, first)
    requires BlocksNeeded(ZonesBelow(bs) - first + 1, bs) <= |rows| && ZonesBelow(bs) - first + 1 <= |rows| * (bs * 8)
    ensures InUse(rows, bs, first) == Used(rows[0 := rows[0][0 := true]], bs * 8, first, ZonesBelow(bs))
  {
    hide Used, BlocksNeeded, ZonesBelow;
  }

  lemma Widths(bs: nat)
    requires BlockSize(bs)
    ensures bs > 0 && bs >= 1024 && bs * 8 > 0 && (bs * 8) % 16 == 0 && BlockSizeOk(bs) && U32 % bs == 0
    ensures TABLE % bs == 0 && TABLE / bs == ZonesBelow(bs) < U32 && ZonesBelow(bs) > 0
    ensures TABLE == 40 * 1024 * 1024 && TABLE_SIZE == 32 * 1024
  {
    SizesOk();
  }

  /** Too few bitmap blocks for the zones. */
  predicate TooFew(rows: Bits, bs: nat, first: nat)
    requires BlockSize(bs) && first <= ZonesBelow(bs)
  {
    |rows| < BlocksNeeded(ZonesBelow(bs) - first + 1, bs)
  }

  /** A free zone for the extra superblock. */
  ghost predicate HasFree(rows: Bits, bs: nat, first: nat)
    requires BlockSize(bs) && Bitmap(rows, bs, first)
  {
    !TooFew(rows, bs, first) && !AllTaken(InUse(rows, bs, first), first, ZonesBelow(bs))
  }

  /** cominix_fill_super on a device without an extra superblock: split the device, take a zone for
      the extra superblock, and clear the table; without a free zone it is mounted all the same. */
  method MountNew(disk: seq<Byte>, bs: nat, total: nat, maxBytes: nat, first: nat, rows: Bits, ghost hash: Hash)
    returns (r: MountResult, v: Volume?)
    requires BlockSize(bs) && |disk| == Times(total, bs) < U32 && maxBytes < U32 && Bitmap(rows, bs, first)
    ensures r == Crash <==>
      ZonesBelow(bs) > total || (HasFree(rows, bs, first) && |disk| < TABLE + TABLE_SIZE)
    ensures r == Refused <==> ZonesBelow(bs) <= total && TooFew(rows, bs, first)
    ensures r.Mounted? ==> v != null && fresh(v) && fresh(v.bitmap) && fresh(v.bitmap.bits)
    ensures r.Mounted? ==>
      && v.Valid() && v.bs == bs && v.maxBytes == maxBytes && v.hashtable == TABLE
         && BUCKET_SIZE * v.buckets == TABLE_SIZE
      && v.bitmap.nzones == ZonesBelow(bs) && v.chunks == [] && v.heapBrk == TABLE + TABLE_SIZE
      && v.esb == EsbLocation(r.pad0, r.pad1) && (v.esb != 0 <==> HasFree(rows, bs, first))
    // the first clear bit of the bitmap is set in any case, also when it is padding
    ensures r.Mounted? ==> v.bitmap.Rows() == SetFirst(rows[0 := rows[0][0 := true]])
    ensures r.Mounted? && v.esb == 0 ==> v.disk == disk && v.bitmap.used == InUse(rows, bs, first)
    ensures r.Mounted? && v.esb != 0 ==>
      StoreOk(v, hash) && v.esb !in InUse(rows, bs, first) && v.bitmap.used == InUse(rows, bs, first) + {v.esb}
  {
    hide *;
    Widths(bs);
    HasFreeIs(rows, bs, first);
    v := null;
    if ZonesBelow(bs) > total {
      return Crash, null;
    }
    var bitmap := MountBitmap(rows, bs, first);
    if bitmap == null {
      return Refused, null;
    }
    TakenIs(bitmap);
    var esb := bitmap.NewBlock();
    PadsRoundTrip(esb);
    if esb != 0 && |disk| < TABLE + TABLE_SIZE {
      return Crash, null;
    }
    v := NewVolume(disk, bs, total, maxBytes, bitmap, esb);
    if esb != 0 {
      MakeFits(v);
      NewStore(v, hash);
    }
    r := Mounted(Pads(esb).0, Pads(esb).1);
  }

  lemma HasFreeIs(rows: Bits, bs: nat, first: nat)
    requires BlockSize(bs) && Bitmap(rows, bs, first)
    ensures 1 < first <= ZonesBelow(bs)
    ensures TooFew(rows, bs, first) <==> |rows| < BlocksNeeded(ZonesBelow(bs) - first + 1, bs)
    ensures HasFree(rows, bs, first) <==>
      !TooFew(rows, bs, first) && !AllTaken(InUse(rows, bs, first), first, ZonesBelow(bs))
  {}

  lemma TakenIs(bitmap: ZoneBitmap)
    ensures bitmap.Exhausted() <==> AllTaken(bitmap.used, bitmap.first, bitmap.nzones)
    ensures forall z :: z in bitmap.used && bitmap.Valid() ==> z < bitmap.nzones
  {}

  /** The superblock in memory, with the chunk area split off. */
  method NewVolume(disk: seq<Byte>, bs: nat, total: nat, maxBytes: nat, bitmap: ZoneBitmap, esb: nat)
    returns (v: Volume)
    requires BlockSize(bs) && |disk| == Times(total, bs) && ZonesBelow(bs) <= total && maxBytes < U32
    requires bitmap.Valid() && bitmap.nzones == ZonesBelow(bs)
    ensures fresh(v) && v.Valid() && v.bs == bs && v.maxBytes == maxBytes && v.hashtable == TABLE && v.disk == disk
    ensures BUCKET_SIZE * v.buckets == TABLE_SIZE && v.esb == esb && v.bitmap == bitmap && v.chunks == []
    ensures v.heapBrk == TABLE + TABLE_SIZE && |v.disk| % bs == 0 && |v.disk| / bs == total
  {
    hide *;
    WholeBlocks(disk, bs, total);
    v := new Volume(disk, bs, maxBytes, bitmap, TABLE, TABLE_SIZE / BUCKET_SIZE, esb, TABLE + TABLE_SIZE);
    Ready(v);
  }

  lemma WholeBlocks(disk: seq<Byte>, bs: nat, total: nat)
    requires BlockSize(bs) && |disk| == Times(total, bs) && ZonesBelow(bs) <= total
    ensures bs > 0 && TABLE <= |disk| && TABLE / bs <= |disk| / bs == total && |disk| % bs == 0
    ensures BUCKET_SIZE == 8 && BUCKET_SIZE * (TABLE_SIZE / BUCKET_SIZE) == TABLE_SIZE
  {
    DivUnique(total, 0, bs);
    MulMono(ZonesBelow(bs), total, bs, bs);
  }

  lemma Ready(v: Volume)
    requires BlockSize(v.bs) && v.bitmap.Valid() && v.bitmap.nzones == ZonesBelow(v.bs) && v.hashtable == TABLE
    requires v.maxBytes < U32 && (v.GeometryOk() && v.bitmap.Valid() ==> v.Valid())
    ensures v.Valid()
  {
    Widths(v.bs);
  }

  /** cminix_alloc_extra_super: write the fields of the extra superblock and clear the table. */
  method NewStore(v: Volume, ghost hash: Hash)
    requires v.Valid() && v.esb in v.bitmap.used && v.heapBrk == TABLE + TABLE_SIZE && v.chunks == []
    requires Fits(v.bs, v.hashtable, v.buckets, |v.disk|)
    modifies v`disk, v`blocks, v`mem, v`tail, v`heapBrk, v`chunks
    ensures StoreOk(v, hash) && v.Valid() && v.chunks == [] && v.heapBrk == TABLE + TABLE_SIZE
  {
    WriteEsb(v);
    Areas(v);
    ResetHashtable(v);
    NothingStored(v, hash);
  }

  lemma MakeFits(v: Volume)
    requires BlockSize(v.bs) && v.hashtable == TABLE && BUCKET_SIZE * v.buckets == TABLE_SIZE
    requires TABLE + TABLE_SIZE <= |v.disk| < U32 && |v.disk| % v.bs == 0
    ensures Fits(v.bs, v.hashtable, v.buckets, |v.disk|)
  {}

  /** A device with room for the table, all of it in whole blocks. */
  predicate Fits(bs: nat, table: nat, buckets: nat, len: nat) {
    BlockSize(bs) && table == TABLE && BUCKET_SIZE * buckets == TABLE_SIZE && TABLE + TABLE_SIZE <= len < U32
      && len % bs == 0 && len / bs < U32
  }

  method WriteEsb(v: Volume)
    requires v.Valid() && v.esb < v.bitmap.nzones && v.bs >= 1024
    modifies v`disk, v`blocks, v`mem
    ensures v.Valid() && EsbStored(v.blocks, v.esb, v.hashtable, v.buckets, v.heapBrk)
  {
    hide InSync, WordsOf, Enc, Put;
    v.ClearBlock(v.esb);
    ghost var b := v.blocks[v.esb];
    v.PutBytes(v.esb, 0, Enc(v.hashtable, 8));
    v.PutBytes(v.esb, 8, Enc(BUCKET_SIZE * v.buckets, 4));
    v.PutBytes(v.esb, 16, Enc(v.heapBrk, 8));
    ThreeFields(b, Enc(v.hashtable, 8), Enc(BUCKET_SIZE * v.buckets, 4), Enc(v.heapBrk, 8));
  }

  lemma ThreeFields(b: seq<Byte>, x: seq<Byte>, y: seq<Byte>, z: seq<Byte>)
    requires |b| >= 24 && |x| == 8 && |y| == 4 && |z| == 8
    ensures var r := Put(Put(Put(b, 0, x), 8, y), 16, z); Sub(r, 0, 8) == x && Sub(r, 8, 4) == y && Sub(r, 16, 8) == z
  {
    hide *;
    var p := Put(b, 0, x);
    var q := Put(p, 8, y);
    SubWhole(b, 0, x);
    SubPut(p, 8, y, 0, 8);
    SubWhole(p, 8, y);
    SubPut(q, 16, z, 0, 8);
    SubPut(q, 16, z, 8, 4);
    SubWhole(q, 16, z);
  }

  lemma SubWhole(b: seq<Byte>, at: nat, s: seq<Byte>)
    requires at + |s| <= |b|
    ensures Sub(Put(b, at, s), at, |s|) == s
  {
    hide *;
    SubPut(b, at, s, at, |s|);
    assert s[0..|s|] == s;
  }

  lemma Areas(v: Volume)
    requires Fits(v.bs, v.hashtable, v.buckets, |v.disk|)
    ensures AreaOk(v.Where()) && Addressable(v) && |v.disk| < U32
  {
    Widths(v.bs);
  }

  lemma NothingStored(v: Volume, hash: Hash)
    requires v.Valid() && Addressable(v) && v.chunks == [] && v.heapBrk == v.hashtable + BUCKET_SIZE * v.buckets
    requires Store(v.Where(), v.tail, [], v.heapBrk) && Fits(v.bs, v.hashtable, v.buckets, |v.disk|)
      && v.esb in v.bitmap.used
    requires EsbStored(v.blocks, v.esb, v.hashtable, v.buckets, v.heapBrk)
    ensures StoreOk(v, hash)
  {
    hide InSync, WordsOf;
  }

  /** cminix_fill_extra_super: what an extra superblock says. */
  lemma EsbFields(blocks: Blocks, esb: nat, table: nat, buckets: nat, brk: nat)
    requires EsbStored(blocks, esb, table, buckets, brk) && table < U64 && brk < U64 && BUCKET_SIZE * buckets < U32
    ensures var b := blocks[esb];
      Dec(Sub(b, 0, 8)) == table && Dec(Sub(b, 8, 4)) == BUCKET_SIZE * buckets && Dec(Sub(b, 16, 8)) == brk
  {
    Pow256Is();
    assert Pow256(4) == U32;
    DecEnc(table, 8);
    DecEnc(BUCKET_SIZE * buckets, 4);
    DecEnc(brk, 8);
  }

  /** Mounting again what a mounted volume has left on the device gives the same zones and the same
      store: the table, the break and every chunk. */
  method MountAgain(u: Volume, pad0: nat, pad1: nat, ghost hash: Hash) returns (v: Volume)
    requires StoreOk(u, hash) && EsbLocation(pad0, pad1) == u.esb && u.bs > 0 && u.hashtable < |u.disk|
    ensures fresh(v) && fresh(v.bitmap) && fresh(v.bitmap.bits) && v.disk == u.disk && v.bs == u.bs && v.esb == u.esb
    ensures v.bitmap.Rows() == u.bitmap.Rows() && v.bitmap.used == u.bitmap.used
    ensures v.hashtable == u.hashtable && v.buckets == u.buckets && v.heapBrk == u.heapBrk && v.chunks == u.chunks
    ensures StoreOk(v, hash)
  {
    hide *;
    StoreParts(u, hash);
    SmallArea(u, hash);
    EsbFields(u.blocks, u.esb, u.hashtable, u.buckets, u.heapBrk);
    var bitmap := BitmapAgain(u.bitmap);
    var esb := EsbLocation(pad0, pad1);
    var f0 := u.GetBytes(esb, 0, 8);
    var f1 := u.GetBytes(esb, 8, 4);
    var f2 := u.GetBytes(esb, 16, 8);
    v := new Volume(u.disk, u.bs, u.maxBytes, bitmap, Dec(f0), Dec(f1) / BUCKET_SIZE, esb, Dec(f2));
    v.chunks := u.chunks;
    SameVolume(u, v);
    StaysAddressable(v);
    AreaFacts(v);
    MakeStoreOk(v, hash);
  }

  /** The bitmap read again from its buffers. */
  method BitmapAgain(b: ZoneBitmap) returns (bitmap: ZoneBitmap)
    requires b.Valid()
    ensures fresh(bitmap) && fresh(bitmap.bits) && bitmap.Valid() && bitmap.first == b.first
      && bitmap.nzones == b.nzones
    ensures bitmap.Rows() == b.Rows() && bitmap.used == b.used
  {
    hide Busy, FreeBits, CountedRows, Used;
    var rows := b.Rows();
    b.UsedIs();
    bitmap := new ZoneBitmap(rows, b.bits.Length1, b.first, b.nzones);
    assert rows[0][0];
    assert rows[0][0 := true] == rows[0];
  }

  lemma SmallArea(u: Volume, hash: Hash)
    requires StoreOk(u, hash)
    ensures u.hashtable < U64 && u.heapBrk < U64 && BUCKET_SIZE * u.buckets < U32
      && u.hashtable / u.bs <= |u.disk| / u.bs && u.GeometryOk() && u.bitmap.Valid()
    ensures (BUCKET_SIZE * u.buckets) / BUCKET_SIZE == u.buckets && BUCKET_SIZE > 0
      && u.bitmap.nzones == u.hashtable / u.bs
  {
    hide Store, WordsOf;
  }

  lemma SameVolume(u: Volume, v: Volume)
    requires u.Valid() && v.bs == u.bs && v.maxBytes == u.maxBytes && v.disk == u.disk && v.hashtable == u.hashtable
    requires v.bitmap.Valid() && v.bitmap.nzones == u.bitmap.nzones
    requires v.GeometryOk() && v.bitmap.Valid() ==> v.Valid()
    requires v.tail == v.disk[v.hashtable..] && v.hashtable <= |v.disk|
    requires u.esb < u.bitmap.nzones
    ensures v.Valid() && v.tail == u.tail && v.blocks[u.esb] == u.blocks[u.esb] && u.esb in v.blocks
  {
    assert v.GeometryOk();
    assert u.blocks[u.esb] == Block(u.disk, u.bs, u.esb) == v.blocks[u.esb];
  }
}
