/** A mounted volume: the device, the zone bitmap, and the inodes in memory. */
module Volumes {
  import opened Arith
  import opened Geometry
  import opened Bytes
  import opened ZoneMap
  import opened BlockPath
  import opened ChunkHeap

  type Blocks = map<nat, seq<Byte>>

  /** Only the blocks `zs` have changed. */
  predicate Frame(b: Blocks, b': Blocks, zs: set<nat>) {
    b'.Keys == b.Keys && forall z :: z in b && z !in zs ==> b'[z] == b[z]
  }

  lemma FrameTrans(b: Blocks, c: Blocks, d: Blocks, s: set<nat>, t: set<nat>)
    requires Frame(b, c, s) && Frame(c, d, t)
    ensures Frame(b, d, s + t)
  {}

  /** A write to a block that was already counted as changed. */
  lemma FrameInside(b: Blocks, c: Blocks, d: Blocks, s: set<nat>, z: nat, t: set<nat>)
    requires Frame(b, c, s) && Frame(c, d, {z}) && z in s && s <= t
    ensures Frame(b, d, t)
  {}

  /** `blocks` are the zones of the device and `tail` is what comes after them. */
  ghost predicate InSync(d: seq<Byte>, bs: nat, nzones: nat, hashtable: nat, blocks: Blocks, tail: seq<Byte>) {
    && bs > 0 && hashtable <= |d| && nzones <= |d| / bs && tail == d[hashtable..]
    && forall z {:trigger Block(d, bs, z)} :: 0 <= z < nzones ==> z in blocks && blocks[z] == Block(d, bs, z)
  }

  lemma ZoneEnd(z: nat, bs: nat, nzones: nat, hashtable: nat)
    requires bs > 0 && nzones == hashtable / bs && z < nzones
    ensures Start(z, bs) + bs <= hashtable
  {
    DivMod(hashtable, bs, 0);
    MulMono(z + 1, nzones, bs, bs);
  }

  /** A write inside one zone. */
  lemma PutZone(d: seq<Byte>, bs: nat, nzones: nat, hashtable: nat, blocks: Blocks, tail: seq<Byte>,
                z: nat, i: nat, s: seq<Byte>)
    requires InSync(d, bs, nzones, hashtable, blocks, tail) && nzones == hashtable / bs
    requires z < nzones && i + |s| <= bs && z in blocks && |blocks[z]| == bs
    ensures Start(z, bs) + i + |s| <= |d|
    ensures InSync(Put(d, Start(z, bs) + i, s), bs, nzones, hashtable, blocks[z := Put(blocks[z], i, s)], tail)
  {
    BlockPut(d, bs, z, i, s);
    ZoneEnd(z, bs, nzones, hashtable);
    assert blocks[z] == Block(d, bs, z);
    var d' := Put(d, Start(z, bs) + i, s);
    assert d'[hashtable..] == d[hashtable..];
    forall y | 0 <= y < nzones && y != z
      ensures y in blocks && blocks[y] == Block(d', bs, y)
    {
      assert Block(d', bs, y) == Block(d, bs, y);
    }
  }

  /** The word view of a block does not depend on any other block. */
  ghost predicate WordsOf(blocks: Blocks, mem: map<nat, seq<nat>>) {
    forall z {:trigger Words(blocks[z])} :: z in blocks ==> z in mem && mem[z] == Words(blocks[z])
  }

  class Inode {
    const ino: nat
    var size: nat
    var zones: seq<nat>  // i_data

    /** cominix_new_inode: no bytes and no zones. */
    constructor (ino: nat)
      ensures this.ino == ino && size == 0 && zones == ZeroWords(INODE_SLOTS)
    {
      this.ino := ino;
      size, zones := 0, ZeroWords(INODE_SLOTS);
    }
  }

  class Volume {
    const bs: nat
    const maxBytes: nat
    const bitmap: ZoneBitmap
    const hashtable: nat  // where the zone area ends and the chunk area begins
    const buckets: nat    // of the hashtable
    const esb: nat        // zone of the extra superblock
    var disk: seq<Byte>
    var heapBrk: nat
    ghost var blocks: Blocks            // the zones of the device
    ghost var mem: map<nat, seq<nat>>   // the same as 32-bit words
    ghost var tail: seq<Byte>           // the device from the hashtable on
    ghost var chunks: seq<Chunk>        // the chunks stored there, in order

    ghost predicate GeometryOk() {
      && BlockSizeOk(bs) && maxBytes < 0x1_0000_0000
      && bitmap.nzones < 0x1_0000_0000 && bitmap.nzones == hashtable / bs
    }

    ghost predicate Valid()
      reads this`disk, this`blocks, this`mem, this`tail, bitmap, bitmap.bits
    {
      && GeometryOk() && bitmap.Valid()
      && (forall z :: 0 <= z < bitmap.nzones ==> z in blocks && |blocks[z]| == bs)
      && (forall z :: 0 <= z < bitmap.nzones ==> z in mem && |mem[z]| == bs / 4)
      && WordsOf(blocks, mem)
      && InSync(disk, bs, bitmap.nzones, hashtable, blocks, tail)
    }

    constructor (disk: seq<Byte>, bs: nat, maxBytes: nat, bitmap: ZoneBitmap, hashtable: nat, buckets: nat, esb: nat,
                 brk: nat)
      requires bs > 0 && hashtable <= |disk| && hashtable / bs <= |disk| / bs
      ensures this.disk == disk && this.bs == bs && this.maxBytes == maxBytes && this.bitmap == bitmap
      ensures this.hashtable == hashtable && this.buckets == buckets && this.esb == esb && heapBrk == brk
      ensures chunks == [] && tail == disk[hashtable..]
      ensures GeometryOk() && bitmap.Valid() ==> Valid()
    {
      this.disk, this.bs, this.maxBytes, this.bitmap := disk, bs, maxBytes, bitmap;
      this.hashtable, this.buckets, this.esb, heapBrk := hashtable, buckets, esb, brk;
      ghost var nz: nat := hashtable / bs;
      blocks := map z | 0 <= z < nz :: Block(disk, bs, z);
      mem := map z | 0 <= z < nz :: Words(Block(disk, bs, z));
      tail := disk[hashtable..];
      chunks := [];
    }

    /** The chunk area of the volume. */
    function Where(): Area
      reads this`disk
    {
      Area(bs, hashtable, buckets, |disk|)
    }

    /** Read bytes inside one zone. */
    method GetBytes(z: nat, i: nat, n: nat) returns (s: seq<Byte>)
      requires Valid() && z < bitmap.nzones && i + n <= bs
      ensures s == Sub(blocks[z], i, n)
    {
      BlockFits(z, bs, |disk|);
      s := Sub(disk, Start(z, bs) + i, n);
      SubSub(disk, Start(z, bs), bs, i, n);
      assert blocks[z] == Block(disk, bs, z);
    }

    /** Read slot `i` of an indirect block. */
    method GetWord(z: nat, i: nat) returns (v: nat)
      requires Valid() && z < bitmap.nzones && i < bs / 4
      ensures v == mem[z][i]
    {
      var s := GetBytes(z, 4 * i, 4);
      v := Dec(s);
      assert Words(blocks[z])[i] == Dec(blocks[z][4 * i..4 * i + 4]);
    }

    /** Write bytes inside one zone. */
    method PutBytes(z: nat, i: nat, s: seq<Byte>)
      requires Valid() && z < bitmap.nzones && i + |s| <= bs
      modifies this`disk, this`blocks, this`mem
      ensures Valid() && |disk| == |old(disk)| && blocks == old(blocks)[z := Put(old(blocks)[z], i, s)]
      ensures mem == old(mem)[z := Words(blocks[z])]
    {
      PutZone(disk, bs, bitmap.nzones, hashtable, blocks, tail, z, i, s);
      disk := Put(disk, Start(z, bs) + i, s);
      blocks := blocks[z := Put(blocks[z], i, s)];
      mem := mem[z := Words(blocks[z])];
      assert forall y :: y in blocks && y != z ==> Words(blocks[y]) == Words(old(blocks)[y]);
    }

    /** Write slot `i` of an indirect block. */
    method SetWord(z: nat, i: nat, v: nat)
      requires Valid() && z < bitmap.nzones && i < bs / 4 && v < 0x1_0000_0000
      modifies this`disk, this`blocks, this`mem
      ensures Valid() && Frame(old(blocks), blocks, {z})
      ensures mem == old(mem)[z := mem[z]] && mem[z] == old(mem)[z][i := v]
    {
      WordsPut(blocks[z], i, v);
      assert mem[z] == Words(blocks[z]);
      PutBytes(z, 4 * i, Enc(v, 4));
    }

    /** memset of a whole block. */
    method ClearBlock(z: nat)
      requires Valid() && z < bitmap.nzones
      modifies this`disk, this`blocks, this`mem
      ensures Valid() && blocks == old(blocks)[z := Zeros(bs)]
      ensures mem == old(mem)[z := ZeroWords(bs / 4)]
    {
      assert Put(blocks[z], 0, Zeros(bs)) == Zeros(bs);
      WordsZeros(bs);
      PutBytes(z, 0, Zeros(bs));
    }
  }
}
