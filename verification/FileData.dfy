/** The bytes of a file whose blocks are mapped by a tree. */
module FileData {
  import opened Arith
  import opened Geometry
  import opened Bytes
  import opened BlockPath
  import opened Trees
  import opened Volumes
  import opened Itree

  /** Byte `i` of a file; holes read as zeros. */
  ghost function ByteAt(bl: Blocks, ts: seq<Tree>, bs: nat, i: nat): Byte
    requires bs >= 4
  {
    var z := Mapped(ts, bs / 4, Quot(i, bs));
    if z == 0 || z !in bl || |bl[z]| != bs then 0 else bl[z][Rem(i, bs)]
  }

  ghost function Content(bl: Blocks, ts: seq<Tree>, bs: nat, size: nat): (s: seq<Byte>)
    requires bs >= 4
    ensures |s| == size && forall i :: 0 <= i < size ==> s[i] == ByteAt(bl, ts, bs, i)
  {
    seq(size, i requires 0 <= i < size => ByteAt(bl, ts, bs, i))
  }

  /** A byte of a file is the one at its place in the block that its block is mapped to, and 0 in a hole. */
  lemma ContentAt(bl: Blocks, ts: seq<Tree>, bs: nat, size: nat, i: nat)
    requires bs >= 4 && i < size
    ensures var z := Mapped(ts, bs / 4, i / bs);
      && (z == 0 ==> Content(bl, ts, bs, size)[i] == 0)
      && (z != 0 && z in bl && |bl[z]| == bs ==> i % bs < bs && Content(bl, ts, bs, size)[i] == bl[z][i % bs])
  {
    hide Mapped;
    DivMod(i, bs, 0);
  }

  /** The content depends on no block but those of the tree. */
  lemma {:induction false} ContentFrame(bl: Blocks, bl': Blocks, ts: seq<Tree>, bs: nat, size: nat)
    requires bs >= 4 && forall z :: z in ZonesAll(ts) && z in bl ==> z in bl' && bl'[z] == bl[z]
    requires forall z :: z in ZonesAll(ts) ==> z in bl
    ensures Content(bl', ts, bs, size) == Content(bl, ts, bs, size)
  {
    forall i | 0 <= i < size
      ensures ByteAt(bl', ts, bs, i) == ByteAt(bl, ts, bs, i)
    {
      if Mapped(ts, bs / 4, Quot(i, bs)) != 0 {
        MappedOwned(ts, bs / 4, Quot(i, bs));
      }
    }
  }

  lemma {:induction false} MappedOwned(ts: seq<Tree>, n: nat, b: nat)
    requires n > 0 && Mapped(ts, n, b) != 0
    ensures Mapped(ts, n, b) in ZonesAll(ts)
  {
    hide PathOf;
    AtIn(ts, PathOf(b, n));
    InAll(ts, PathOf(b, n)[0]);
  }

  lemma SameBlock(cur: nat, bs: nat, k: nat)
    requires bs > 0 && Rem(cur, bs) + k < bs
    ensures Quot(cur + k, bs) == Quot(cur, bs) && Rem(cur + k, bs) == Rem(cur, bs) + k
  {
    DivMod(cur, bs, 0);
    DivUnique(Quot(cur, bs), Rem(cur, bs) + k, bs);
  }

  /** One stretch of a file inside one block. */
  ghost predicate Stretch(bl: Blocks, ts: seq<Tree>, bs: nat, cur: nat, s: seq<Byte>)
    requires bs >= 4
  {
    forall k :: 0 <= k < |s| ==> s[k] == ByteAt(bl, ts, bs, cur + k)
  }

  lemma StretchOfBlock(bl: Blocks, ts: seq<Tree>, bs: nat, cur: nat, z: nat, s: seq<Byte>)
    requires bs >= 4 && z == Mapped(ts, bs / 4, Quot(cur, bs)) && Rem(cur, bs) + |s| <= bs
    requires z == 0 ==> s == Zeros(|s|)
    requires z != 0 ==> z in bl && |bl[z]| == bs && s == Sub(bl[z], Rem(cur, bs), |s|)
    ensures Stretch(bl, ts, bs, cur, s)
  {
    forall k | 0 <= k < |s|
      ensures s[k] == ByteAt(bl, ts, bs, cur + k)
    {
      SameBlock(cur, bs, k);
    }
  }

  lemma StretchMore(bl: Blocks, ts: seq<Tree>, bs: nat, pos: nat, s: seq<Byte>, t: seq<Byte>)
    requires bs >= 4 && Stretch(bl, ts, bs, pos, s) && Stretch(bl, ts, bs, pos + |s|, t)
    ensures Stretch(bl, ts, bs, pos, s + t)
  {
    forall k | 0 <= k < |s + t|
      ensures (s + t)[k] == ByteAt(bl, ts, bs, pos + k)
    {
      if k >= |s| {
        assert t[k - |s|] == ByteAt(bl, ts, bs, pos + |s| + (k - |s|));
      }
    }
  }

  /** The zone that byte `cur` of a file is in, through block_to_path and get_branch. */
  method ZoneAt(v: Volume, inode: Inode, cur: nat) returns (z: nat)
    requires TreeOk(v, inode) && v.bs >= 4 && cur < v.maxBytes
    ensures z == Mapped(Forest(v, inode), v.bs / 4, Quot(cur, v.bs))
    ensures z != 0 ==> z < v.bitmap.nzones && z in v.blocks && |v.blocks[z]| == v.bs
  {
    hide WellFormedAll, SepAll, FullAll, InSync, WordsOf, Linked, PathOk, LoadAll, At, PathOf, Target, Stray;
    var b := Quot(cur, v.bs);
    DivMod(cur, v.bs, 0);
    AcceptedExactly(b, v.bs, v.maxBytes);
    TargetSame(b, v.bs);
    var offsets := BlockToPath(b, v.bs, v.maxBytes);
    var keys := Lookup(v, inode, offsets);
    z := keys[|keys| - 1];
    if z != 0 {
      MappedOwned(Forest(v, inode), v.bs / 4, b);
    }
  }

  /** kernel_read: the bytes from `pos` on, looked up block by block. */
  method ReadFile(v: Volume, inode: Inode, pos: nat, n: nat) returns (data: seq<Byte>)
    requires TreeOk(v, inode) && v.bs >= 4 && pos + n <= inode.size <= v.maxBytes
    ensures data == Content(v.blocks, Forest(v, inode), v.bs, inode.size)[pos..pos + n]
  {
    ghost var bl, ts := v.blocks, Forest(v, inode);
    data := [];
    while |data| < n
      invariant |data| <= n && Stretch(bl, ts, v.bs, pos, data)
    {
      var cur := pos + |data|;
      var z := ZoneAt(v, inode, cur);
      var off := Rem(cur, v.bs);
      var len: nat := if v.bs - off < n - |data| then v.bs - off else n - |data|;
      var s := Zeros(len);
      if z != 0 {
        s := v.GetBytes(z, off, len);
      }
      StretchOfBlock(bl, ts, v.bs, cur, z, s);
      StretchMore(bl, ts, v.bs, pos, data, s);
      data := data + s;
    }
    StretchIs(bl, ts, v.bs, inode.size, pos, data);
  }

  /** A sound tree, as a value. */
  ghost predicate FileTree(m: Mem, ws: seq<nat>, n: nat, used: set<nat>) {
    && |ws| == INODE_SLOTS && WellFormedAll(m, ws, Root, n)
    && SepAll(LoadAll(m, ws, Root)) && FullAll(LoadAll(m, ws, Root)) && ZonesAll(LoadAll(m, ws, Root)) <= used
  }

  lemma TreeIsValid(v: Volume, inode: Inode)
    requires TreeOk(v, inode)
    ensures v.Valid()
  {}

  lemma TreeParts(v: Volume, inode: Inode)
    requires v.Valid()
    ensures v.bs >= 1024 && (TreeOk(v, inode) <==> FileTree(v.mem, inode.zones, v.bs / 4, v.bitmap.used))
    ensures Forest(v, inode) == LoadAll(v.mem, inode.zones, Root)
  {}

  lemma StretchIs(bl: Blocks, ts: seq<Tree>, bs: nat, size: nat, pos: nat, s: seq<Byte>)
    requires bs >= 4 && Stretch(bl, ts, bs, pos, s) && pos + |s| <= size
    ensures s == Content(bl, ts, bs, size)[pos..pos + |s|]
  {
    forall k | 0 <= k < |s|
      ensures s[k] == Content(bl, ts, bs, size)[pos + k]
    {
      assert s[k] == ByteAt(bl, ts, bs, pos + k);
    }
  }

  // ---------------------------------------------------------------- writing data

  /** The bytes `s` laid over a file at `pos`, as far as the file reaches. */
  function Overlay(c: seq<Byte>, pos: nat, s: seq<Byte>): (r: seq<Byte>)
    ensures |r| == |c| && forall i :: 0 <= i < |c| ==> r[i] == if pos <= i < pos + |s| then s[i - pos] else c[i]
  {
    seq(|c|, i requires 0 <= i < |c| => if pos <= i < pos + |s| then s[i - pos] else c[i])
  }

  /** Different blocks are mapped to different zones. */
  lemma {:induction false} MappedOnce(ts: seq<Tree>, n: nat, a: nat, b: nat)
    requires n > 0 && SepAll(ts) && a < Capacity(n) && b < Capacity(n) && a != b && Mapped(ts, n, a) != 0
    ensures Mapped(ts, n, a) != Mapped(ts, n, b)
  {
    hide PathOf, SepAll, Capacity;
    var p, q := PathOf(a, n), PathOf(b, n);
    PathRoundTrip(a, n);
    PathRoundTrip(b, n);
    if Mapped(ts, n, b) != 0 {
      AtApart(ts, p, q);
    }
  }

  /** A mapped zone holds data, so writing to it does not change the tree. */
  lemma {:induction false} MappedIsData(m: Mem, ws: seq<nat>, n: nat, b: nat)
    requires n > 0 && |ws| == INODE_SLOTS && WellFormedAll(m, ws, Root, n) && SepAll(LoadAll(m, ws, Root))
      && b < Capacity(n)
    requires Mapped(LoadAll(m, ws, Root), n, b) != 0
    ensures Mapped(LoadAll(m, ws, Root), n, b) in ZonesAll(LoadAll(m, ws, Root))
    ensures Mapped(LoadAll(m, ws, Root), n, b) !in InnerAll(LoadAll(m, ws, Root))
  {
    hide PathOf, SepAll, Capacity;
    var ts, p := LoadAll(m, ws, Root), PathOf(b, n);
    PathRoundTrip(b, n);
    LoadShaped(m, ws[p[0]], Height(Root, p[0]), n);
    LeafHasNoKids(ts, p, Height(Root, p[0]), n);
    LeafNotInner(ts, p);
  }

  /** What overwriting part of one data block does to the content. */
  lemma {:induction false} ContentPut(bl: Blocks, bl': Blocks, ts: seq<Tree>, bs: nat, size: nat, pos: nat,
                                      s: seq<Byte>, z: nat)
    requires bs >= 4 && SepAll(ts) && z == Mapped(ts, bs / 4, Quot(pos, bs)) && z != 0 && z in bl && |bl[z]| == bs
    requires Rem(pos, bs) + |s| <= bs && bl' == bl[z := Put(bl[z], Rem(pos, bs), s)]
    requires Quot(pos, bs) < Capacity(bs / 4) && forall i :: 0 <= i < size ==> Quot(i, bs) < Capacity(bs / 4)
    ensures Content(bl', ts, bs, size) == Overlay(Content(bl, ts, bs, size), pos, s)
  {
    forall i | 0 <= i < size
      ensures ByteAt(bl', ts, bs, i) == if pos <= i < pos + |s| then s[i - pos] else ByteAt(bl, ts, bs, i)
    {
      BytePut(bl, bl', ts, bs, i, pos, s, z);
    }
  }

  lemma {:induction false} BytePut(bl: Blocks, bl': Blocks, ts: seq<Tree>, bs: nat, i: nat, pos: nat, s: seq<Byte>,
                                   z: nat)
    requires bs >= 4 && SepAll(ts) && z == Mapped(ts, bs / 4, Quot(pos, bs)) && z != 0 && z in bl && |bl[z]| == bs
    requires Rem(pos, bs) + |s| <= bs && bl' == bl[z := Put(bl[z], Rem(pos, bs), s)]
    requires Quot(pos, bs) < Capacity(bs / 4) && Quot(i, bs) < Capacity(bs / 4)
    ensures ByteAt(bl', ts, bs, i) == if pos <= i < pos + |s| then s[i - pos] else ByteAt(bl, ts, bs, i)
  {
    hide Mapped, SepAll, Quot, Rem, Capacity;
    SplitByte(i, bs);
    SplitByte(pos, bs);
    if Quot(i, bs) != Quot(pos, bs) {
      MappedOnce(ts, bs / 4, Quot(pos, bs), Quot(i, bs));
      BlocksApart(Quot(i, bs), Quot(pos, bs), bs);
    }
  }

  lemma SplitByte(i: nat, bs: nat)
    requires bs > 0
    ensures i == Start(Quot(i, bs), bs) + Rem(i, bs) && Rem(i, bs) < bs
  {
    DivMod(i, bs, 0);
  }

  /** Copying bytes into a block of a file, as a write or writeback does once the block is mapped. */
  method PutData(v: Volume, inode: Inode, pos: nat, s: seq<Byte>) returns (ok: bool)
    requires TreeOk(v, inode) && v.bs >= 4 && pos < v.maxBytes && inode.size <= v.maxBytes
      && Rem(pos, v.bs) + |s| <= v.bs
    modifies v`disk, v`blocks, v`mem
    ensures TreeOk(v, inode) && Forest(v, inode) == old(Forest(v, inode))
    ensures ok <==> Mapped(Forest(v, inode), v.bs / 4, Quot(pos, v.bs)) != 0
    ensures !ok ==> v.blocks == old(v.blocks) && v.mem == old(v.mem)
    ensures Frame(old(v.blocks), v.blocks, ZonesAll(Forest(v, inode)))
    ensures ok ==>
      Content(v.blocks, Forest(v, inode), v.bs, inode.size) ==
      Overlay(old(Content(v.blocks, Forest(v, inode), v.bs, inode.size)), pos, s)
  {
    ghost var bl, m, ts := v.blocks, v.mem, Forest(v, inode);
    var z := ZoneAt(v, inode, pos);
    if z == 0 {
      return false;
    }
    DataReady(v, inode, pos, s);
    v.PutBytes(z, Rem(pos, v.bs), s);
    DataWritten(v, inode, bl, m, ts, z);
    ContentPut(bl, v.blocks, ts, v.bs, inode.size, pos, s, z);
    ok := true;
  }

  lemma {:induction false} DataReady(v: Volume, inode: Inode, pos: nat, s: seq<Byte>)
    requires TreeOk(v, inode) && v.bs >= 4 && pos < v.maxBytes && inode.size <= v.maxBytes
    requires Mapped(Forest(v, inode), v.bs / 4, Quot(pos, v.bs)) != 0
    ensures SepAll(Forest(v, inode)) && Quot(pos, v.bs) < Capacity(v.bs / 4)
    ensures forall i :: 0 <= i < inode.size ==> Quot(i, v.bs) < Capacity(v.bs / 4)
    ensures Mapped(Forest(v, inode), v.bs / 4, Quot(pos, v.bs)) in ZonesAll(Forest(v, inode))
    ensures Mapped(Forest(v, inode), v.bs / 4, Quot(pos, v.bs)) !in InnerAll(Forest(v, inode))
    ensures FileTree(v.mem, inode.zones, v.bs / 4, v.bitmap.used)
    ensures forall z :: z in ZonesAll(Forest(v, inode)) ==> z in v.mem
    ensures WordsOf(v.blocks, v.mem)
  {
    hide InSync, Mapped, Capacity, SepAll, FullAll, WellFormedAll, ZonesAll, InnerAll;
    forall i | 0 <= i < v.maxBytes
      ensures Quot(i, v.bs) < Capacity(v.bs / 4)
    {
      DivMod(i, v.bs, 0);
      LimitFits(Quot(i, v.bs), v.bs, v.maxBytes);
    }
    MappedIsData(v.mem, inode.zones, v.bs / 4, Quot(pos, v.bs));
  }

  lemma {:induction false} DataWritten(v: Volume, inode: Inode, bl: Blocks, m: Mem, ts: seq<Tree>, z: nat)
    requires v.Valid() && v.bs >= 4 && ts == LoadAll(m, inode.zones, Root)
      && FileTree(m, inode.zones, v.bs / 4, v.bitmap.used)
    requires z in ZonesAll(ts) && z !in InnerAll(ts) && z in bl && (forall y :: y in ZonesAll(ts) ==> y in m)
    requires v.blocks == bl[z := v.blocks[z]] && v.mem == m[z := v.mem[z]]
    ensures TreeOk(v, inode) && Forest(v, inode) == ts && Frame(bl, v.blocks, ZonesAll(ts))
  {
    hide InSync, SepAll, FullAll, ZonesAll, InnerAll;
    InnerAllOwned(ts);
    ForestInner(m, v.mem, inode.zones, Root, v.bs / 4);
    UsedIsWellFormed(v, inode.zones, Root);
  }
}
