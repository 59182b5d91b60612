/** Reading chunked files back (file.c): the round trip through the chunk store. */
module ChunkRead {
  import opened Arith
  import opened Bytes
  import opened Trees
  import opened Volumes
  import opened Itree
  import opened Truncation
  import opened FileData
  import opened Cdc
  import opened ChunkHeap
  import opened Dedup
  import opened Collisions
  import opened ChunkStore
  import opened ChunkList
  import opened ChunkFile

  // ---------------------------------------------------------------- positions in a file

  /** Entries that have the sizes of the pieces. */
  predicate Sized(es: seq<Entry>, ps: seq<seq<Byte>>) {
    |es| == |ps| && forall j :: 0 <= j < |es| ==> es[j].size == |ps[j]|
  }

  lemma {:induction false} PrefixIsLength(es: seq<Entry>, ps: seq<seq<Byte>>, k: nat)
    requires Sized(es, ps) && k <= |es|
    ensures Prefix(es, k) == |Flatten(ps[..k])|
    decreases k
  {
    if k > 0 {
      PrefixIsLength(es, ps, k - 1);
      FlattenSplit(ps[..k], k - 1);
      assert ps[..k][..k - 1] == ps[..k - 1] && ps[..k][k - 1..] == [ps[k - 1]];
      FlattenOne(ps[k - 1]);
    } else {
      assert ps[..0] == [];
    }
  }

  lemma {:induction false} TotalIsLength(es: seq<Entry>, ps: seq<seq<Byte>>)
    requires Sized(es, ps)
    ensures Total(es) == |Flatten(ps)|
  {
    PrefixIsLength(es, ps, |es|);
    assert ps[..|ps|] == ps;
  }

  /** Piece `k` lies in the file between two prefix sums. */
  lemma {:induction false} PieceInFile(es: seq<Entry>, ps: seq<seq<Byte>>, k: nat)
    requires Sized(es, ps) && k < |es|
    ensures Prefix(es, k) + es[k].size == Prefix(es, k + 1) <= |Flatten(ps)|
    ensures Flatten(ps)[Prefix(es, k)..Prefix(es, k + 1)] == ps[k]
  {
    PrefixIsLength(es, ps, k);
    FlattenSplit(ps, k);
    assert Flatten(ps[k..]) == ps[k] + Flatten(ps[k..][1..]);
  }

  /** How many bytes one read returns. */
  function ReadLen(es: seq<Entry>, pos: nat, count: nat): nat {
    if pos >= Total(es) then 0
    else
      var f := Locate(es, pos, 0);
      if f.accum <= pos < f.accum + f.entry.size then Min(count, f.entry.size - (pos - f.accum)) else 0
  }

  /** A read inside the file returns something and does not go beyond the end of the piece. */
  lemma {:induction false} ReadLenIs(es: seq<Entry>, pos: nat, count: nat) returns (k: nat)
    requires Fit(es) && pos < Total(es)
    ensures k < |es| && Prefix(es, k) <= pos < Prefix(es, k + 1) == Prefix(es, k) + es[k].size
    ensures Locate(es, pos, 0) == Found(es[k], Prefix(es, k)) && es[k].size > 0
    ensures ReadLen(es, pos, count) == Min(count, es[k].size - (pos - Prefix(es, k)))
    ensures count > 0 <==> ReadLen(es, pos, count) > 0
    ensures pos + ReadLen(es, pos, count) <= Prefix(es, k + 1) <= Total(es)
  {
    k := LocateFinds(es, pos, 0);
    PrefixMono(es, k + 1, |es|);
  }

  // ---------------------------------------------------------------- chunked_file_read

  /** The bytes that an entry names. */
  lemma NamedBytes(v: Volume, hash: Hash, e: Entry, p: seq<Byte>, o: nat, n: nat)
    requires StoreOk(v, hash) && Names(v.chunks, e, p) && o + n <= |p|
    ensures e.loc != 0 && e.loc + HEAD_SIZE + e.size <= |v.disk| && Addressable(v)
    ensures Sub(v.disk, e.loc + HEAD_SIZE + o, n) == p[o..o + n]
  {
    hide *;
    var i := NamesAt(v.chunks, e, p);
    ChunkFacts(v, hash, i);
    SubSub(v.disk, e.loc + HEAD_SIZE, |p|, o, n);
    SubIs(p, o, n);
  }

  lemma SubIs(p: seq<Byte>, o: nat, n: nat)
    requires o + n <= |p|
    ensures Sub(p, o, n) == p[o..o + n]
  {}

  lemma NamesAt(cs: seq<Chunk>, e: Entry, p: seq<Byte>) returns (i: nat)
    requires Names(cs, e, p)
    ensures i < |cs| && cs[i].loc == e.loc && cs[i].data == p && e.size == |p|
  {
    i :| 0 <= i < |cs| && cs[i].loc == e.loc && cs[i].data == p;
  }

  lemma FileParts(bl: Blocks, bs: nat, cs: seq<Chunk>, ws: seq<nat>, size: nat, zs: seq<nat>, es: seq<Entry>,
                  ps: seq<seq<Byte>>)
    requires ChunkedFile(bl, bs, cs, ws, size, zs, es, ps)
    ensures Fit(es) && Sized(es, ps) && |es| == |ps| && size == |Flatten(ps)| == Total(es) && |ws| == 10 && zs != []
      && ws[1] == zs[0]
    ensures forall j :: 0 <= j < |es| ==> Names(cs, es[j], ps[j])
  {
    hide ListIn, NodeOf, Flatten, Prefix;
    assert ListIn(bl, bs, zs, es);
    ListEnd(bl, bs, zs, es);
    TotalIsLength(es, ps);
  }

  /** chunked_file_read: the bytes at a position, up to the end of the chunk there; no BUG_ON in it
      can fire on a chunked file. */
  method ReadChunked(v: Volume, inode: Inode, count: nat, pos: nat, ghost hash: Hash, ghost zs: seq<nat>,
                     ghost es: seq<Entry>, ghost ps: seq<seq<Byte>>)
    returns (buf: seq<Byte>, pos': nat)
    requires StoreOk(v, hash) && ListOk(v, zs, es)
    requires ChunkedFile(v.blocks, v.bs, v.chunks, inode.zones, inode.size, zs, es, ps)
    ensures |buf| == ReadLen(es, pos, count) && pos' == pos + |buf|
    ensures pos < |Flatten(ps)| ==> pos' <= |Flatten(ps)| && buf == Flatten(ps)[pos..pos']
    ensures pos >= |Flatten(ps)| ==> buf == []
    ensures pos < |Flatten(ps)| ==> (buf != [] <==> count > 0)
  {
    hide *;
    FileParts(v.blocks, v.bs, v.chunks, inode.zones, inode.size, zs, es, ps);
    if pos >= inode.size {
      ReadPastEnd(es, pos, count);
      return [], pos;
    }
    ghost var k := ReadLenIs(es, pos, count);
    var chunk, start := SearchLeft(v, inode.zones[1], pos, 0, zs, es);
    var o := pos - start;
    PieceInFile(es, ps, k);
    NamedBytes(v, hash, chunk, ps[k], o, ReadLen(es, pos, count));
    assert chunk.loc != 0 && chunk.size != 0;  // the two BUG_ONs
    buf := CopyIntoBuffer(v, chunk, count, o);
    pos' := pos + |buf|;
    SliceOfPiece(Flatten(ps), ps[k], Prefix(es, k), o, |buf|);
  }

  lemma ReadPastEnd(es: seq<Entry>, pos: nat, count: nat)
    requires pos >= Total(es)
    ensures ReadLen(es, pos, count) == 0
  {}

  lemma SliceOfPiece(f: seq<Byte>, p: seq<Byte>, a: nat, o: nat, n: nat)
    requires a + |p| <= |f| && f[a..a + |p|] == p && o + n <= |p|
    ensures f[a + o..a + o + n] == p[o..o + n]
  {
    var s, t := f[a + o..a + o + n], p[o..o + n];
    forall i | 0 <= i < n
      ensures s[i] == t[i]
    {
      assert p[o + i] == f[a..a + |p|][o + i];
    }
  }

  /** The position after a sequence of reads. */
  function Run(es: seq<Entry>, pos: nat, counts: seq<nat>): nat
    decreases |counts|
  {
    if counts == [] then pos
    else var p := Run(es, pos, counts[..|counts| - 1]); p + ReadLen(es, p, counts[|counts| - 1])
  }

  /** Reads with positive counts get on by at least a byte each until the end of the file, where they
      stay. */
  lemma {:induction false} RunProgress(es: seq<Entry>, counts: seq<nat>)
    requires Fit(es) && forall i :: 0 <= i < |counts| ==> counts[i] > 0
    ensures Run(es, 0, counts) <= Total(es)
    ensures |counts| <= Run(es, 0, counts) || Run(es, 0, counts) == Total(es)
    decreases |counts|
  {
    if counts != [] {
      var n := |counts| - 1;
      RunProgress(es, counts[..n]);
      var p := Run(es, 0, counts[..n]);
      if p < Total(es) {
        var k := ReadLenIs(es, p, counts[n]);
      }
    }
  }

  /** Any sequence of reads from the start of a chunked file. */
  method ReadMany(v: Volume, inode: Inode, counts: seq<nat>, ghost hash: Hash, ghost zs: seq<nat>,
                  ghost es: seq<Entry>, ghost ps: seq<seq<Byte>>)
    returns (data: seq<Byte>)
    requires StoreOk(v, hash) && ListOk(v, zs, es)
    requires ChunkedFile(v.blocks, v.bs, v.chunks, inode.zones, inode.size, zs, es, ps)
    requires forall i :: 0 <= i < |counts| ==> counts[i] > 0
    ensures |data| <= |Flatten(ps)| && data == Flatten(ps)[..|data|]
    ensures |counts| >= |Flatten(ps)| ==> data == Flatten(ps)
  {
    hide StoreOk, ListOk, ChunkedFile, Flatten, ReadLen;
    FileParts(v.blocks, v.bs, v.chunks, inode.zones, inode.size, zs, es, ps);
    data := [];
    var pos, i := 0, 0;
    assert counts[..0] == [];
    while i < |counts|
      invariant i <= |counts| && pos == |data| == Run(es, 0, counts[..i]) <= |Flatten(ps)| && data == Flatten(ps)[..pos]
    {
      var buf, next := ReadChunked(v, inode, counts[i], pos, hash, zs, es, ps);
      assert counts[..i + 1][..i] == counts[..i];
      assert buf != [] ==> Flatten(ps)[..next] == Flatten(ps)[..pos] + Flatten(ps)[pos..next];
      data, pos, i := data + buf, next, i + 1;
    }
    assert counts[..i] == counts;
    RunProgress(es, counts);
    assert Flatten(ps)[..|Flatten(ps)|] == Flatten(ps);
  }

  // ---------------------------------------------------------------- the round trip

  /** If the pieces are faithful, the list that chunking a file leaves names the pieces of the file. */
  lemma {:induction false} ChunkedIsFile(v: Volume, ws: seq<nat>, size: nat, a: Area, hash: Hash, gear: Gear, st: Heap,
                                         file: seq<Byte>,
                                         tree: set<nat>, bl: Blocks, used: set<nat>, zs: seq<nat>, es: seq<Entry>)
    requires Switched(v, ws, hash, tree, bl, used, zs, es) && size == |file|
    requires Sound(a, hash, st) && Digest(hash) && Faithful(hash, st.cs, Pieces(gear, file))
    requires AddAll(a, hash, st, Pieces(gear, file)) == Made(Heap(v.chunks, v.heapBrk), es)
    ensures ChunkedFile(v.blocks, v.bs, v.chunks, ws, size, zs, es, Pieces(gear, file))
      && Flatten(Pieces(gear, file)) == file
    ensures st.cs <= v.chunks
  {
    var ps := Pieces(gear, file);
    PiecesPartition(gear, file);
    NamesExactly(a, hash, st, ps);
    EntriesFit(a, hash, gear, st, file, Heap(v.chunks, v.heapBrk), es);
    MakeChunkedFile(v, ws, size, hash, tree, bl, used, zs, es, ps);
  }

  /** Whatever the digest, the entries can be stored and the heap has only grown. */
  lemma {:induction false} EntriesFit(a: Area, hash: Hash, gear: Gear, st: Heap, file: seq<Byte>, now: Heap,
                                      es: seq<Entry>)
    requires Sound(a, hash, st) && Digest(hash) && a.bs > 0 && a.buckets > 0
    requires AddAll(a, hash, st, Pieces(gear, file)) == Made(now, es)
    ensures Fit(es) && st.cs <= now.cs && |es| == |Pieces(gear, file)|
  {
    var ps := Pieces(gear, file);
    PiecesPartition(gear, file);
    EntriesFound(a, hash, st, ps);
    AddAllSound(a, hash, st, ps);
    AllFit(a, hash, now, ps, es);
  }

  lemma AllStorable(hash: Hash, ps: seq<seq<Byte>>)
    requires Digest(hash) && forall i :: 0 <= i < |ps| ==> 0 < |ps[i]| <= MAX_SIZE
    ensures Storable(hash, ps)
  {}

  lemma AllFit(a: Area, hash: Hash, st: Heap, ps: seq<seq<Byte>>, es: seq<Entry>)
    requires Sound(a, hash, st) && Storable(hash, ps) && |es| == |ps|
    requires forall j :: 0 <= j < |ps| ==> es[j] == Entry(Find(st.cs, hash(ps[j])), |ps[j]|)
    ensures Fit(es)
  {
    hide Sound;
    forall j | 0 <= j < |es|
      ensures 0 < es[j].size < U64 && es[j].loc < U64
    {
      FoundLow(a, hash, st, hash(ps[j]));
    }
  }

  lemma MakeChunkedFile(v: Volume, ws: seq<nat>, size: nat, hash: Hash, tree: set<nat>, bl: Blocks, used: set<nat>,
                        zs: seq<nat>, es: seq<Entry>, ps: seq<seq<Byte>>)
    requires Switched(v, ws, hash, tree, bl, used, zs, es) && |es| == |ps| && Fit(es) && size == |Flatten(ps)|
    requires forall j :: 0 <= j < |ps| ==> Names(v.chunks, es[j], ps[j])
    ensures ChunkedFile(v.blocks, v.bs, v.chunks, ws, size, zs, es, ps)
  {
    hide StoreOk, ListIn, Names, Fit, Flatten;
  }

  /** Chunk a file and read it with any positive counts: the bytes of the file come back. */
  method RoundTrip(v: Volume, inode: Inode, hash: Hash, gear: Gear, counts: seq<nat>)
    returns (status: Ending, data: seq<Byte>)
    requires TreeOk(v, inode) && Limited(Forest(v, inode), v.bs, v.maxBytes) && inode.size <= v.maxBytes && v.bs >= 1024
    requires StoreOk(v, hash) && Digest(hash) && v.esb !in ZonesAll(Forest(v, inode))
    requires NoCollision(hash, v.chunks, Pieces(gear, Content(v.blocks, Forest(v, inode), v.bs, inode.size)))
    requires forall i :: 0 <= i < |counts| ==> counts[i] > 0
    modifies v`disk, v`blocks, v`mem, v`tail, v`heapBrk, v`chunks, inode`zones, inode`size, v.bitmap, v.bitmap.bits
    ensures status == Done ==>
      var file := old(Content(v.blocks, Forest(v, inode), v.bs, inode.size));
      && |data| <= |file| && data == file[..|data|] && (|counts| >= |file| ==> data == file)
  {
    ghost var file := Content(v.blocks, Forest(v, inode), v.bs, inode.size);
    ghost var st := Heap(v.chunks, v.heapBrk);
    ghost var a := v.Where();
    ghost var tree, bl, used := ZonesAll(Forest(v, inode)), v.blocks, v.bitmap.used;
    NoCollisionIsFaithful(a, hash, st, Pieces(gear, file));
    data := [];
    ghost var zs, es;
    status, zs, es := ChunkAndReplace(v, inode, hash, gear);
    if status == Done {
      ChunkedIsFile(v, inode.zones, inode.size, a, hash, gear, st, file, tree, bl, used, zs, es);
      data := ReadMany(v, inode, counts, hash, zs, es, Pieces(gear, file));
    }
  }

  lemma SwitchedParts(v: Volume, ws: seq<nat>, hash: Hash, tree: set<nat>, bl: Blocks, used: set<nat>, zs: seq<nat>,
                      es: seq<Entry>)
    requires Switched(v, ws, hash, tree, bl, used, zs, es)
    ensures StoreOk(v, hash) && ListOk(v, zs, es) && v.Valid() && Elems(zs) !! used
      && v.bitmap.used == used - tree + Elems(zs)
    ensures Frame(bl, v.blocks, tree + Elems(zs) + {v.esb})
  {}

  /** Every other chunked file, with its own list, still reads the same after chunk_and_replace. */
  lemma {:induction false} OthersUndisturbed(v: Volume, ws: seq<nat>, hash: Hash, tree: set<nat>, bl: Blocks,
                                             used: set<nat>, zs: seq<nat>, es: seq<Entry>,
                                             cs: seq<Chunk>, ws': seq<nat>, size': nat, zs': seq<nat>, es': seq<Entry>,
                                               ps': seq<seq<Byte>>)
    requires Switched(v, ws, hash, tree, bl, used, zs, es) && cs <= v.chunks
    requires ChunkedFile(bl, v.bs, cs, ws', size', zs', es', ps') && Elems(zs') <= used && Elems(zs') !! tree
      && v.esb !in Elems(zs')
    ensures ChunkedFile(v.blocks, v.bs, v.chunks, ws', size', zs', es', ps') && ListOk(v, zs', es')
  {
    ChunkedFileStays(bl, v.blocks, v.bs, cs, v.chunks, ws', size', zs', es', ps', tree + Elems(zs) + {v.esb});
    MakeListOk(v, ws', size', zs', es', ps');
  }

  lemma MakeListOk(v: Volume, ws: seq<nat>, size: nat, zs: seq<nat>, es: seq<Entry>, ps: seq<seq<Byte>>)
    requires v.Valid() && ChunkedFile(v.blocks, v.bs, v.chunks, ws, size, zs, es, ps) && Elems(zs) <= v.bitmap.used
    ensures ListOk(v, zs, es)
  {
    hide ListIn;
  }

  /** And so does every file that is mapped by a tree of its own. */
  lemma {:induction false} TreesUndisturbed(v: Volume, ws: seq<nat>, hash: Hash, tree: set<nat>, bl: Blocks, m: Mem,
                                            used: set<nat>, zs: seq<nat>, es: seq<Entry>,
                                            other: Inode, size: nat)
    requires Switched(v, ws, hash, tree, bl, used, zs, es) && WordsOf(bl, m) && (forall z :: z in used ==> z in bl)
      && v.bs >= 1024
    requires FileTree(m, other.zones, v.bs / 4, used)
    requires ZonesAll(LoadAll(m, other.zones, Root)) !! tree + {v.esb}
    ensures TreeOk(v, other) && Forest(v, other) == LoadAll(m, other.zones, Root)
    ensures Content(v.blocks, Forest(v, other), v.bs, size) == Content(bl, Forest(v, other), v.bs, size)
  {
    var ts := LoadAll(m, other.zones, Root);
    FrameMem(v, bl, m, tree + Elems(zs) + {v.esb}, ZonesAll(ts));
    ForestFrame(m, v.mem, other.zones, Root);
    StillTree(m, v.mem, other.zones, v.bs / 4, ZonesAll(ts), v.bitmap.used);
    ContentFrame(bl, v.blocks, ts, v.bs, size);
  }
}
