/** Turning a file into a list of chunks, and reading it back (file.c). */
module ChunkFile {
  import opened Arith
  import opened Geometry
  import opened Bytes
  import opened BlockPath
  import opened Trees
  import opened Volumes
  import opened Itree
  import opened Truncation
  import opened FileData
  import opened Cdc
  import opened ChunkHeap
  import opened Dedup
  import opened ChunkStore
  import opened ChunkList

  /** How chunking ends: the two in the middle are the source's panics, and a file that has been
      chunked before is not chunked again. */
  datatype Ending = Done | HeapFull | NoZones | Already

  /** The mark of a chunked inode. */
  const MARK: nat := U32 - 1

  predicate IsChunked(ws: seq<nat>) {
    |ws| == INODE_SLOTS && ws[0] == MARK && ws[9] == MARK
  }

  /** The digest has 64 bits. */
  ghost predicate Digest(hash: Hash) {
    forall s :: hash(s) < U64
  }

  /** Bitmap, blocks and words of a sound volume. */
  lemma VolumeParts(v: Volume)
    requires v.Valid()
    ensures WordsOf(v.blocks, v.mem) && v.bitmap.Valid() && |v.disk| == v.hashtable + |v.tail| && INODE_SLOTS == 10
    ensures forall z :: z in v.bitmap.used ==> z < v.bitmap.nzones && z in v.blocks
  {}

  /** The tree of an inode does not depend on its size. */
  lemma ForestParts(v: Volume, inode: Inode)
    ensures Forest(v, inode) == LoadAll(v.mem, inode.zones, Root)
    ensures TreeOk(v, inode) ==>
      |inode.zones| == INODE_SLOTS == 10 && v.bs / 4 > 0 && v.bs > 0 && ZonesAll(Forest(v, inode)) <= v.bitmap.used
  {}

  // ---------------------------------------------------------------- one piece

  /** Find the piece by its hash, or store it. */
  method AddChunk(v: Volume, hash: Hash, data: seq<Byte>) returns (ok: bool, loc: nat)
    requires StoreOk(v, hash) && 0 < |data| <= 65536 && hash(data) < U64
    modifies v`disk, v`blocks, v`mem, v`tail, v`heapBrk, v`chunks
    ensures ok <==> old(AddPiece(v.Where(), hash, Heap(v.chunks, v.heapBrk), data)).Made?
    ensures ok ==>
      && StoreOk(v, hash) && |v.disk| == |old(v.disk)| && Frame(old(v.blocks), v.blocks, {v.esb})
      && old(AddPiece(v.Where(), hash, Heap(v.chunks, v.heapBrk), data)) ==
           Made(Heap(v.chunks, v.heapBrk), [Entry(loc, |data|)])
  {
    loc := SearchHashtable(v, hash, hash(data));
    if loc != 0 {
      ok := true;
    } else {
      ok, loc := FillHashtable(v, hash, data);
    }
  }

  /** Everything but the list under construction and the extra superblock is as it was. */
  ghost predicate Growing(v: Volume, hash: Hash, bl: Blocks, used: set<nat>, zs: seq<nat>, es: seq<Entry>)
    reads v, v.bitmap, v.bitmap.bits
  {
    && StoreOk(v, hash) && ListOk(v, zs, es) && v.esb in used
    && Elems(zs) !! used && v.bitmap.used == used + Elems(zs) && Frame(bl, v.blocks, Elems(zs) + {v.esb})
  }

  /** A chunk added to the store leaves the list alone. */
  lemma ListSurvives(v: Volume, hash: Hash, bl: Blocks, e: Blocks, used: set<nat>, zs: seq<nat>, es: seq<Entry>)
    requires StoreOk(v, hash) && v.esb in used && Elems(zs) !! used && v.bitmap.used == used + Elems(zs) && Distinct(zs)
    requires ListIn(e, v.bs, zs, es) && Frame(bl, e, Elems(zs) + {v.esb}) && Frame(e, v.blocks, {v.esb})
    ensures Growing(v, hash, bl, used, zs, es)
  {
    hide ListIn, Store, Sound;
    assert forall z :: z in zs ==> z in Elems(zs);
    ListFrame(e, v.blocks, v.bs, zs, es);
    FrameTrans(bl, e, v.blocks, Elems(zs) + {v.esb}, {v.esb});
    assert Elems(zs) + {v.esb} + {v.esb} == Elems(zs) + {v.esb};
  }

  /** A block added to the list leaves the store alone. */
  lemma StoreSurvives(v: Volume, hash: Hash, bl: Blocks, e: Blocks, used: set<nat>, zs: seq<nat>, zs': seq<nat>,
                      es: seq<Entry>)
    requires Appended(v, zs, zs', es, used + Elems(zs), e) && Frame(bl, e, Elems(zs) + {v.esb})
    requires v.esb in used && Elems(zs) !! used && EsbStored(e, v.esb, v.hashtable, v.buckets, v.heapBrk)
      && Addressable(v) && |v.disk| < U32
    requires Store(v.Where(), v.tail, v.chunks, v.heapBrk) && Sound(v.Where(), hash, Heap(v.chunks, v.heapBrk))
    ensures Growing(v, hash, bl, used, zs', es)
  {
    hide ListIn, Store, Sound, InSync, WordsOf;
    assert Elems(zs) <= Elems(zs') by { assert forall z :: z in zs ==> z in zs'; }
    assert v.esb !in Elems(zs');
    FrameTrans(bl, e, v.blocks, Elems(zs) + {v.esb}, Elems(zs'));
    assert Elems(zs) + {v.esb} + Elems(zs') == Elems(zs') + {v.esb};
    assert Elems(zs') !! used;
    MakeStoreOk(v, hash);
  }

  lemma GrowingParts(v: Volume, hash: Hash, bl: Blocks, used: set<nat>, zs: seq<nat>, es: seq<Entry>)
    requires Growing(v, hash, bl, used, zs, es)
    ensures StoreOk(v, hash) && ListOk(v, zs, es) && v.Valid() && v.esb in used && Elems(zs) !! used
    ensures v.bitmap.used == used + Elems(zs) && Frame(bl, v.blocks, Elems(zs) + {v.esb})
    ensures Distinct(zs) && ListIn(v.blocks, v.bs, zs, es) && v.maxBytes < U32
  {}

  /** Too few zones are free for a list of `n` entries. */
  predicate NoRoom(v: Volume, used: set<nat>, n: nat) {
    Scarce(v.bitmap.first, v.bitmap.nzones, used, ListBlocks(n, v.bs))
  }

  lemma NoRoomFor(v: Volume, used: set<nat>, n: nat, m: nat)
    requires NoRoom(v, used, n) && n <= m
    ensures NoRoom(v, used, m)
  {
    ListBlocksMono(n, m, v.bs);
  }

  /** There was room for a list that is there; there is none for more when it is full and no zone is free. */
  lemma RoomIs(v: Volume, hash: Hash, bl: Blocks, used: set<nat>, zs: seq<nat>, es: seq<Entry>)
    requires Growing(v, hash, bl, used, zs, es)
    ensures !NoRoom(v, used, |es|) && PerBlock(v.bs) > 0
    ensures v.bitmap.Exhausted() && |es| > 0 && |es| % PerBlock(v.bs) == 0 ==> NoRoom(v, used, |es| + 1)
  {
    hide ListIn, Store, Sound, InSync, WordsOf, Scarce, ListBlocks, PerBlock;
    ListNeeds(v.blocks, v.bs, zs, es);
    TookEnough(v.bitmap.first, v.bitmap.nzones, used, zs);
    if v.bitmap.Exhausted() {
      TookAll(v.bitmap.first, v.bitmap.nzones, used, zs, |zs| + 1);
    }
  }

  /** Without a free zone there is no room for any list. */
  lemma NoneAtAll(v: Volume, n: nat)
    ensures v.bitmap.Exhausted() ==> NoRoom(v, v.bitmap.used, n)
  {
    ListBlocksMono(0, n, v.bs);
    if v.bitmap.Exhausted() {
      TookAll(v.bitmap.first, v.bitmap.nzones, v.bitmap.used, [], ListBlocks(n, v.bs));
    }
  }

  /** One round of the loop of chunk_and_replace, after the piece has been read. */
  method AddEntry(v: Volume, hash: Hash, data: seq<Byte>, end: nat, size: nat, ghost bl: Blocks, ghost used: set<nat>,
                  ghost zs: seq<nat>, ghost es: seq<Entry>)
    returns (status: Ending, end': nat, size': nat, ghost zs': seq<nat>, ghost e: Entry)
    requires Growing(v, hash, bl, used, zs, es) && end == zs[|zs| - 1] && size == |es|
    requires 0 < |data| <= 65536 && hash(data) < U64
    modifies v`disk, v`blocks, v`mem, v`tail, v`heapBrk, v`chunks, v.bitmap, v.bitmap.bits
    ensures v.bitmap.warnings == old(v.bitmap.warnings)
    ensures status == NoZones ==> v.bitmap.Exhausted() && NoRoom(v, used, |es| + 1)
    ensures status != Already && (status == HeapFull <==>
      old(AddPiece(v.Where(), hash, Heap(v.chunks, v.heapBrk), data)).Panic?)
    ensures status == Done ==>
      && Growing(v, hash, bl, used, zs', es + [e]) && zs != [] && zs <= zs' && end' == zs'[|zs'| - 1]
         && size' == |es| + 1
      && |v.disk| == |old(v.disk)|
      && old(AddPiece(v.Where(), hash, Heap(v.chunks, v.heapBrk), data)) == Made(Heap(v.chunks, v.heapBrk), [e])
  {
    hide *;
    GrowingParts(v, hash, bl, used, zs, es);
    StoreParts(v, hash);
    ghost var b1 := v.blocks;
    end', size', zs' := end, size, zs;
    ghost var a, st := v.Where(), Heap(v.chunks, v.heapBrk);
    MadeOrPanic(AddPiece(a, hash, st, data));
    var ok, loc := AddChunk(v, hash, data);
    if !ok {
      return HeapFull, end, size, zs, Entry(0, 0);
    }
    e := Entry(loc, |data|);
    ListSurvives(v, hash, bl, b1, used, zs, es);
    EntryFits(a, hash, st, data, e);
    AreaFacts(v);
    ok, end', size', zs' := ListEntry(v, hash, Entry(loc, |data|), end, size, bl, used, zs, es);
    status := if ok then Done else NoZones;
  }

  /** ll_append during chunking, which leaves the store alone. */
  method ListEntry(v: Volume, ghost hash: Hash, e: Entry, end: nat, size: nat, ghost bl: Blocks, ghost used: set<nat>,
                   ghost zs: seq<nat>, ghost es: seq<Entry>)
    returns (ok: bool, end': nat, size': nat, ghost zs': seq<nat>)
    requires Growing(v, hash, bl, used, zs, es) && zs != [] && end == zs[|zs| - 1] && size == |es| && e.loc < U64
      && e.size < U64
    modifies v`disk, v`blocks, v`mem, v.bitmap, v.bitmap.bits
    ensures v.bitmap.warnings == old(v.bitmap.warnings) && |v.disk| == |old(v.disk)|
    ensures !ok ==> v.bitmap.Exhausted() && NoRoom(v, used, |es| + 1)
    ensures ok ==>
      Growing(v, hash, bl, used, zs', es + [e]) && zs != [] && zs <= zs' && end' == zs'[|zs'| - 1] && size' == |es| + 1
  {
    RoomIs(v, hash, bl, used, zs, es);
    ghost var b := v.blocks;
    ok, end', size', zs' := Append(v, end, size, e, zs, es);
    if ok {
      StoreSurvives(v, hash, bl, b, used, zs, zs', es + [e]);
    }
  }

  lemma MadeOrPanic(o: Outcome)
    ensures o.Made? <==> !o.Panic?
  {}

  /** A new entry can be stored. */
  lemma EntryFits(a: Area, hash: Hash, st: Heap, data: seq<Byte>, e: Entry)
    requires Sound(a, hash, st) && 0 < |data| <= 65536 && hash(data) < U64
    requires AddPiece(a, hash, st, data).Made? && AddPiece(a, hash, st, data).entries == [e]
    ensures e.size == |data| && 0 < e.size < U64 && e.loc < U64
  {
    hide Sound, AddPiece, Find;
    SoundArea(a, hash, st);
    AddPieceSound(a, hash, st, data);
    FoundLow(a, hash, AddPiece(a, hash, st, data).heap, hash(data));
  }

  lemma FoundLow(a: Area, hash: Hash, st: Heap, h: nat)
    requires Sound(a, hash, st)
    ensures Find(st.cs, h) < U32
  {
    hide Find, Chained;
    FindIsMap(st.cs, h);
    if Find(st.cs, h) != 0 {
      var i :| 0 <= i < |st.cs| && st.cs[i].hash == h && st.cs[i].loc == Find(st.cs, h);
    }
  }

  // ---------------------------------------------------------------- all the pieces

  /** The next piece of a file of which the first `k` pieces have been dealt with. */
  lemma {:induction false} NextPiece(gear: Gear, file: seq<Byte>, k: nat)
    requires k <= |Pieces(gear, file)|
    ensures var pos := |Flatten(Pieces(gear, file)[..k])|;
      && pos <= |file| && (pos == |file| <==> k == |Pieces(gear, file)|)
      && (pos < |file| ==>
            var n := ChunkSize(gear, file[pos..]);
            && Pieces(gear, file)[k] == file[pos..pos + n] && 0 < n <= 65536 && pos + n <= |file|
            && |Flatten(Pieces(gear, file)[..k + 1])| == pos + n)
  {
    hide ChunkSize;
    var ps := Pieces(gear, file);
    var pos := |Flatten(ps[..k])|;
    PiecesAfter(gear, file, k);
    if pos < |file| {
      var n := ChunkSize(gear, file[pos..]);
      assert ps[k] == ps[k..][0] == file[pos..][..n];
      FlattenSplit(ps[..k + 1], k);
      assert ps[..k + 1][..k] == ps[..k] && ps[..k + 1][k..] == [ps[k]];
      FlattenOne(ps[k]);
    }
  }

  lemma FlattenOne(p: seq<Byte>)
    ensures Flatten([p]) == p
  {
    assert [p][1..] == [];
  }

  /** The heap and the entries after the first `k` pieces. */
  ghost predicate Progress(a: Area, hash: Hash, st: Heap, ps: seq<seq<Byte>>, k: nat, now: Heap, es: seq<Entry>) {
    a.bs > 0 && a.buckets > 0 && k <= |ps| && AddAll(a, hash, st, ps[..k]) == Made(now, es)
  }

  lemma ProgressStep(a: Area, hash: Hash, st: Heap, ps: seq<seq<Byte>>, k: nat, now: Heap, es: seq<Entry>)
    requires Progress(a, hash, st, ps, k, now, es) && k < |ps|
    ensures |es| == k
    ensures var r := AddPiece(a, hash, now, ps[k]);
      if r.Panic? then AddAll(a, hash, st, ps).Panic? else Progress(a, hash, st, ps, k + 1, r.heap, es + r.entries)
  {
    assert ps[..k + 1][..k] == ps[..k];
    if AddPiece(a, hash, now, ps[k]).Panic? {
      AddAllConcat(a, hash, st, ps[..k + 1], ps[k + 1..]);
      assert ps == ps[..k + 1] + ps[k + 1..];
    }
  }

  lemma ProgressEnds(a: Area, hash: Hash, st: Heap, ps: seq<seq<Byte>>, now: Heap, es: seq<Entry>)
    requires Progress(a, hash, st, ps, |ps|, now, es)
    ensures AddAll(a, hash, st, ps) == Made(now, es) && |es| == |ps|
  {
    assert ps[..|ps|] == ps;
  }

  /** The tree of the file while its chunks are being stored. */
  lemma {:induction false} TreeSurvives(v: Volume, inode: Inode, hash: Hash, bl: Blocks, m: Mem, used: set<nat>,
                                        zs: seq<nat>, es: seq<Entry>, size: nat)
    requires Growing(v, hash, bl, used, zs, es) && WordsOf(bl, m) && (forall z :: z in used ==> z in bl)
    requires v.bs >= 1024 && FileTree(m, inode.zones, v.bs / 4, used)
      && v.esb !in ZonesAll(LoadAll(m, inode.zones, Root))
    ensures TreeOk(v, inode) && Forest(v, inode) == LoadAll(m, inode.zones, Root)
    ensures Content(v.blocks, Forest(v, inode), v.bs, size) == Content(bl, Forest(v, inode), v.bs, size)
  {
    var ts := LoadAll(m, inode.zones, Root);
    FrameMem(v, bl, m, Elems(zs) + {v.esb}, ZonesAll(ts));
    ForestFrame(m, v.mem, inode.zones, Root);
    StillTree(m, v.mem, inode.zones, v.bs / 4, used, v.bitmap.used);
    ContentFrame(bl, v.blocks, ts, v.bs, size);
  }

  lemma {:induction false} StillTree(m: Mem, m': Mem, ws: seq<nat>, n: nat, used: set<nat>, used': set<nat>)
    requires FileTree(m, ws, n, used) && used <= used' && SameOn(m, m', ZonesAll(LoadAll(m, ws, Root)))
    requires LoadAll(m', ws, Root) == LoadAll(m, ws, Root)
    ensures FileTree(m', ws, n, used')
  {
    var ts := LoadAll(m, ws, Root);
    forall i | 0 <= i < |ws|
      ensures WellFormed(m', ws[i], Height(Root, i), n)
    {
      InAll(ts, i);
      WellFormedFrame(m, m', ws[i], Height(Root, i), n);
    }
  }

  /** Cut the next piece off the file and read it. */
  method ReadPiece(v: Volume, inode: Inode, gear: Gear, pos: nat) returns (data: seq<Byte>)
    requires TreeOk(v, inode) && v.bs >= 4 && pos < inode.size <= v.maxBytes
    ensures var file := Content(v.blocks, Forest(v, inode), v.bs, inode.size);
      |file| == inode.size && var n := ChunkSize(gear, file[pos..]); pos + n <= |file| && data == file[pos..pos + n]
  {
    hide *;
    var seen := ReadFile(v, inode, 0, inode.size);
    ghost var file := Content(v.blocks, Forest(v, inode), v.bs, inode.size);
    assert seen == file;
    var n := GetChunkSize(gear, seen, pos);
    assert n <= |file[pos..]|;
    data := ReadFile(v, inode, pos, n);
  }

  /** The loop of chunk_and_replace: cut, read, hash, store and list the pieces of a file. */
  method ChunkAll(v: Volume, inode: Inode, hash: Hash, gear: Gear, head: nat, ghost bl: Blocks, ghost m: Mem,
                  ghost used: set<nat>)
    returns (status: Ending, end: nat, size: nat, ghost zs: seq<nat>, ghost es: seq<Entry>)
    requires Growing(v, hash, bl, used, [head], []) && WordsOf(bl, m) && (forall z :: z in used ==> z in bl)
      && Digest(hash)
    requires v.bs >= 1024 && FileTree(m, inode.zones, v.bs / 4, used)
      && v.esb !in ZonesAll(LoadAll(m, inode.zones, Root))
    requires inode.size <= v.maxBytes
    modifies v`disk, v`blocks, v`mem, v`tail, v`heapBrk, v`chunks, v.bitmap, v.bitmap.bits
    ensures v.bitmap.warnings == old(v.bitmap.warnings) && v.buckets > 0
    ensures var ps := Pieces(gear, Content(bl, LoadAll(m, inode.zones, Root), v.bs, inode.size));
      var r := AddAll(old(v.Where()), hash, Heap(old(v.chunks), old(v.heapBrk)), ps);
      && (status == HeapFull ==> r.Panic?) && (status == NoZones ==> v.bitmap.Exhausted()) && status != Already
      && (status == NoZones ==> NoRoom(v, used, |ps|))
      && (status == Done <==> r.Made? && !NoRoom(v, used, |ps|))
      && (status == Done ==> r == Made(Heap(v.chunks, v.heapBrk), es) && |es| == |ps|)
    ensures status == Done ==>
      && Growing(v, hash, bl, used, zs, es) && |v.disk| == |old(v.disk)|
      && zs != [] && zs[0] == head && end == zs[|zs| - 1] && size == |es|
  {
    hide *;
    ghost var st := Heap(v.chunks, v.heapBrk);
    ghost var a := v.Where();
    ghost var file := Content(bl, LoadAll(m, inode.zones, Root), v.bs, inode.size);
    ghost var ps := Pieces(gear, file);
    GrowingParts(v, hash, bl, used, [head], []);
    StoreParts(v, hash);
    ghost var k := 0;
    ProgressStart(a, hash, st, gear, file);
    var pos := 0;
    end, size, zs, es := head, 0, [head], [];
    while pos < inode.size
      invariant Growing(v, hash, bl, used, zs, es) && v.bitmap.warnings == old(v.bitmap.warnings)
        && |v.disk| == |old(v.disk)|
      invariant zs != [] && zs[0] == head && end == zs[|zs| - 1] && size == |es|
      invariant Progress(a, hash, st, ps, k, Heap(v.chunks, v.heapBrk), es) && k <= |ps|
      invariant pos == |Flatten(ps[..k])| && pos <= inode.size
    {
      NextPiece(gear, file, k);
      TreeSurvives(v, inode, hash, bl, m, used, zs, es, inode.size);
      AreaFacts(v);
      var data := ReadPiece(v, inode, gear, pos);
      ProgressStep(a, hash, st, ps, k, Heap(v.chunks, v.heapBrk), es);
      HashFits(hash, data);
      ghost var e;
      status, end, size, zs, e := AddEntry(v, hash, data, end, size, bl, used, zs, es);
      if status != Done {
        if status == NoZones {
          NoRoomFor(v, used, k + 1, |ps|);
        }
        return;
      }
      AreaFacts(v);
      pos, k, es := pos + |data|, k + 1, es + [e];
    }
    NextPiece(gear, file, k);
    assert pos == inode.size;  // a BUG_ON
    ProgressEnds(a, hash, st, ps, Heap(v.chunks, v.heapBrk), es);
    RoomIs(v, hash, bl, used, zs, es);
    status := Done;
  }

  lemma HashFits(hash: Hash, s: seq<Byte>)
    requires Digest(hash)
    ensures hash(s) < U64
  {}

  lemma ProgressStart(a: Area, hash: Hash, st: Heap, gear: Gear, file: seq<Byte>)
    requires a.bs > 0 && a.buckets > 0
    ensures Progress(a, hash, st, Pieces(gear, file), 0, st, []) && |Flatten(Pieces(gear, file)[..0])| == 0
  {
    assert Pieces(gear, file)[..0] == [];
  }

  // ---------------------------------------------------------------- chunk_and_replace

  /** cominix_truncate: a chunked inode is left alone. */
  method TruncateInode(v: Volume, inode: Inode)
    requires |inode.zones| == INODE_SLOTS
    requires !IsChunked(inode.zones) ==>
      TreeOk(v, inode) && Limited(Forest(v, inode), v.bs, v.maxBytes) && inode.size < 0x8000_0000_0000_0000
    modifies v`disk, v`blocks, v`mem, inode`zones, v.bitmap, v.bitmap.bits
    ensures IsChunked(old(inode.zones)) ==>
      inode.zones == old(inode.zones) && v.blocks == old(v.blocks) && v.bitmap.used == old(v.bitmap.used)
    ensures !IsChunked(old(inode.zones)) ==>
      && TreeOk(v, inode) && Limited(Forest(v, inode), v.bs, v.maxBytes)
      && v.bs >= 4 && Forest(v, inode) == Trimmed(old(Forest(v, inode)), v.bs, v.maxBytes, FirstGone(inode.size, v.bs))
      && KeepsBelow(old(Forest(v, inode)), Forest(v, inode), v.bs / 4, FirstGone(inode.size, v.bs))
      && (forall b :: 0 <= b < Capacity(v.bs / 4) ==>
            Mapped(Forest(v, inode), v.bs / 4, b) ==
              if b * v.bs < inode.size then Mapped(old(Forest(v, inode)), v.bs / 4, b) else 0)
      && ZonesAll(Forest(v, inode)) <= ZonesAll(old(Forest(v, inode)))
      && v.bitmap.used == old(v.bitmap.used) - (ZonesAll(old(Forest(v, inode))) - ZonesAll(Forest(v, inode)))
      && v.bitmap.warnings == old(v.bitmap.warnings)
      && Frame(old(v.blocks), v.blocks, ZonesAll(old(Forest(v, inode))))
      && (inode.size == 0 ==> AllZero(inode.zones, INODE_SLOTS))
  {
    if IsChunked(inode.zones) {
      return;
    }
    Truncate(v, inode);
  }

  /** The inode of a chunked file, its list, and the chunks that the entries of the list name. */
  ghost predicate ChunkedFile(bl: Blocks, bs: nat, cs: seq<Chunk>, ws: seq<nat>, size: nat, zs: seq<nat>,
                              es: seq<Entry>, ps: seq<seq<Byte>>) {
    && IsChunked(ws) && Distinct(zs) && ListIn(bl, bs, zs, es) && Fit(es)
    && ws[1] == zs[0] && ws[2] == |es| && ws[3] == zs[|zs| - 1] && size == |Flatten(ps)|
    && |es| == |ps| && forall j :: 0 <= j < |es| ==> Names(cs, es[j], ps[j])
  }

  /** A chunked file is not disturbed by writes to blocks outside its list or by new chunks. */
  lemma {:induction false} ChunkedFileStays(bl: Blocks, bl': Blocks, bs: nat, cs: seq<Chunk>, cs': seq<Chunk>,
                                            ws: seq<nat>, size: nat,
                                            zs: seq<nat>, es: seq<Entry>, ps: seq<seq<Byte>>, changed: set<nat>)
    requires ChunkedFile(bl, bs, cs, ws, size, zs, es, ps)
    requires Frame(bl, bl', changed) && Elems(zs) !! changed && cs <= cs'
    ensures ChunkedFile(bl', bs, cs', ws, size, zs, es, ps)
  {
    hide ListIn, Names, Flatten;
    assert forall z :: z in zs ==> z in Elems(zs);
    ListFrame(bl, bl', bs, zs, es);
    forall j | 0 <= j < |es|
      ensures Names(cs', es[j], ps[j])
    {
      NamesStays(cs, cs', es[j], ps[j]);
    }
  }

  /** The tree of a file is not taken for a list. */
  lemma {:induction false} TreeNotChunked(v: Volume, inode: Inode)
    requires TreeOk(v, inode)
    ensures !IsChunked(inode.zones)
  {
    var ts := Forest(v, inode);
    var z := inode.zones[0];
    if z != 0 {
      InAll(ts, 0);
      assert ts[0] == Load(v.mem, z, 0);
      assert z in Zones(ts[0]);
    }
  }

  /** What becomes of the zones: the tree's are given up, the list's are taken. */
  ghost predicate Replaced(v: Volume, hash: Hash, tree: set<nat>, bl: Blocks, used: set<nat>, zs: seq<nat>)
    reads v, v.bitmap, v.bitmap.bits
  {
    && StoreOk(v, hash) && Elems(zs) !! used && v.bitmap.used == used - tree + Elems(zs)
    && Frame(bl, v.blocks, tree + Elems(zs) + {v.esb})
  }

  /** The chunks are stored and listed; giving back the tree touches neither. */
  lemma {:induction false} AfterTruncation(v: Volume, hash: Hash, tree: set<nat>, bl: Blocks, e: Blocks,
                                           used: set<nat>, zs: seq<nat>, es: seq<Entry>)
    requires v.Valid() && Addressable(v) && |v.disk| < U32 && EsbStored(e, v.esb, v.hashtable, v.buckets, v.heapBrk)
    requires Store(v.Where(), v.tail, v.chunks, v.heapBrk) && Sound(v.Where(), hash, Heap(v.chunks, v.heapBrk))
    requires tree <= used && v.esb in used && v.esb !in tree && Elems(zs) !! used && Distinct(zs)
      && ListIn(e, v.bs, zs, es)
    requires Frame(bl, e, Elems(zs) + {v.esb}) && Frame(e, v.blocks, tree)
    requires v.bitmap.used == used + Elems(zs) - tree
    ensures Replaced(v, hash, tree, bl, used, zs) && ListOk(v, zs, es)
  {
    hide ListIn, Store, Sound, InSync, WordsOf;
    assert forall z :: z in zs ==> z in Elems(zs);
    ListFrame(e, v.blocks, v.bs, zs, es);
    FrameTrans(bl, e, v.blocks, Elems(zs) + {v.esb}, tree);
    assert Elems(zs) + {v.esb} + tree == tree + Elems(zs) + {v.esb};
    MakeStoreOk(v, hash);
  }

  /** What chunk_and_replace has done when it returns. */
  ghost predicate Switched(v: Volume, ws: seq<nat>, hash: Hash, tree: set<nat>, bl: Blocks, used: set<nat>,
                           zs: seq<nat>, es: seq<Entry>)
    reads v, v.bitmap, v.bitmap.bits
  {
    && Replaced(v, hash, tree, bl, used, zs) && ListOk(v, zs, es)
    && IsChunked(ws) && ws[1] == zs[0] && ws[2] == |es| && ws[3] == zs[|zs| - 1]
  }

  /** chunk_and_replace: the file becomes a list of chunks and its tree is given back. */
  method ChunkAndReplace(v: Volume, inode: Inode, hash: Hash, gear: Gear)
    returns (status: Ending, ghost zs: seq<nat>, ghost es: seq<Entry>)
    requires TreeOk(v, inode) && Limited(Forest(v, inode), v.bs, v.maxBytes) && inode.size <= v.maxBytes && v.bs >= 1024
    requires StoreOk(v, hash) && Digest(hash) && v.esb !in ZonesAll(Forest(v, inode))
    modifies v`disk, v`blocks, v`mem, v`tail, v`heapBrk, v`chunks, inode`zones, inode`size, v.bitmap, v.bitmap.bits
    ensures v.bitmap.warnings == old(v.bitmap.warnings) && v.buckets > 0
    ensures var ps := Pieces(gear, old(Content(v.blocks, Forest(v, inode), v.bs, inode.size)));
      var r := AddAll(old(v.Where()), hash, Heap(old(v.chunks), old(v.heapBrk)), ps);
      && (status == HeapFull ==> r.Panic?) && (status == NoZones ==> v.bitmap.Exhausted()) && status != Already
      && (status == NoZones ==> NoRoom(v, old(v.bitmap.used), |ps|))
      && (status == Done <==> r.Made? && !NoRoom(v, old(v.bitmap.used), |ps|))
      && (status == Done ==> r == Made(Heap(v.chunks, v.heapBrk), es) && |es| == |ps|)
    ensures status == Done ==>
      && Switched(v, inode.zones, hash, ZonesAll(old(Forest(v, inode))), old(v.blocks), old(v.bitmap.used), zs, es)
      && inode.size == old(inode.size)
  {
    ghost var bl, m, used, ts := v.blocks, v.mem, v.bitmap.used, Forest(v, inode);
    ghost var a := v.Where();
    zs, es := [], [];
    NoneAtAll(v, |Pieces(gear, Content(bl, ts, v.bs, inode.size))|);
    var head := NewListBlock(v);
    if head == 0 {
      return NoZones, zs, es;
    }
    StartGrowing(v, hash, bl, used, head);
    var end, size;
    status, end, size, zs, es := ChunkAll(v, inode, hash, gear, head, bl, m, used);
    if status != Done {
      return;
    }
    FewPieces(gear, Content(bl, ts, v.bs, inode.size));
    assert size < U32;  // a BUG_ON
    GiveUpTree(v, inode, hash, head, end, size, bl, m, used, zs, es);
  }

  /** Truncation to size 0, after which the size is what it was. */
  method GiveBack(v: Volume, inode: Inode)
    requires TreeOk(v, inode) && Limited(Forest(v, inode), v.bs, v.maxBytes)
    modifies v`disk, v`blocks, v`mem, inode`zones, inode`size, v.bitmap, v.bitmap.bits
    ensures TreeOk(v, inode) && v.bitmap.used == old(v.bitmap.used) - ZonesAll(old(Forest(v, inode)))
    ensures Frame(old(v.blocks), v.blocks, ZonesAll(old(Forest(v, inode)))) && |inode.zones| == INODE_SLOTS
    ensures inode.size == old(inode.size) && v.bitmap.warnings == old(v.bitmap.warnings)
  {
    var fsize := inode.size;
    inode.size := 0;
    TreeNotChunked(v, inode);
    TruncateInode(v, inode);
    TreeGone(v, inode);
    inode.size := fsize;
  }

  /** The end of chunk_and_replace: give back the tree and switch the inode. */
  method GiveUpTree(v: Volume, inode: Inode, hash: Hash, head: nat, end: nat, size: nat, ghost bl: Blocks,
                    ghost m: Mem, ghost used: set<nat>, ghost zs: seq<nat>, ghost es: seq<Entry>)
    requires Growing(v, hash, bl, used, zs, es) && zs != [] && head == zs[0] && end == zs[|zs| - 1] && size == |es|
    requires WordsOf(bl, m) && (forall z :: z in used ==> z in bl) && v.bs >= 1024
      && ZonesAll(LoadAll(m, inode.zones, Root)) <= used
    requires FileTree(m, inode.zones, v.bs / 4, used) && v.esb !in ZonesAll(LoadAll(m, inode.zones, Root))
    requires Limited(LoadAll(m, inode.zones, Root), v.bs, v.maxBytes)
    modifies v`disk, v`blocks, v`mem, inode`zones, inode`size, v.bitmap, v.bitmap.bits
    ensures Switched(v, inode.zones, hash, ZonesAll(LoadAll(m, old(inode.zones), Root)), bl, used, zs, es)
    ensures inode.size == old(inode.size) && v.bitmap.warnings == old(v.bitmap.warnings)
  {
    hide *;
    ghost var ts := LoadAll(m, inode.zones, Root);
    TreeSurvives(v, inode, hash, bl, m, used, zs, es, inode.size);
    GrowingParts(v, hash, bl, used, zs, es);
    StoreParts(v, hash);
    VolumeParts(v);
    ghost var e := v.blocks;
    ForestParts(v, inode);
    GiveBack(v, inode);
    TreeIsValid(v, inode);
    VolumeParts(v);
    StaysAddressable(v);
    AfterTruncation(v, hash, ZonesAll(ts), bl, e, used, zs, es);
    inode.zones := inode.zones[0 := MARK][9 := MARK];
    inode.zones := inode.zones[1 := head][2 := size][3 := end];
    MakeSwitched(v, inode.zones, hash, ZonesAll(ts), bl, used, zs, es);
  }

  lemma TreeGone(v: Volume, inode: Inode)
    requires AllZero(inode.zones, INODE_SLOTS) && |inode.zones| == INODE_SLOTS
    ensures ZonesAll(Forest(v, inode)) == {}
  {
    assert forall i :: 0 <= i < |inode.zones| ==> Forest(v, inode)[i].Empty?;
  }

  lemma StartGrowing(v: Volume, hash: Hash, bl: Blocks, used: set<nat>, head: nat)
    requires v.Valid() && Addressable(v) && |v.disk| < U32 && v.esb in used
      && EsbStored(bl, v.esb, v.hashtable, v.buckets, v.heapBrk)
    requires Store(v.Where(), v.tail, v.chunks, v.heapBrk) && Sound(v.Where(), hash, Heap(v.chunks, v.heapBrk))
    requires head != 0 && head in bl && head !in used && v.bitmap.used == used + {head}
      && v.blocks == bl[head := Zeros(v.bs)]
    ensures Growing(v, hash, bl, used, [head], [])
  {
    hide ListIn, Store, Sound, InSync, WordsOf;
    EmptyList(v.blocks, v.bs, head);
    assert Elems([head]) == {head};
    MakeStoreOk(v, hash);
  }

  lemma MakeSwitched(v: Volume, ws: seq<nat>, hash: Hash, tree: set<nat>, bl: Blocks, used: set<nat>, zs: seq<nat>,
                     es: seq<Entry>)
    requires Replaced(v, hash, tree, bl, used, zs) && ListOk(v, zs, es)
    requires zs != [] && |ws| == 10 && ws[0] == MARK && ws[9] == MARK && ws[1] == zs[0] && ws[2] == |es|
      && ws[3] == zs[|zs| - 1]
    ensures Switched(v, ws, hash, tree, bl, used, zs, es)
  {}
}
