/** What chunking a file does to the chunk heap, and what the resulting list of entries stands for. */
module Dedup {
  import opened Arith
  import opened Bytes
  import opened Cdc
  import opened ChunkHeap

  /** The chunks stored so far and the heap break. */
  datatype Heap = Heap(cs: seq<Chunk>, brk: nat)

  /** A (location, size) pair of a chunked file. */
  datatype Entry = Entry(loc: nat, size: nat)

  /** The state of the heap and the entries made, or the panic of a full heap. */
  datatype Outcome = Panic | Made(heap: Heap, entries: seq<Entry>)

  /** The 64-bit digest of a chunk. */
  type Hash = seq<Byte> -> nat

  /** One round of the chunking loop: look the piece up by its hash, and store it only if the hash is
      new. */
  function AddPiece(a: Area, hash: Hash, st: Heap, p: seq<Byte>): Outcome
    requires a.bs > 0 && a.buckets > 0
  {
    var h := hash(p);
    var loc := Find(st.cs, h);
    if loc != 0 then Made(st, [Entry(loc, |p|)])
    else
      var c := Chunk(Place(st.brk, a.bs), h, p, Head(a, st.cs, BucketOf(a, h)));
      if End(c) >= a.max then Panic else Made(Heap(st.cs + [c], End(c)), [Entry(c.loc, |p|)])
  }

  /** All the pieces of a file, in order. */
  function AddAll(a: Area, hash: Hash, st: Heap, ps: seq<seq<Byte>>): (r: Outcome)
    requires a.bs > 0 && a.buckets > 0
    ensures r.Made? ==> |r.entries| == |ps|
  {
    if ps == [] then Made(st, [])
    else
      var r := AddAll(a, hash, st, ps[..|ps| - 1]);
      if r.Panic? then Panic
      else
        var s := AddPiece(a, hash, r.heap, ps[|ps| - 1]);
        if s.Panic? then Panic else Made(s.heap, r.entries + s.entries)
  }

  /** The heap is laid out and chained, and every chunk carries the hash of its data. */
  predicate Sound(a: Area, hash: Hash, st: Heap) {
    && AreaOk(a) && a.max < U32 && Laid(a, st.cs, st.brk) && Chained(a, st.cs)
    && forall i :: 0 <= i < |st.cs| ==> st.cs[i].hash == hash(st.cs[i].data)
  }

  lemma SoundArea(a: Area, hash: Hash, st: Heap)
    requires Sound(a, hash, st)
    ensures a.bs > 0 && a.buckets > 0
  {}

  /** Pieces that can be stored: not empty, at most 65536 bytes, with a 64-bit hash. */
  predicate Storable(hash: Hash, ps: seq<seq<Byte>>) {
    forall i :: 0 <= i < |ps| ==> 0 < |ps[i]| <= 65536 && hash(ps[i]) < U64
  }

  /** No two different chunks, stored or about to be, have the same hash. */
  predicate NoCollision(hash: Hash, cs: seq<Chunk>, ps: seq<seq<Byte>>) {
    && (forall i, j :: 0 <= i < |cs| && 0 <= j < |ps| && hash(cs[i].data) == hash(ps[j]) ==> cs[i].data == ps[j])
    && (forall i, j :: 0 <= i < |ps| && 0 <= j < |ps| && hash(ps[i]) == hash(ps[j]) ==> ps[i] == ps[j])
  }

  /** An entry names a stored chunk with the data `p`. */
  predicate Names(cs: seq<Chunk>, e: Entry, p: seq<Byte>) {
    e.size == |p| && exists i :: 0 <= i < |cs| && cs[i].loc == e.loc && cs[i].data == p
  }

  lemma {:induction false} AddPieceSound(a: Area, hash: Hash, st: Heap, p: seq<Byte>)
    requires Sound(a, hash, st) && 0 < |p| <= 65536 && hash(p) < U64
    ensures var r := AddPiece(a, hash, st, p); r.Made? ==>
      && Sound(a, hash, r.heap) && st.cs <= r.heap.cs && st.brk <= r.heap.brk
      && (forall i :: |st.cs| <= i < |r.heap.cs| ==> r.heap.cs[i].data == p)
      && r.entries == [Entry(r.entries[0].loc, |p|)] && r.entries[0].loc != 0
         && Find(r.heap.cs, hash(p)) == r.entries[0].loc
  {
    hide Place, Chained, Head, BucketOf, Tight;
    var h := hash(p);
    var c := Chunk(Place(st.brk, a.bs), h, p, Head(a, st.cs, BucketOf(a, h)));
    if Find(st.cs, h) == 0 && End(c) < a.max {
      AllocLaid(a, st.cs, st.brk, c);
      AddChained(a, st.cs, c);
    }
  }

  /** Chunking only adds to the heap, and what it adds are pieces of the file. */
  lemma {:induction false} AddAllSound(a: Area, hash: Hash, st: Heap, ps: seq<seq<Byte>>)
    requires Sound(a, hash, st) && Storable(hash, ps)
    ensures var r := AddAll(a, hash, st, ps); r.Made? ==>
      && Sound(a, hash, r.heap) && st.cs <= r.heap.cs && st.brk <= r.heap.brk
      && (forall i :: |st.cs| <= i < |r.heap.cs| ==> r.heap.cs[i].data in ps)
    decreases |ps|
  {
    hide Sound, AddPiece;
    SoundArea(a, hash, st);
    if ps != [] {
      var qs := ps[..|ps| - 1];
      AddAllSound(a, hash, st, qs);
      var r := AddAll(a, hash, st, qs);
      if r.Made? {
        AddPieceSound(a, hash, r.heap, ps[|ps| - 1]);
        assert ps[|ps| - 1] in ps && forall p :: p in qs ==> p in ps;
      }
    }
  }

  lemma NamesStays(cs: seq<Chunk>, cs': seq<Chunk>, e: Entry, p: seq<Byte>)
    requires Names(cs, e, p) && cs <= cs'
    ensures Names(cs', e, p)
  {
    var i :| 0 <= i < |cs| && cs[i].loc == e.loc && cs[i].data == p;
    assert cs'[i] == cs[i];
  }

  // ---------------------------------------------------------------- deduplication

  lemma {:induction false} AddAllConcat(a: Area, hash: Hash, st: Heap, ps: seq<seq<Byte>>, qs: seq<seq<Byte>>)
    requires a.bs > 0 && a.buckets > 0
    ensures var r := AddAll(a, hash, st, ps);
      AddAll(a, hash, st, ps + qs) ==
        if r.Panic? then Panic
        else var s := AddAll(a, hash, r.heap, qs); if s.Panic? then Panic else Made(s.heap, r.entries + s.entries)
    decreases |qs|
  {
    hide AddPiece;
    if qs == [] {
      assert ps + qs == ps;
    } else {
      AddAllConcat(a, hash, st, ps, qs[..|qs| - 1]);
      assert (ps + qs)[..|ps + qs| - 1] == ps + qs[..|qs| - 1];
    }
  }

  /** A hash that is in the table keeps its location. */
  lemma {:induction false} FindStays(a: Area, hash: Hash, st: Heap, ps: seq<seq<Byte>>, h: nat)
    requires a.bs > 0 && a.buckets > 0 && Find(st.cs, h) != 0
    ensures var r := AddAll(a, hash, st, ps); r.Made? ==> Find(r.heap.cs, h) == Find(st.cs, h)
    decreases |ps|
  {
    if ps != [] {
      var r := AddAll(a, hash, st, ps[..|ps| - 1]);
      FindStays(a, hash, st, ps[..|ps| - 1], h);
      if r.Made? {
        OneStays(a, hash, r.heap, ps[|ps| - 1], h);
      }
    }
  }

  /** After chunking, every piece is found where its entry says. */
  lemma {:induction false} EntriesFound(a: Area, hash: Hash, st: Heap, ps: seq<seq<Byte>>)
    requires Sound(a, hash, st) && Storable(hash, ps)
    ensures var r := AddAll(a, hash, st, ps); r.Made? ==>
      forall j :: 0 <= j < |ps| ==>
        r.entries[j] == Entry(Find(r.heap.cs, hash(ps[j])), |ps[j]|) && r.entries[j].loc != 0
    decreases |ps|
  {
    hide Sound, AddPiece, Find;
    SoundArea(a, hash, st);
    if ps != [] {
      var n := |ps| - 1;
      var qs, p := ps[..n], ps[n];
      var r, r' := AddAll(a, hash, st, qs), AddAll(a, hash, st, ps);
      EntriesFound(a, hash, st, qs);
      if r'.Made? {
        AddAllSound(a, hash, st, qs);
        LastFound(a, hash, r, r', qs, p);
        assert ps == qs + [p];
      }
    }
  }

  lemma {:induction false} LastFound(a: Area, hash: Hash, r: Outcome, r': Outcome, qs: seq<seq<Byte>>, p: seq<Byte>)
    requires r.Made? && Sound(a, hash, r.heap) && 0 < |p| <= 65536 && hash(p) < U64 && |r.entries| == |qs|
    requires var s := AddPiece(a, hash, r.heap, p); s.Made? && r' == Made(s.heap, r.entries + s.entries)
    requires forall j :: 0 <= j < |qs| ==>
      r.entries[j] == Entry(Find(r.heap.cs, hash(qs[j])), |qs[j]|) && r.entries[j].loc != 0
    ensures |r'.entries| == |qs| + 1
    ensures forall j :: 0 <= j <= |qs| ==>
      var q := (qs + [p])[j]; r'.entries[j] == Entry(Find(r'.heap.cs, hash(q)), |q|) && r'.entries[j].loc != 0
  {
    AddPieceSound(a, hash, r.heap, p);
    forall j | 0 <= j < |qs|
      ensures Find(r'.heap.cs, hash(qs[j])) == Find(r.heap.cs, hash(qs[j]))
    {
      OneStays(a, hash, r.heap, p, hash(qs[j]));
    }
  }

  lemma OneStays(a: Area, hash: Hash, st: Heap, p: seq<Byte>, h: nat)
    requires a.bs > 0 && a.buckets > 0 && Find(st.cs, h) != 0
    ensures var r := AddPiece(a, hash, st, p); r.Made? ==> Find(r.heap.cs, h) == Find(st.cs, h)
  {}

  /** Pieces whose hashes are all in the table add nothing to the heap. */
  lemma {:induction false} KnownPieces(a: Area, hash: Hash, st: Heap, ps: seq<seq<Byte>>)
    requires a.bs > 0 && a.buckets > 0 && forall j :: 0 <= j < |ps| ==> Find(st.cs, hash(ps[j])) != 0
    ensures AddAll(a, hash, st, ps).Made? && AddAll(a, hash, st, ps).heap == st
    ensures forall j :: 0 <= j < |ps| ==> AddAll(a, hash, st, ps).entries[j] == Entry(Find(st.cs, hash(ps[j])), |ps[j]|)
    decreases |ps|
  {
    if ps != [] {
      KnownPieces(a, hash, st, ps[..|ps| - 1]);
    }
  }

  /** Chunking the same pieces again gives the same entries and leaves the heap alone, however much
      has been added in between. */
  lemma {:induction false} ChunkAgain(a: Area, hash: Hash, st: Heap, ps: seq<seq<Byte>>, qs: seq<seq<Byte>>)
    requires Sound(a, hash, st) && Storable(hash, ps)
    ensures var r := AddAll(a, hash, st, ps); r.Made? ==>
      var s := AddAll(a, hash, r.heap, qs);
      s.Made? ==> AddAll(a, hash, s.heap, ps) == Made(s.heap, r.entries)
  {
    var r := AddAll(a, hash, st, ps);
    if r.Made? && AddAll(a, hash, r.heap, qs).Made? {
      var s := AddAll(a, hash, r.heap, qs);
      EntriesFound(a, hash, st, ps);
      hide AddAll, Sound;
      forall j | 0 <= j < |ps|
        ensures Find(s.heap.cs, hash(ps[j])) == r.entries[j].loc != 0
      {
        FindStays(a, hash, r.heap, qs, hash(ps[j]));
      }
      KnownPieces(a, hash, s.heap, ps);
      assert AddAll(a, hash, s.heap, ps).entries == r.entries;
    }
  }

  /** Two files with a common suffix at which both have a boundary: after the first has been chunked,
      the second stores nothing for the suffix and lists the same entries for it. */
  lemma {:induction false} SuffixIsShared(a: Area, hash: Hash, st: Heap, gear: Gear, x: seq<Byte>, y: seq<Byte>,
                                          s: seq<Byte>, i: nat, j: nat)
    requires Sound(a, hash, st) && Storable(hash, Pieces(gear, x + s))
    requires i <= |Pieces(gear, x + s)| && Flatten(Pieces(gear, x + s)[..i]) == x
    requires j <= |Pieces(gear, y + s)| && Flatten(Pieces(gear, y + s)[..j]) == y
    ensures var r := AddAll(a, hash, st, Pieces(gear, x + s)); r.Made? ==>
      var u := AddAll(a, hash, r.heap, Pieces(gear, y + s)[..j]); u.Made? ==>
      AddAll(a, hash, r.heap, Pieces(gear, y + s)) == Made(u.heap, u.entries + r.entries[i..])
  {
    var px, py := Pieces(gear, x + s), Pieces(gear, y + s);
    var r := AddAll(a, hash, st, px);
    if r.Made? && AddAll(a, hash, r.heap, py[..j]).Made? {
      var u := AddAll(a, hash, r.heap, py[..j]);
      CommonSuffix(gear, x, y, s, i, j);
      assert py == py[..j] + py[j..];
      AddAllConcat(a, hash, r.heap, py[..j], py[j..]);
      EntriesFound(a, hash, st, px);
      TailKnown(a, hash, r, u, px, py[..j], py[j..], i);
    }
  }

  lemma {:induction false} TailKnown(a: Area, hash: Hash, r: Outcome, u: Outcome, px: seq<seq<Byte>>,
                                     before: seq<seq<Byte>>, tail: seq<seq<Byte>>, i: nat)
    requires a.bs > 0 && a.buckets > 0 && r.Made? && |r.entries| == |px| && i <= |px| && tail == px[i..]
    requires u == AddAll(a, hash, r.heap, before) && u.Made?
    requires forall j :: 0 <= j < |px| ==>
      r.entries[j] == Entry(Find(r.heap.cs, hash(px[j])), |px[j]|) && r.entries[j].loc != 0
    ensures AddAll(a, hash, u.heap, tail) == Made(u.heap, r.entries[i..])
  {
    hide AddAll, Find;
    forall k | 0 <= k < |tail|
      ensures Find(u.heap.cs, hash(tail[k])) == r.entries[i + k].loc != 0 && tail[k] == px[i + k]
    {
      FindStays(a, hash, r.heap, before, hash(px[i + k]));
    }
    KnownPieces(a, hash, u.heap, tail);
    assert AddAll(a, hash, u.heap, tail).entries == r.entries[i..];
  }
}
