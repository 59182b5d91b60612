/** When exactly the entries of a chunked file stand for its pieces: the table is searched by hash
    alone, so a piece is replaced by whatever was first stored under its hash. */
module Collisions {
  import opened Arith
  import opened Bytes
  import opened ChunkHeap
  import opened Dedup

  /** The first piece with the hash of piece `j`. */
  function First(hash: Hash, ps: seq<seq<Byte>>, j: nat): (i: nat)
    requires j < |ps|
    ensures i <= j && hash(ps[i]) == hash(ps[j])
    ensures forall k :: 0 <= k < i ==> hash(ps[k]) != hash(ps[j])
    ensures forall k :: 0 <= k < |ps| && hash(ps[k]) == hash(ps[j]) ==> i <= k
  {
    FirstFrom(hash, ps, j, 0)
  }

  function FirstFrom(hash: Hash, ps: seq<seq<Byte>>, j: nat, from: nat): (i: nat)
    requires from <= j < |ps| && forall k :: 0 <= k < from ==> hash(ps[k]) != hash(ps[j])
    ensures from <= i <= j && hash(ps[i]) == hash(ps[j]) && forall k :: 0 <= k < i ==> hash(ps[k]) != hash(ps[j])
    decreases j - from
  {
    if hash(ps[from]) == hash(ps[j]) then from else FirstFrom(hash, ps, j, from + 1)
  }

  /** Every piece whose hash is in the table is the chunk found there, and pieces that share a hash
      that is not in the table are equal. */
  predicate Faithful(hash: Hash, cs: seq<Chunk>, ps: seq<seq<Byte>>) {
    && (forall i, j :: 0 <= i < |cs| && 0 <= j < |ps| && cs[i].loc == Find(cs, hash(ps[j])) ==> cs[i].data == ps[j])
    && (forall i, j :: 0 <= i < j < |ps| && Find(cs, hash(ps[j])) == 0 && hash(ps[i]) == hash(ps[j]) ==> ps[i] == ps[j])
  }

  /** `d` is what piece `j` will be read back as. */
  predicate StandsFor(hash: Hash, cs: seq<Chunk>, ps: seq<seq<Byte>>, j: nat, d: seq<Byte>)
    requires j < |ps|
  {
    var f := Find(cs, hash(ps[j]));
    if f == 0 then d == ps[First(hash, ps, j)] else exists i :: 0 <= i < |cs| && cs[i].loc == f && cs[i].data == d
  }

  predicate HoldsAt(cs: seq<Chunk>, loc: nat, d: seq<Byte>) {
    exists i :: 0 <= i < |cs| && cs[i].loc == loc && cs[i].data == d
  }

  lemma HoldsLater(cs: seq<Chunk>, cs': seq<Chunk>, loc: nat, d: seq<Byte>)
    requires HoldsAt(cs, loc, d) && cs <= cs'
    ensures HoldsAt(cs', loc, d)
  {
    var i :| 0 <= i < |cs| && cs[i].loc == loc && cs[i].data == d;
    assert cs'[i] == cs[i];
  }

  /** A location holds one chunk. */
  lemma HoldsOne(a: Area, hash: Hash, st: Heap, loc: nat, d: seq<Byte>, e: seq<Byte>)
    requires Sound(a, hash, st) && HoldsAt(st.cs, loc, d) && HoldsAt(st.cs, loc, e)
    ensures d == e
  {
    var i :| 0 <= i < |st.cs| && st.cs[i].loc == loc && st.cs[i].data == d;
    var j :| 0 <= j < |st.cs| && st.cs[j].loc == loc && st.cs[j].data == e;
  }

  lemma FoundHolds(a: Area, hash: Hash, st: Heap, h: nat) returns (d: seq<Byte>)
    requires Sound(a, hash, st) && Find(st.cs, h) != 0
    ensures HoldsAt(st.cs, Find(st.cs, h), d) && hash(d) == h
  {
    FindIsMap(st.cs, h);
    var i :| 0 <= i < |st.cs| && st.cs[i].hash == h && st.cs[i].loc == Find(st.cs, h);
    d := st.cs[i].data;
  }

  /** A hash that is neither in the table nor among the pieces is not found afterwards. */
  lemma {:induction false} StillUnknown(a: Area, hash: Hash, st: Heap, ps: seq<seq<Byte>>, h: nat)
    requires Sound(a, hash, st) && Storable(hash, ps) && Find(st.cs, h) == 0 && AddAll(a, hash, st, ps).Made?
    requires forall i :: 0 <= i < |ps| ==> hash(ps[i]) != h
    ensures Find(AddAll(a, hash, st, ps).heap.cs, h) == 0
  {
    var r := AddAll(a, hash, st, ps);
    AddAllSound(a, hash, st, ps);
    hide AddAll, Storable;
    FindIsMap(r.heap.cs, h);
    FindIsMap(st.cs, h);
    forall i | 0 <= i < |r.heap.cs|
      ensures r.heap.cs[i].hash != h
    {
      if i < |st.cs| {
        assert r.heap.cs[i] == st.cs[i];
      } else {
        assert r.heap.cs[i].data in ps;
      }
    }
  }

  /** What each entry leads to. */
  lemma {:induction false} EntriesHold(a: Area, hash: Hash, st: Heap, ps: seq<seq<Byte>>, j: nat) returns (d: seq<Byte>)
    requires Sound(a, hash, st) && Storable(hash, ps) && AddAll(a, hash, st, ps).Made? && j < |ps|
    ensures StandsFor(hash, st.cs, ps, j, d)
    ensures HoldsAt(AddAll(a, hash, st, ps).heap.cs, AddAll(a, hash, st, ps).entries[j].loc, d)
  {
    var r, h := AddAll(a, hash, st, ps), hash(ps[j]);
    EntriesFound(a, hash, st, ps);
    AddAllSound(a, hash, st, ps);
    if Find(st.cs, h) != 0 {
      d := FoundHolds(a, hash, st, h);
      FindStays(a, hash, st, ps, h);
      HoldsLater(st.cs, r.heap.cs, Find(st.cs, h), d);
    } else {
      var i := First(hash, ps, j);
      d := ps[i];
      FirstIsStored(a, hash, st, ps, i);
    }
  }

  /** The first piece with a hash that is new is stored, and found from then on. */
  lemma {:induction false} FirstIsStored(a: Area, hash: Hash, st: Heap, ps: seq<seq<Byte>>, i: nat)
    requires Sound(a, hash, st) && Storable(hash, ps) && AddAll(a, hash, st, ps).Made? && i < |ps|
    requires Find(st.cs, hash(ps[i])) == 0 && forall k :: 0 <= k < i ==> hash(ps[k]) != hash(ps[i])
    ensures HoldsAt(AddAll(a, hash, st, ps).heap.cs, Find(AddAll(a, hash, st, ps).heap.cs, hash(ps[i])), ps[i])
  {
    hide *;
    var h, p, qs := hash(ps[i]), ps[i], ps[i + 1..];
    SoundArea(a, hash, st);
    StorableParts(hash, ps, i);
    AddAllConcat(a, hash, st, ps[..i], [p] + qs);
    var r := AddAll(a, hash, st, ps[..i]);
    AddAllSound(a, hash, st, ps[..i]);
    StillUnknown(a, hash, st, ps[..i], h);
    AddAllConcat(a, hash, r.heap, [p], qs);
    OnePiece(a, hash, r.heap, p);
    AddPieceSound(a, hash, r.heap, p);
    var s := AddPiece(a, hash, r.heap, p);
    FindStays(a, hash, s.heap, qs, h);
    AddAllSound(a, hash, s.heap, qs);
    HoldsLater(s.heap.cs, AddAll(a, hash, s.heap, qs).heap.cs, Find(s.heap.cs, h), p);
  }

  lemma StorableParts(hash: Hash, ps: seq<seq<Byte>>, i: nat)
    requires Storable(hash, ps) && i < |ps|
    ensures Storable(hash, ps[..i]) && 0 < |ps[i]| <= 65536 && hash(ps[i]) < U64 && Storable(hash, ps[i + 1..])
    ensures ps == ps[..i] + ([ps[i]] + ps[i + 1..])
  {}

  lemma OnePiece(a: Area, hash: Hash, st: Heap, p: seq<Byte>)
    requires a.bs > 0 && a.buckets > 0
    ensures AddAll(a, hash, st, [p]) == AddPiece(a, hash, st, p)
    ensures Find(st.cs, hash(p)) == 0 && AddPiece(a, hash, st, p).Made? ==>
      var r := AddPiece(a, hash, st, p); HoldsAt(r.heap.cs, Find(r.heap.cs, hash(p)), p)
  {
    assert [p][..0] == [];
    assert AddAll(a, hash, st, [p][..0]) == Made(st, []);
    var r := AddPiece(a, hash, st, p);
    if Find(st.cs, hash(p)) == 0 && r.Made? {
      assert r.heap.cs[|st.cs|].data == p;
    }
  }

  /** The entries name the pieces exactly when the pieces are faithful. */
  lemma {:induction false} NamesExactly(a: Area, hash: Hash, st: Heap, ps: seq<seq<Byte>>)
    requires Sound(a, hash, st) && Storable(hash, ps) && AddAll(a, hash, st, ps).Made?
    ensures Faithful(hash, st.cs, ps) <==>
      forall j :: 0 <= j < |ps| ==> Names(AddAll(a, hash, st, ps).heap.cs, AddAll(a, hash, st, ps).entries[j], ps[j])
  {
    var r := AddAll(a, hash, st, ps);
    AddAllSound(a, hash, st, ps);
    EntriesFound(a, hash, st, ps);
    forall j | 0 <= j < |ps|
      ensures Names(r.heap.cs, r.entries[j], ps[j]) <==> StandsFor(hash, st.cs, ps, j, ps[j])
    {
      NamesOne(a, hash, st, ps, j);
    }
    FaithfulIs(a, hash, st, ps);
  }

  lemma {:induction false} NamesOne(a: Area, hash: Hash, st: Heap, ps: seq<seq<Byte>>, j: nat)
    requires Sound(a, hash, st) && Storable(hash, ps) && AddAll(a, hash, st, ps).Made? && j < |ps|
    ensures Names(AddAll(a, hash, st, ps).heap.cs, AddAll(a, hash, st, ps).entries[j], ps[j]) <==>
      StandsFor(hash, st.cs, ps, j, ps[j])
  {
    var r := AddAll(a, hash, st, ps);
    AddAllSound(a, hash, st, ps);
    EntriesFound(a, hash, st, ps);
    var d := EntriesHold(a, hash, st, ps, j);
    hide AddAll, Storable, Sound;
    if Names(r.heap.cs, r.entries[j], ps[j]) {
      HoldsOne(a, hash, r.heap, r.entries[j].loc, d, ps[j]);
    }
    if StandsFor(hash, st.cs, ps, j, ps[j]) {
      StandsForOne(a, hash, st, ps, j, d, ps[j]);
    }
  }

  lemma StandsForOne(a: Area, hash: Hash, st: Heap, ps: seq<seq<Byte>>, j: nat, d: seq<Byte>, e: seq<Byte>)
    requires Sound(a, hash, st) && j < |ps| && StandsFor(hash, st.cs, ps, j, d) && StandsFor(hash, st.cs, ps, j, e)
    ensures d == e
  {
    hide Sound;
    if Find(st.cs, hash(ps[j])) != 0 {
      HoldsOne(a, hash, st, Find(st.cs, hash(ps[j])), d, e);
    }
  }

  lemma {:induction false} FaithfulIs(a: Area, hash: Hash, st: Heap, ps: seq<seq<Byte>>)
    requires Sound(a, hash, st)
    ensures Faithful(hash, st.cs, ps) <==> forall j :: 0 <= j < |ps| ==> StandsFor(hash, st.cs, ps, j, ps[j])
  {
    hide Sound;
    if Faithful(hash, st.cs, ps) {
      forall j | 0 <= j < |ps|
        ensures StandsFor(hash, st.cs, ps, j, ps[j])
      {
        if Find(st.cs, hash(ps[j])) != 0 {
          var d := FoundHolds(a, hash, st, hash(ps[j]));
        }
      }
    }
    if forall j :: 0 <= j < |ps| ==> StandsFor(hash, st.cs, ps, j, ps[j]) {
      forall i, j | 0 <= i < |st.cs| && 0 <= j < |ps| && st.cs[i].loc == Find(st.cs, hash(ps[j]))
        ensures st.cs[i].data == ps[j]
      {
        assert StandsFor(hash, st.cs, ps, j, ps[j]);
        AnyLoc(a, hash, st, i);
        HoldsOne(a, hash, st, st.cs[i].loc, st.cs[i].data, ps[j]);
      }
      forall i, j | 0 <= i < j < |ps| && Find(st.cs, hash(ps[j])) == 0 && hash(ps[i]) == hash(ps[j])
        ensures ps[i] == ps[j]
      {
        assert StandsFor(hash, st.cs, ps, i, ps[i]) && StandsFor(hash, st.cs, ps, j, ps[j]);
        assert First(hash, ps, i) == First(hash, ps, j);
      }
    }
  }

  /** Without collisions the pieces are faithful. */
  lemma NoCollisionIsFaithful(a: Area, hash: Hash, st: Heap, ps: seq<seq<Byte>>)
    requires Sound(a, hash, st) && NoCollision(hash, st.cs, ps)
    ensures Faithful(hash, st.cs, ps)
  {
    forall i, j | 0 <= i < |st.cs| && 0 <= j < |ps| && st.cs[i].loc == Find(st.cs, hash(ps[j]))
      ensures st.cs[i].data == ps[j]
    {
      var d := FoundHolds(a, hash, st, hash(ps[j]));
      HoldsOne(a, hash, st, st.cs[i].loc, st.cs[i].data, d);
    }
  }

  lemma AnyLoc(a: Area, hash: Hash, st: Heap, i: nat)
    requires Sound(a, hash, st) && i < |st.cs|
    ensures st.cs[i].loc != 0
  {}

  /** Two one-byte files and a digest that does not tell them apart: the second is listed as the first. */
  lemma CollisionSubstitutes(a: Area)
    requires AreaOk(a) && a.max < U32 && HeapStart(a) + 100 < a.max
    ensures var hash: Hash := (_: seq<Byte>) => 7;
      var r := AddAll(a, hash, Heap([], HeapStart(a)), [[0], [1]]);
      r.Made? && Names(r.heap.cs, r.entries[1], [0]) && !Names(r.heap.cs, r.entries[1], [1])
  {
    var hash: Hash := (_: seq<Byte>) => 7;
    var st := Heap([], HeapStart(a));
    var c := Chunk(Place(st.brk, a.bs), 7, [0], 0);
    PlaceFits(st.brk, a.bs);
    assert [[0], [1]][..1] == [[0]];
    OnePiece(a, hash, st, [0]);
    assert AddPiece(a, hash, st, [0]) == Made(Heap([c], End(c)), [Entry(c.loc, 1)]);
    assert Find([c], 7) == c.loc;
    var r := AddAll(a, hash, st, [[0], [1]]);
    assert r == Made(Heap([c], End(c)), [Entry(c.loc, 1), Entry(c.loc, 1)]);
    assert r.heap.cs[0].data == [0];
  }
}
