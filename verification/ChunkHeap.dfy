/**
  The chunk area as a value: a table of buckets, followed by chunks that are only ever added.

  `cs` lists the chunks in the order in which they were added.  Each bucket holds the location of the
  chunk last added to it, and each chunk the location of the one before it in the same bucket, so the
  chain of a bucket runs through earlier and earlier chunks.
*/
module ChunkHeap {
  import opened Arith
  import opened Bytes

  const HEAD_SIZE: nat := 24
  const BUCKET_SIZE: nat := 8
  datatype Chunk = Chunk(loc: nat, hash: nat, data: seq<Byte>, next: nat)

  /** Where the area lies: the table from `table` on, `buckets` buckets, then the heap up to `max`. */
  datatype Area = Area(bs: nat, table: nat, buckets: nat, max: nat)

  /** The block size is a power of two; the table starts, and the device ends, at a block. */
  predicate AreaOk(a: Area) {
    && a.bs >= 1024 && a.bs % 16 == 0 && U32 % a.bs == 0 && 0 < a.table && a.table % a.bs == 0 && a.buckets > 0
    && a.max % a.bs == 0 && a.table + BUCKET_SIZE * a.buckets <= a.max
  }

  function HeapStart(a: Area): nat {
    a.table + BUCKET_SIZE * a.buckets
  }

  function End(c: Chunk): nat {
    c.loc + HEAD_SIZE + |c.data|
  }

  /** The 24 bytes of `struct chunk_head`. */
  function HeadBytes(c: Chunk): (s: seq<Byte>)
    ensures |s| == HEAD_SIZE
  {
    Enc(c.hash, 8) + Enc(|c.data|, 4) + Enc(0, 2) + Enc(0, 2) + Enc(c.next, 8)
  }

  function BucketOf(a: Area, hash: nat): (b: nat)
    requires a.buckets > 0
    ensures b < a.buckets
  {
    hash % a.buckets
  }

  /** The hashes of a bucket are its number and those that differ from it by a multiple of the number of buckets. */
  lemma BucketIs(a: Area, b: nat, k: nat)
    requires b < a.buckets
    ensures BucketOf(a, k * a.buckets + b) == b
  {
    DivUnique(k, b, a.buckets);
  }

  /** The chunk last added to a bucket. */
  function Head(a: Area, cs: seq<Chunk>, b: nat): nat
    requires a.buckets > 0
  {
    if cs == [] then 0
    else if BucketOf(a, cs[|cs| - 1].hash) == b then cs[|cs| - 1].loc
    else Head(a, cs[..|cs| - 1], b)
  }

  /** The chunk last added with a given hash: the abstract map from hashes to locations. */
  function Find(cs: seq<Chunk>, hash: nat): nat {
    if cs == [] then 0
    else if cs[|cs| - 1].hash == hash then cs[|cs| - 1].loc
    else Find(cs[..|cs| - 1], hash)
  }

  /** The end of the last chunk, or of the table. */
  function LastEnd(a: Area, cs: seq<Chunk>): nat {
    if cs == [] then HeapStart(a) else End(cs[|cs| - 1])
  }

  /** Less than a header is lost before each chunk, and nothing after the last. */
  predicate Tight(a: Area, cs: seq<Chunk>, brk: nat) {
    && brk == LastEnd(a, cs)
    && (cs != [] ==>
          var rest := cs[..|cs| - 1];
          cs[|cs| - 1].loc < LastEnd(a, rest) + HEAD_SIZE && Tight(a, rest, LastEnd(a, rest)))
  }

  /** Chunks lie one after the other between the table and the break, each header within one block, with
      less than a header lost between them. */
  predicate Laid(a: Area, cs: seq<Chunk>, brk: nat)
    requires AreaOk(a)
  {
    && HeapStart(a) <= brk <= a.max
    && (forall i :: 0 <= i < |cs| ==> HeapStart(a) <= cs[i].loc && End(cs[i]) <= brk)
    && (forall i, j :: 0 <= i < j < |cs| ==> End(cs[i]) <= cs[j].loc)
    && (forall i :: 0 <= i < |cs| ==>
       cs[i].hash < U64 && 0 < |cs[i].data| < U32 && cs[i].loc % a.bs + HEAD_SIZE <= a.bs)
    && Tight(a, cs, brk)
  }

  /** Each chunk names the one before it in its bucket. */
  predicate Chained(a: Area, cs: seq<Chunk>)
    requires a.buckets > 0
  {
    forall i :: 0 <= i < |cs| ==> cs[i].next == Head(a, cs[..i], BucketOf(a, cs[i].hash))
  }

  /** The bytes of a chunk are on the device, whose part from `a.table` on is `t`. */
  predicate Stored(a: Area, t: seq<Byte>, c: Chunk) {
    && a.table <= c.loc && End(c) - a.table <= |t|
    && Sub(t, c.loc - a.table, HEAD_SIZE) == HeadBytes(c)
    && Sub(t, c.loc - a.table + HEAD_SIZE, |c.data|) == c.data
  }

  predicate BucketStored(a: Area, t: seq<Byte>, cs: seq<Chunk>, b: nat)
    requires a.buckets > 0
  {
    BUCKET_SIZE * b + 8 <= |t| && Sub(t, BUCKET_SIZE * b, 8) == Enc(Head(a, cs, b), 8)
  }

  /** The on-disk table and heap agree with the list of chunks. */
  ghost predicate Store(a: Area, t: seq<Byte>, cs: seq<Chunk>, brk: nat) {
    && AreaOk(a) && a.max <= U64 && |t| == a.max - a.table && Laid(a, cs, brk) && Chained(a, cs)
    && (forall i :: 0 <= i < |cs| ==> Stored(a, t, cs[i]))
    && (forall b :: 0 <= b < a.buckets ==> BucketStored(a, t, cs, b))
  }

  // ---------------------------------------------------------------- chains

  /** A head is 0 or the location of a chunk of that bucket, and nothing later is in the bucket. */
  lemma {:induction false} HeadIsLast(a: Area, cs: seq<Chunk>, b: nat) returns (j: nat)
    requires a.buckets > 0 && Head(a, cs, b) != 0
    ensures j < |cs| && Head(a, cs, b) == cs[j].loc && BucketOf(a, cs[j].hash) == b
    ensures forall h :: BucketOf(a, h) == b ==> Find(cs, h) == Find(cs[..j + 1], h)
    decreases |cs|
  {
    var n := |cs| - 1;
    if BucketOf(a, cs[n].hash) == b {
      j := n;
      assert cs[..n + 1] == cs;
    } else {
      j := HeadIsLast(a, cs[..n], b);
      assert cs[..n][..j + 1] == cs[..j + 1];
    }
  }

  lemma {:induction false} NoHead(a: Area, cs: seq<Chunk>, h: nat)
    requires a.buckets > 0 && Head(a, cs, BucketOf(a, h)) == 0 && forall i :: 0 <= i < |cs| ==> cs[i].loc != 0
    ensures Find(cs, h) == 0
    decreases |cs|
  {
    if cs != [] {
      NoHead(a, cs[..|cs| - 1], h);
    }
  }

  /** Search returns a location exactly when a chunk with that hash was added, namely its location. */
  lemma {:induction false} FindIsMap(cs: seq<Chunk>, hash: nat)
    requires forall i :: 0 <= i < |cs| ==> cs[i].loc != 0
    ensures Find(cs, hash) != 0 <==> exists i :: 0 <= i < |cs| && cs[i].hash == hash
    ensures Find(cs, hash) != 0 ==> exists i :: 0 <= i < |cs| && cs[i].hash == hash && cs[i].loc == Find(cs, hash)
    decreases |cs|
  {
    if cs != [] {
      var n := |cs| - 1;
      FindIsMap(cs[..n], hash);
      if cs[n].hash != hash && Find(cs[..n], hash) != 0 {
        var i :| 0 <= i < |cs[..n]| && cs[..n][i].hash == hash && cs[..n][i].loc == Find(cs, hash);
        assert cs[i].hash == hash;
      }
    }
  }

  /** The next location in a chain is smaller. */
  lemma {:induction false} ChainDescends(a: Area, cs: seq<Chunk>, brk: nat, i: nat)
    requires AreaOk(a) && Laid(a, cs, brk) && Chained(a, cs) && i < |cs|
    ensures cs[i].next < cs[i].loc
  {
    if cs[i].next != 0 {
      var j := HeadIsLast(a, cs[..i], BucketOf(a, cs[i].hash));
      assert End(cs[j]) <= cs[i].loc;
    }
  }

  // ---------------------------------------------------------------- allocation

  /** block_no: the block of a byte offset, in 32 bits. */
  function BlockNo(off: nat, bs: nat): nat
    requires bs > 0
  {
    Rem(Quot(off, bs), U32)
  }

  /** Where chunk_alloc puts a chunk: at the break, or at the next block if the header would straddle
      a boundary; that product is computed in 32 bits. */
  function Place(brk: nat, bs: nat): nat
    requires bs > 0
  {
    if BlockNo(brk, bs) != BlockNo(brk + HEAD_SIZE - 1, bs) then Rem(Times(BlockNo(brk, bs) + 1, bs), U32) else brk
  }

  /** Below 4 GiB a chunk is placed at the break or at most 23 bytes after it, with its header inside
      one block. */
  lemma PlaceFits(brk: nat, bs: nat)
    requires bs >= 1024 && bs % 16 == 0 && brk + HEAD_SIZE <= U32
    ensures brk <= Place(brk, bs) < brk + HEAD_SIZE
    ensures Place(brk, bs) % bs + HEAD_SIZE <= bs
    ensures Place(brk, bs) == if brk % bs + 24 <= bs then brk else brk - brk % bs + bs
  {
    NextBlock(brk, bs);
    PlaceIs(brk, bs);
    hide Quot, Rem, Times, Place;
    RemU32(Times(Quot(brk, bs) + 1, bs));
    RemIs(brk, bs);
  }

  /** The header at `brk` would run over the end of its block. */
  predicate Straddles(brk: nat, bs: nat)
    requires bs > 0
  {
    Rem(brk, bs) + HEAD_SIZE > bs
  }

  /** Where the next block starts. */
  lemma NextBlock(brk: nat, bs: nat)
    requires bs > 0
    ensures Rem(brk, bs) < bs && Rem(brk, bs) <= brk && Quot(brk, bs) <= brk
    ensures var x := Times(Quot(brk, bs) + 1, bs); x == brk - Rem(brk, bs) + bs && x % bs == 0
    ensures bs >= 1024 && brk <= U32 ==> Quot(brk, bs) + 1 < U32
  {
    var q := Quot(brk, bs);
    DivMod(brk, bs, 0);
    assert (q + 1) * bs == q * bs + bs;
    DivUnique(q + 1, 0, bs);
    MulMono(q, q, 1, bs);
    if bs >= 1024 { MulMono(q, q, 1024, bs); }
  }

  lemma RemU32(x: nat)
    ensures x < U32 ==> Rem(x, U32) == x
    ensures x >= U32 ==> Rem(x, U32) <= x - U32
  {}

  lemma RemIs(x: nat, n: nat)
    requires n > 0
    ensures x % n == Rem(x, n)
  {}

  lemma PlaceIs(brk: nat, bs: nat)
    requires bs >= 1024 && bs % 16 == 0 && Quot(brk, bs) + 1 < U32
    ensures Place(brk, bs) == if Straddles(brk, bs) then Rem(Times(Quot(brk, bs) + 1, bs), U32) else brk
  {
    hide BlockNo;
    var q, r := Quot(brk, bs), Rem(brk, bs);
    DivMod(brk, bs, 0);
    BlockNoIs(brk, q, r, bs);
    if r + HEAD_SIZE - 1 < bs {
      BlockNoIs(brk + HEAD_SIZE - 1, q, r + HEAD_SIZE - 1, bs);
    } else {
      assert (q + 1) * bs == q * bs + bs;
      BlockNoIs(brk + HEAD_SIZE - 1, q + 1, r + HEAD_SIZE - 1 - bs, bs);
    }
  }

  lemma BlockNoIs(x: nat, q: nat, r: nat, bs: nat)
    requires r < bs && x == q * bs + r && q < U32
    ensures BlockNo(x, bs) == q
  {
    DivUnique(q, r, bs);
  }

  /** The 32-bit product is the only thing that can go wrong: allocation moves forward exactly when
      the header does not straddle or the next block starts below 4 GiB. */
  lemma PlaceExactly(brk: nat, bs: nat)
    requires bs >= 1024 && bs % 16 == 0 && Quot(brk, bs) + 1 < U32
    ensures brk <= Place(brk, bs) <==> !Straddles(brk, bs) || Times(Quot(brk, bs) + 1, bs) < U32
    ensures Place(brk, bs) == if brk % bs + 24 <= bs then brk else (brk - brk % bs + bs) % U32
    ensures Place(0x1_0000_03F0, 1024) == 0x400
  {
    NextBlock(brk, bs);
    PlaceIs(brk, bs);
    FallsBack();
    hide Quot, Rem, Times, Place;
    RemU32(Times(Quot(brk, bs) + 1, bs));
  }

  lemma FallsBack()
    ensures Place(0x1_0000_03F0, 1024) == 0x400
  {}

  /** A new chunk after the others. */
  lemma {:induction false} AllocLaid(a: Area, cs: seq<Chunk>, brk: nat, c: Chunk)
    requires AreaOk(a) && a.max < U32 && Laid(a, cs, brk)
    requires c.loc == Place(brk, a.bs) && End(c) < a.max && c.hash < U64 && 0 < |c.data| < U32
    ensures Laid(a, cs + [c], End(c)) && brk <= c.loc < brk + HEAD_SIZE
  {
    hide Tight, Place;
    BelowLast(brk, a.bs, a.max);
    PlaceFits(brk, a.bs);
    TightMore(a, cs, brk, c);
  }

  lemma TightMore(a: Area, cs: seq<Chunk>, brk: nat, c: Chunk)
    requires Tight(a, cs, brk) && c.loc < brk + HEAD_SIZE
    ensures Tight(a, cs + [c], End(c))
  {
    assert (cs + [c])[..|cs|] == cs;
  }

  /** The bytes that the chunks hold. */
  function Payload(cs: seq<Chunk>): nat {
    if cs == [] then 0 else Payload(cs[..|cs| - 1]) + |cs[|cs| - 1].data|
  }

  lemma PayloadMore(cs: seq<Chunk>, c: Chunk)
    ensures Payload([]) == 0 && Payload(cs + [c]) == Payload(cs) + |c.data|
  {
    assert (cs + [c])[..|cs|] == cs;
  }

  /** What the heap takes up: the data, and for each chunk its header and less than another one. */
  lemma {:induction false} HeapBound(a: Area, cs: seq<Chunk>, brk: nat)
    requires Tight(a, cs, brk)
    ensures brk <= HeapStart(a) + Payload(cs) + (2 * HEAD_SIZE - 1) * |cs|
    decreases |cs|
  {
    if cs != [] {
      HeapBound(a, cs[..|cs| - 1], LastEnd(a, cs[..|cs| - 1]));
    }
  }

  lemma BelowLast(brk: nat, bs: nat, max: nat)
    requires bs >= 1024 && brk <= max < U32 && max % bs == 0 && U32 % bs == 0
    ensures brk + HEAD_SIZE <= U32
  {
    DivMod(max, bs, 0);
    DivMod(U32, bs, 0);
    var p, q := max / bs, U32 / bs;
    if p >= q {
      MulMono(q, p, bs, bs);
    } else {
      MulMono(p + 1, q, bs, bs);
    }
  }

  // ---------------------------------------------------------------- adding a chunk

  /** The bytes after the bucket, the header and the data of a new chunk have been written. */
  function Written(a: Area, t: seq<Byte>, c: Chunk): (r: seq<Byte>)
    requires a.buckets > 0 && BUCKET_SIZE * a.buckets <= |t| && a.table <= c.loc && End(c) - a.table <= |t|
    ensures |r| == |t|
  {
    var o := c.loc - a.table;
    Put(Put(Put(t, BUCKET_SIZE * BucketOf(a, c.hash), Enc(c.loc, 8)), o, HeadBytes(c)), o + HEAD_SIZE, c.data)
  }

  /** The new bytes are there, and outside the bucket and the new extent nothing has changed. */
  lemma WrittenBytes(a: Area, t: seq<Byte>, c: Chunk, o: nat, n: nat)
    requires a.buckets > 0 && BUCKET_SIZE * a.buckets <= |t| && HeapStart(a) <= c.loc && End(c) - a.table <= |t|
    requires o + n <= |t|
    ensures var r, b := Written(a, t, c), BUCKET_SIZE * BucketOf(a, c.hash);
      && Sub(r, b, 8) == Enc(c.loc, 8) && Stored(a, r, c)
      && ((o + n <= b || b + 8 <= o) && (o + n <= c.loc - a.table || End(c) - a.table <= o) ==>
         Sub(r, o, n) == Sub(t, o, n))
  {
    hide BucketOf, HeadBytes;
    var b, l := BUCKET_SIZE * BucketOf(a, c.hash), c.loc - a.table;
    var e := Enc(c.loc, 8);
    var h := HeadBytes(c);
    var t1 := Put(t, b, e);
    var t2 := Put(t1, l, h);
    SubPut(t, b, e, b, 8);
    SubPut(t1, l, h, b, 8);
    SubPut(t2, l + HEAD_SIZE, c.data, b, 8);
    assert e[0..8] == e;
    SubPut(t1, l, h, l, HEAD_SIZE);
    SubPut(t2, l + HEAD_SIZE, c.data, l, HEAD_SIZE);
    assert h[0..HEAD_SIZE] == h;
    SubPut(t2, l + HEAD_SIZE, c.data, l + HEAD_SIZE, |c.data|);
    assert c.data[0..|c.data|] == c.data;
    SubPut(t, b, e, o, n);
    SubPut(t1, l, h, o, n);
    SubPut(t2, l + HEAD_SIZE, c.data, o, n);
  }

  lemma HeadSnoc(a: Area, cs: seq<Chunk>, c: Chunk, b: nat)
    requires a.buckets > 0
    ensures Head(a, cs + [c], b) == if BucketOf(a, c.hash) == b then c.loc else Head(a, cs, b)
  {
    assert (cs + [c])[..|cs|] == cs;
  }

  /** Adding a chunk keeps the store in order: no earlier chunk is touched, and its chain is linked in. */
  lemma {:induction false} StoreAdd(a: Area, t: seq<Byte>, cs: seq<Chunk>, brk: nat, c: Chunk)
    requires Store(a, t, cs, brk) && a.max < U32
    requires c.loc == Place(brk, a.bs) && End(c) < a.max && c.hash < U64 && 0 < |c.data| < U32
    requires c.next == Head(a, cs, BucketOf(a, c.hash))
    ensures a.table <= c.loc && Store(a, Written(a, t, c), cs + [c], End(c))
  {
    hide Place, Tight, Stored, BucketStored, Written, HeadBytes;
    AllocLaid(a, cs, brk, c);
    var all := cs + [c];
    AddChained(a, cs, c);
    forall i | 0 <= i < |all|
      ensures Stored(a, Written(a, t, c), all[i])
    {
      if i < |cs| {
        StoredStays(a, t, c, cs[i]);
      } else {
        WrittenBytes(a, t, c, 0, 0);
      }
    }
    forall b | 0 <= b < a.buckets
      ensures BucketStored(a, Written(a, t, c), all, b)
    {
      BucketAdds(a, t, cs, c, b);
    }
  }

  lemma AddChained(a: Area, cs: seq<Chunk>, c: Chunk)
    requires a.buckets > 0 && Chained(a, cs) && c.next == Head(a, cs, BucketOf(a, c.hash))
    ensures Chained(a, cs + [c])
  {
    var all := cs + [c];
    forall i | 0 <= i < |all|
      ensures all[i].next == Head(a, all[..i], BucketOf(a, all[i].hash))
    {
      assert all[..i] == cs[..i];
      assert i == |cs| ==> cs[..i] == cs;
    }
  }

  /** An earlier chunk keeps its bytes. */
  lemma StoredStays(a: Area, t: seq<Byte>, c: Chunk, d: Chunk)
    requires a.buckets > 0 && BUCKET_SIZE * a.buckets <= |t| && End(c) - a.table <= |t|
    requires HeapStart(a) <= d.loc && End(d) <= c.loc && Stored(a, t, d)
    ensures Stored(a, Written(a, t, c), d)
  {
    hide Written, HeadBytes;
    var l := d.loc - a.table;
    WrittenBytes(a, t, c, l, HEAD_SIZE);
    WrittenBytes(a, t, c, l + HEAD_SIZE, |d.data|);
  }

  lemma BucketAdds(a: Area, t: seq<Byte>, cs: seq<Chunk>, c: Chunk, b: nat)
    requires a.buckets > 0 && BUCKET_SIZE * a.buckets <= |t| && HeapStart(a) <= c.loc && End(c) - a.table <= |t|
    requires b < a.buckets && BucketStored(a, t, cs, b)
    ensures BucketStored(a, Written(a, t, c), cs + [c], b)
  {
    hide Written, HeadBytes;
    HeadSnoc(a, cs, c, b);
    WrittenBytes(a, t, c, BUCKET_SIZE * b, 8);
  }

  /** A table of zeros and no chunks. */
  lemma StoreReset(a: Area, t: seq<Byte>)
    requires AreaOk(a) && a.max <= U64 && |t| == a.max - a.table
    ensures Store(a, Put(t, 0, Zeros(BUCKET_SIZE * a.buckets)), [], HeapStart(a))
  {
    var z := Zeros(BUCKET_SIZE * a.buckets);
    forall b | 0 <= b < a.buckets
      ensures BucketStored(a, Put(t, 0, z), [], b)
    {
      SubPut(t, 0, z, BUCKET_SIZE * b, 8);
      EncZero(8);
      assert z[BUCKET_SIZE * b..BUCKET_SIZE * b + 8] == Zeros(8);
    }
  }

  lemma {:induction false} EncZero(n: nat)
    ensures Enc(0, n) == Zeros(n)
  {
    if n > 0 {
      EncZero(n - 1);
      assert Zeros(n) == [0] + Zeros(n - 1);
    }
  }

  /** The fields of a header. */
  lemma HeadFields(c: Chunk)
    requires c.hash < U64 && c.next < U64
    ensures Dec(Sub(HeadBytes(c), 0, 8)) == c.hash && Dec(Sub(HeadBytes(c), 16, 8)) == c.next
    ensures |c.data| < U32 ==> Dec(Sub(HeadBytes(c), 8, 4)) == |c.data|
  {
    hide Enc, Dec, Sub;
    Pow256Is();
    if |c.data| < U32 {
      DecEnc(|c.data|, 4);
    }
    DecEnc(c.hash, 8);
    DecEnc(c.next, 8);
    HeadSlices(Enc(c.hash, 8), Enc(|c.data|, 4), Enc(0, 2), Enc(0, 2), Enc(c.next, 8));
  }

  lemma HeadSlices(a: seq<Byte>, b: seq<Byte>, c: seq<Byte>, d: seq<Byte>, e: seq<Byte>)
    requires |a| == 8 && |b| == 4 && |c| == 2 && |d| == 2 && |e| == 8
    ensures Sub(a + b + c + d + e, 0, 8) == a && Sub(a + b + c + d + e, 16, 8) == e
    ensures Sub(a + b + c + d + e, 8, 4) == b
  {}

  /** A bucket does not straddle a block boundary. */
  lemma BucketInBlock(a: Area, b: nat)
    requires AreaOk(a) && b < a.buckets
    ensures (a.table + BUCKET_SIZE * b) % a.bs + 8 <= a.bs
  {
    var q := a.table / a.bs;
    DivMod(a.table, a.bs, 0);
    ModAddMul(q, BUCKET_SIZE * b, a.bs);
    EightMod(b, a.bs);
  }

  lemma EightMod(b: nat, bs: nat)
    requires bs >= 1024 && bs % 16 == 0
    ensures (8 * b) % bs + 8 <= bs
  {
    var k := bs / 8;
    var q, r := Quot(b, k), Rem(b, k);
    DivMod(b, k, 0);
    EightTimes(b, q, r, k);
    DivUnique(q, 8 * r, bs);
  }

  lemma EightTimes(b: nat, q: nat, r: nat, k: nat)
    requires b == q * k + r
    ensures 8 * b == q * (8 * k) + 8 * r
  {}
}
