/** How many blocks a file without holes takes up, its indirect blocks included (itree_common.c). */
module BlockCount {
  import opened Arith
  import opened Geometry
  import opened BlockPath
  import opened Trees
  import opened Itree

  /** What is left of `a` after `b`. */
  function Beyond(a: nat, b: nat): nat {
    if a < b then 0 else a - b
  }

  function Ceil(m: nat, n: nat): nat
    requires n > 0
  {
    Quot(m + n - 1, n)
  }

  /** Data blocks below a slot of height `h`. */
  function Leaves(h: nat, n: nat): nat {
    if h == 0 then 1 else Times(n, Leaves(h - 1, n))
  }

  /** Blocks of a tree of height `h` whose first `m` data blocks are there and no others. */
  function Count(h: nat, m: nat, n: nat): nat
    decreases h, 0
  {
    if m == 0 then 0 else if h == 0 then 1 else 1 + CountKids(h - 1, m, n, n)
  }

  function CountKids(h: nat, m: nat, n: nat, k: nat): nat
    decreases h, k + 1
  {
    if k == 0 then 0
    else
      var x := Min(m, Leaves(h, n));
      Count(h, x, n) + CountKids(h, m - x, n, k - 1)
  }

  /** Blocks of a file of `b` data blocks, slot by slot of its inode. */
  function DenseCount(b: nat, n: nat): nat {
    var r1 := Beyond(b, DIRECT);
    var r2 := Beyond(r1, Leaves(1, n));
    var r3 := Beyond(r2, Leaves(2, n));
    Min(b, DIRECT) + Count(1, Min(r1, Leaves(1, n)), n) + Count(2, Min(r2, Leaves(2, n)), n)
      + Count(3, Min(r3, Leaves(3, n)), n)
  }

  // ---------------------------------------------------------------- level by level

  lemma LeavesPositive(h: nat, n: nat)
    requires n > 0
    ensures Leaves(h, n) > 0
  {
    if h > 0 {
      LeavesPositive(h - 1, n);
      MulMono(1, n, 1, Leaves(h - 1, n));
    }
  }

  lemma CeilIs(m: nat, n: nat, q: nat)
    requires n > 0
    ensures m == 0 <==> Ceil(m, n) == 0
    ensures m <= q * n <==> Ceil(m, n) <= q
    ensures m <= q * n ==> Ceil(q * n - m, n) <= q
    ensures Ceil(m + q * n, n) == Ceil(m, n) + q
  {
    var c := Ceil(m, n);
    DivMod(m + n - 1, n, q + 1);
    assert c * n <= m + n - 1 < c * n + n;
    if m <= q * n {
      assert m + n - 1 < (q + 1) * n;
      DivMod(q * n - m + n - 1, n, q + 1);
    } else if c <= q {
      MulMono(c, q, n, n);
    }
    ModAddMul(q, m + n - 1, n);
    if m == 0 { DivUnique(0, n - 1, n); }
    if c == 0 { assert c * n == 0; }
  }

  /** Cutting off a whole number of blocks. */
  lemma CeilSplit(m: nat, n: nat, p: nat)
    requires n > 0
    ensures Ceil(Min(m, Times(n, p)), n) == Min(Ceil(m, n), p)
    ensures Ceil(m - Min(m, Times(n, p)), n) == Ceil(m, n) - Min(Ceil(m, n), p)
  {
    assert Times(n, p) == p * n;
    CeilIs(m, n, p);
    if m <= p * n {
      CeilIs(0, n, 0);
    } else {
      CeilIs(m - p * n, n, p);
      CeilIs(0, n, p);
    }
  }

  /** The lowest indirect blocks are the leaves of a tree that is one level lower. */
  lemma {:induction false} Collapse(h: nat, m: nat, n: nat)
    requires n > 0 && h > 0 && m <= Leaves(h, n)
    ensures Count(h, m, n) == m + Count(h - 1, Ceil(m, n), n)
    decreases h, 0
  {
    CeilIs(m, n, 1);
    if m > 0 {
      if h == 1 {
        CountLeaves(m, n, n);
        assert Leaves(1, n) == n * Leaves(0, n) == n;
      } else {
        assert Leaves(h, n) == n * Leaves(h - 1, n);
        CollapseKids(h - 1, m, n, n);
      }
    }
  }

  lemma {:induction false} CountLeaves(m: nat, n: nat, k: nat)
    requires m <= k
    ensures CountKids(0, m, n, k) == m
    decreases k
  {
    if k > 0 {
      CountLeaves(m - Min(m, 1), n, k - 1);
    }
  }

  lemma {:induction false} CollapseKids(h: nat, m: nat, n: nat, k: nat)
    requires n > 0 && h > 0 && m <= k * Leaves(h, n)
    ensures CountKids(h, m, n, k) == m + CountKids(h - 1, Ceil(m, n), n, k)
    decreases h, k + 1
  {
    if k > 0 {
      var p := Leaves(h, n);
      var x := Min(m, p);
      assert k * p == (k - 1) * p + p;
      MulMono(0, k - 1, 0, p);
      Collapse(h, x, n);
      CollapseKids(h, m - x, n, k - 1);
      CeilSplit(m, n, Leaves(h - 1, n));
    }
  }

  lemma CountRoot(m: nat, n: nat)
    requires m <= 1
    ensures Count(0, m, n) == m
  {}

  /** The counts of the three trees, as sums over their levels. */
  lemma {:induction false} CountByLevel(m: nat, n: nat)
    requires n > 0
    ensures m <= Leaves(1, n) ==> Count(1, m, n) == m + Ceil(m, n)
    ensures m <= Leaves(2, n) ==> Count(2, m, n) == m + Ceil(m, n) + Ceil(Ceil(m, n), n)
    ensures m <= Leaves(3, n) ==> Count(3, m, n) == m + Ceil(m, n) + Ceil(Ceil(m, n), n) + Ceil(Ceil(Ceil(m, n), n), n)
  {
    hide Count, Leaves, Ceil;
    var c := Ceil(m, n);
    var d := Ceil(c, n);
    CeilBelow(0, m, n);
    CeilBelow(1, m, n);
    CeilBelow(2, m, n);
    CeilBelow(0, c, n);
    CeilBelow(1, c, n);
    CeilBelow(0, d, n);
    OneLeaf(n);
    if m <= Leaves(1, n) { Collapse(1, m, n); CountRoot(c, n); }
    if m <= Leaves(2, n) { Collapse(2, m, n); Collapse(1, c, n); CountRoot(d, n); }
    if m <= Leaves(3, n) { Collapse(3, m, n); Collapse(2, c, n); Collapse(1, d, n); CountRoot(Ceil(d, n), n); }
  }

  lemma OneLeaf(n: nat)
    ensures Leaves(0, n) == 1
  {}

  lemma CeilBelow(h: nat, m: nat, n: nat)
    requires n > 0
    ensures m <= Leaves(h + 1, n) ==> Ceil(m, n) <= Leaves(h, n)
  {
    CeilIs(m, n, Leaves(h, n));
  }

  // ---------------------------------------------------------------- nblocks

  /** What the loop of nblocks has still to add. */
  function Rounds(blocks: nat, direct: nat, i: nat, n: nat): nat
    requires n > 0
    decreases i
  {
    if i <= 1 || blocks <= direct then 0
    else var c := Ceil(blocks - direct, n); c + Rounds(c, 1, i - 1, n)
  }

  /** The rounds of the loop add up to the levels of the trees. */
  lemma {:induction false} RoundsAreLevels(b: nat, n: nat)
    requires n > 0 && b <= Capacity(n)
    ensures b + Rounds(b, DIRECT, DEPTH, n) == DenseCount(b, n)
  {
    hide Leaves, Count, Rounds, Ceil, Capacity;
    LeavesAre(n);
    var l1, l2, l3 := Leaves(1, n), Leaves(2, n), Leaves(3, n);
    var r1 := Beyond(b, DIRECT);
    var r2 := Beyond(r1, l1);
    var r3 := Beyond(r2, l2);
    var x, y, w := Min(r1, l1), Min(r2, l2), Min(r3, l3);
    CountByLevel(x, n);
    CountByLevel(y, n);
    CountByLevel(w, n);
    CeilZero(n);
    if r1 > 0 {
      LevelSums(r1, x, y, w, n);
      RoundsUnrolled(b, n);
    } else {
      NoRounds(b, n);
    }
  }

  lemma CeilZero(n: nat)
    requires n > 0
    ensures Ceil(0, n) == 0 && Ceil(1, n) == 1
  {
    CeilIs(0, n, 0);
    CeilIs(1, n, 1);
  }

  lemma NoRounds(b: nat, n: nat)
    requires n > 0 && b <= DIRECT
    ensures Rounds(b, DIRECT, DEPTH, n) == 0
  {}

  lemma LeavesAre(n: nat)
    requires n > 0
    ensures Leaves(1, n) == n && Leaves(2, n) == n * n && n * n > 0 && Leaves(3, n) == n * (n * n)
    ensures Capacity(n) == DIRECT + Leaves(1, n) + Leaves(2, n) + Leaves(3, n)
  {
    assert Leaves(1, n) == n * Leaves(0, n);
    assert Leaves(2, n) == n * Leaves(1, n);
    assert Leaves(3, n) == n * Leaves(2, n);
    MulMono(1, n, 1, n);
    assert n * n * n == n * (n * n);
  }

  lemma RoundsUnrolled(b: nat, n: nat)
    requires n > 0 && b > DIRECT
    ensures var c1 := Ceil(b - DIRECT, n);
      && (c1 <= 1 ==> Rounds(b, DIRECT, DEPTH, n) == c1)
      && (c1 > 1 ==>
            var c2 := Ceil(c1 - 1, n);
            && (c2 <= 1 ==> Rounds(b, DIRECT, DEPTH, n) == c1 + c2)
            && (c2 > 1 ==> Rounds(b, DIRECT, DEPTH, n) == c1 + c2 + Ceil(c2 - 1, n)))
  {
    var c1 := Ceil(b - DIRECT, n);
    assert Rounds(b, DIRECT, 4, n) == c1 + Rounds(c1, 1, 3, n);
    if c1 > 1 {
      var c2 := Ceil(c1 - 1, n);
      assert Rounds(c1, 1, 3, n) == c2 + Rounds(c2, 1, 2, n);
      if c2 > 1 {
        var c3 := Ceil(c2 - 1, n);
        assert Rounds(c2, 1, 2, n) == c3 + Rounds(c3, 1, 1, n);
      }
    }
  }

  /** The three trees have, level by level, as many blocks as the loop counts. */
  lemma LevelSums(r: nat, x: nat, y: nat, w: nat, n: nat)
    requires n > 0 && r == x + y + w && r > 0 && x <= n && (y > 0 ==> x == n) && (w > 0 ==> y == n * n && y > 0)
    requires y <= n * n && w <= n * (n * n)
    ensures var c1 := Ceil(r, n);
      && Ceil(x, n) == 1 && c1 == 1 + Ceil(y, n) + Ceil(w, n) && Ceil(Ceil(x, n), n) == 1
      && var c2 := Ceil(c1 - 1, n);
      && c2 == Ceil(Ceil(y, n), n) + Ceil(Ceil(w, n), n) && (y > 0 ==> Ceil(Ceil(y, n), n) == 1)
      && (c2 > 1 ==> Ceil(c2 - 1, n) == Ceil(Ceil(Ceil(w, n), n), n)) && (c2 <= 1 ==> w == 0) && (c1 == 1 ==> y == 0)
  {
    CeilIs(x, n, 1);
    CeilIs(1, n, 1);
    CeilIs(y, n, n);
    CeilIs(w, n, n * n);
    CeilIs(0, n, 0);
    if y > 0 {
      CeilIs(y + w, n, 1);
      CeilIs(Ceil(y, n), n, 1);
      if w > 0 {
        CeilIs(w, n, n);
        CeilIs(0, n, n);
        assert Ceil(y, n) == n && Ceil(y + w, n) == n + Ceil(w, n);
        CeilIs(Ceil(w, n), n, 1);
        CeilIs(0, n, 1);
      }
    }
  }

  /** nblocks: repeated division, in 32-bit arithmetic, counts the blocks of a file without holes, for
      every size the tree can hold; the count is right exactly when it fits in 32 bits. */
  method NBlocks(size: nat, bs: nat) returns (res: nat)
    requires BlockSizeOk(bs) && Quot(size + bs - 1, bs) <= Capacity(bs / 4)
    ensures var count := DenseCount(Quot(size + bs - 1, bs), bs / 4);
      (res == count <==> count < U32) && (bs <= 4096 || size < U32 ==> res == count)
  {
    hide DenseCount, Capacity, Quot, Unsigned, Rounds;
    var n := bs / 4;
    ghost var b := Quot(size + bs - 1, bs);
    ghost var count := DenseCount(b, n);
    RoundsAreLevels(b, n);
    if bs <= 4096 || size < U32 {
      SmallSize(size, bs);
      SmallCount(b, n);
    }
    UnsignedIs(b);
    var blocks: nat := Unsigned(Quot(size + bs - 1, bs));
    var direct: nat, i: nat := DIRECT, DEPTH;
    res := blocks;
    i := i - 1;
    while i != 0 && blocks > direct
      invariant i < DEPTH && 0 < direct && res < U32
      invariant count < U32 ==> blocks <= res && res + Rounds(blocks, direct, i + 1, n) == count
      decreases i
    {
      if count < U32 {
        RoundIs(blocks, direct, n, i + 1);
        NoWrap(blocks - direct, n);
      }
      UnsignedIs(blocks - direct);
      blocks := Unsigned(blocks - direct);
      UnsignedIs(blocks + n - 1);
      blocks := Unsigned(blocks + n - 1);
      blocks := Quot(blocks, n);
      UnsignedIs(res + blocks);
      res := Unsigned(res + blocks);
      direct := 1;
      i := i - 1;
    }
    NoRound(blocks, direct, i + 1, n);
  }

  /** Arithmetic on `unsigned`. */
  function Unsigned(x: nat): nat {
    x % U32
  }

  lemma UnsignedIs(x: nat)
    ensures Unsigned(x) < U32 && (x < U32 ==> Unsigned(x) == x)
  {}

  lemma NoRound(blocks: nat, direct: nat, i: nat, n: nat)
    requires n > 0 && (i <= 1 || blocks <= direct)
    ensures Rounds(blocks, direct, i, n) == 0
  {}

  lemma CapacityBound(n: nat)
    requires 256 <= n <= 1024
    ensures Capacity(n) <= 0x4010_0407 && Capacity(n) < U32
  {
    MulMono(n, 1024, n, 1024);
    MulMono(n * n, 0x10_0000, n, 1024);
  }

  lemma RoundIs(blocks: nat, direct: nat, n: nat, i: nat)
    requires n > 0 && direct < blocks && i > 1
    ensures var c := Quot(blocks - direct + n - 1, n);
      c == Ceil(blocks - direct, n) && c <= blocks && Rounds(blocks, direct, i, n) == c + Rounds(c, 1, i - 1, n)
  {
    CeilIs(blocks - direct, n, blocks - direct);
    MulMono(blocks - direct, blocks - direct, 1, n);
  }

  /** If a number and its quotient together fit in 32 bits, rounding up does not wrap. */
  lemma NoWrap(x: nat, n: nat)
    requires 256 <= n <= 0x4000
    ensures x + Ceil(x, n) < U32 ==> x + n - 1 < U32
  {
    var c := Ceil(x, n);
    CeilIs(x, n, c);
    if c < n {
      MulMono(c, 0x4000, n, 0x4000);
    }
  }

  /** Up to a block size of 4096, and for sizes of 32 bits, every count fits. */
  lemma SmallCount(b: nat, n: nat)
    requires n >= 256 && b <= Capacity(n) && (b <= 0x40_0000 || n <= 1024)
    ensures DenseCount(b, n) < U32
  {
    hide DenseCount, Capacity, Rounds;
    if n <= 1024 {
      CapacityBound(n);
    }
    RoundsAreLevels(b, n);
    RoundsSmall(b, DIRECT, DEPTH, n);
  }

  lemma SmallSize(size: nat, bs: nat)
    requires bs >= 1024
    ensures size < U32 ==> Quot(size + bs - 1, bs) <= 0x40_0000
  {
    DivMod(size + bs - 1, bs, 0);
    if Quot(size + bs - 1, bs) > 0x40_0000 {
      MulMono(0x40_0000, Quot(size + bs - 1, bs) - 1, 1024, bs);
    }
  }

  lemma {:induction false} RoundsSmall(blocks: nat, direct: nat, i: nat, n: nat)
    requires n >= 256 && direct > 0
    ensures Rounds(blocks, direct, i, n) <= blocks
    decreases i
  {
    if i > 1 && blocks > direct {
      var c := Ceil(blocks - direct, n);
      CeilSmall(blocks - direct, n);
      RoundsSmall(c, 1, i - 1, n);
    }
  }

  lemma CeilSmall(m: nat, n: nat)
    requires n >= 256
    ensures 256 * Ceil(m, n) <= m + 255 && Ceil(m, n) <= m
  {
    var c := Ceil(m, n);
    CeilIs(m, n, m);
    MulMono(m, m, 1, n);
    DivMod(m + n - 1, n, 0);
    if c > 0 {
      assert c * n == (c - 1) * n + n;
      MulMono(c - 1, c - 1, 256, n);
    }
  }

  /** With blocks of 65536 bytes the tree has room for a file whose count does not fit; its size has more
      than 32 bits, which neither s_max_size nor i_size on the device has. */
  lemma CountTooLarge()
    ensures BlockSizeOk(0x1_0000) && U32 <= Capacity(0x4000) && DenseCount(U32, 0x4000) >= U32
  {
    hide DenseCount, Rounds;
    SizesOk();
    assert Capacity(0x4000) == DIRECT + 0x4000 + 0x1000_0000 + 0x400_0000_0000;
    RoundsAreLevels(U32, 0x4000);
  }

  // ---------------------------------------------------------------- counting a real tree

  /** The first `m` data blocks below a slot of height `h` are there, and no others. */
  predicate Dense(t: Tree, h: nat, m: nat, n: nat)
    decreases h, 0, 0
  {
    if m == 0 then t.Empty?
    else t.Node? && if h == 0 then t.kids == [] else |t.kids| == n && DenseKids(t.kids, h - 1, m, n)
  }

  predicate DenseKids(ks: seq<Tree>, h: nat, m: nat, n: nat)
    decreases h, 1, |ks|
  {
    ks != [] ==>
      var x := Min(m, Leaves(h, n));
      Dense(ks[0], h, x, n) && DenseKids(ks[1..], h, m - x, n)
  }

  lemma {:induction false} FirstZones(ks: seq<Tree>)
    requires ks != [] && SepAll(ks)
    ensures ZonesAll(ks) == Zones(ks[0]) + ZonesAll(ks[1..]) && Zones(ks[0]) !! ZonesAll(ks[1..]) && SepAll(ks[1..])
      && Sep(ks[0])
  {
    forall z | z in ZonesAll(ks)
      ensures z in Zones(ks[0]) + ZonesAll(ks[1..])
    {
      var i :| 0 <= i < |ks| && z in Zones(ks[i]);
      assert i > 0 ==> ks[i] == ks[1..][i - 1];
    }
  }

  lemma {:induction false} DenseZones(t: Tree, h: nat, m: nat, n: nat)
    requires Dense(t, h, m, n) && Sep(t)
    ensures |Zones(t)| == Count(h, m, n)
    decreases h, 0, 0
  {
    hide *;
    DenseParts(t, h, m, n);
    if m > 0 && h > 0 {
      DenseKidsZones(t.kids, h - 1, m, n);
    }
  }

  lemma DenseParts(t: Tree, h: nat, m: nat, n: nat)
    requires Dense(t, h, m, n) && Sep(t)
    ensures m == 0 || h == 0 ==> |Zones(t)| == Count(h, m, n)
    ensures m > 0 && h > 0 ==>
      && t.Node? && |t.kids| == n && DenseKids(t.kids, h - 1, m, n) && SepAll(t.kids) && t.zone !in ZonesAll(t.kids)
      && |Zones(t)| == 1 + |ZonesAll(t.kids)| && Count(h, m, n) == 1 + CountKids(h - 1, m, n, n)
  {
    hide CountKids, DenseKids, SepAll;
    if m > 0 && h == 0 {
      assert ZonesAll(t.kids) == {};
    }
  }

  lemma {:induction false} DenseKidsZones(ks: seq<Tree>, h: nat, m: nat, n: nat)
    requires DenseKids(ks, h, m, n) && SepAll(ks)
    ensures |ZonesAll(ks)| == CountKids(h, m, n, |ks|)
    decreases h, 1, |ks|
  {
    hide LoadAll, ZonesAll, WellFormedAll, SepAll, FullAll;
    if ks == [] {
      NoKids(h, m, n);
    } else {
      var x := Min(m, Leaves(h, n));
      FirstZones(ks);
      DenseZones(ks[0], h, x, n);
      DenseKidsZones(ks[1..], h, m - x, n);
    }
  }

  lemma NoKids(h: nat, m: nat, n: nat)
    ensures |ZonesAll([])| == 0 && CountKids(h, m, n, 0) == 0
  {
    assert ZonesAll([]) == {};
  }

  // ---------------------------------------------------------------- from the mapping to the shape

  predicate InRange(p: seq<nat>, n: nat) {
    forall i :: 0 <= i < |p| ==> p[i] < n
  }

  /** The number of a data block below a slot. */
  function LeafNo(p: seq<nat>, n: nat): nat {
    if p == [] then 0 else Times(p[0], Leaves(|p| - 1, n)) + LeafNo(p[1..], n)
  }

  predicate LeafAt(t: Tree, p: seq<nat>)
    decreases |p|
  {
    t.Node? && (p != [] ==> p[0] < |t.kids| && LeafAt(t.kids[p[0]], p[1..]))
  }

  lemma {:induction false} LeafNoBound(p: seq<nat>, n: nat)
    requires InRange(p, n)
    ensures LeafNo(p, n) < Leaves(|p|, n)
    decreases |p|
  {
    if p != [] {
      LeafNoBound(p[1..], n);
      var l := Leaves(|p| - 1, n);
      DigitsBound(p[0], LeafNo(p[1..], n), l, n);
    }
  }

  /** Below a slot of height `h` exactly the data blocks before `m` are there. */
  ghost predicate Exactly(t: Tree, h: nat, m: nat, n: nat) {
    forall p {:trigger LeafAt(t, p)} :: |p| == h && InRange(p, n) ==> (LeafAt(t, p) <==> LeafNo(p, n) < m)
  }

  ghost predicate ExactlyKids(ks: seq<Tree>, h: nat, m: nat, n: nat) {
    forall i, p {:trigger LeafAt(ks[i], p)} :: 0 <= i < |ks| && |p| == h && InRange(p, n) ==>
      (LeafAt(ks[i], p) <==> Times(i, Leaves(h, n)) + LeafNo(p, n) < m)
  }

  function ZeroPath(h: nat): (p: seq<nat>)
    ensures |p| == h && forall i :: 0 <= i < h ==> p[i] == 0
  {
    seq(h, _ => 0)
  }

  lemma {:induction false} ZeroLeaf(h: nat, n: nat)
    ensures LeafNo(ZeroPath(h), n) == 0
  {
    if h > 0 {
      ZeroLeaf(h - 1, n);
      assert ZeroPath(h)[1..] == ZeroPath(h - 1);
    }
  }

  /** A full tree has a data block somewhere. */
  lemma {:induction false} AnyLeaf(t: Tree, h: nat, n: nat) returns (p: seq<nat>)
    requires t.Node? && Shaped(t, h, n) && Full(t) && n > 0
    ensures |p| == h && InRange(p, n) && LeafAt(t, p)
    decreases h
  {
    if h == 0 {
      p := [];
    } else {
      var i :| 0 <= i < |t.kids| && t.kids[i].Node?;
      var q := AnyLeaf(t.kids[i], h - 1, n);
      p := [i] + q;
      assert p[1..] == q;
    }
  }

  lemma {:induction false} ExactlyIsDense(t: Tree, h: nat, m: nat, n: nat)
    requires n > 0 && Shaped(t, h, n) && Full(t) && Exactly(t, h, m, n) && m <= Leaves(h, n)
    ensures Dense(t, h, m, n)
    decreases h, 0, 0
  {
    if m == 0 {
      if t.Node? {
        var p := AnyLeaf(t, h, n);
        assert false;
      }
    } else {
      ZeroLeaf(h, n);
      assert LeafAt(t, ZeroPath(h));
      if h > 0 {
        ExactlyBelow(t, h, m, n);
        ExactlyKidsDense(t.kids, h - 1, m, n);
      }
    }
  }

  lemma {:induction false} ExactlyBelow(t: Tree, h: nat, m: nat, n: nat)
    requires h > 0 && t.Node? && |t.kids| == n && Exactly(t, h, m, n)
    ensures ExactlyKids(t.kids, h - 1, m, n)
  {
    forall i, p | 0 <= i < |t.kids| && |p| == h - 1 && InRange(p, n)
      ensures LeafAt(t.kids[i], p) <==> Times(i, Leaves(h - 1, n)) + LeafNo(p, n) < m
    {
      var q := [i] + p;
      assert q[1..] == p && InRange(q, n);
      assert LeafAt(t, q) <==> LeafAt(t.kids[i], p);
    }
  }

  lemma {:induction false} ExactlyKidsDense(ks: seq<Tree>, h: nat, m: nat, n: nat)
    requires n > 0 && FullAll(ks) && (forall i :: 0 <= i < |ks| ==> Shaped(ks[i], h, n)) && ExactlyKids(ks, h, m, n)
    ensures DenseKids(ks, h, m, n)
    decreases h, 1, |ks|
  {
    if ks != [] {
      var l := Leaves(h, n);
      var x := Min(m, l);
      forall p | |p| == h && InRange(p, n)
        ensures LeafAt(ks[0], p) <==> LeafNo(p, n) < x
      {
        LeafNoBound(p, n);
        assert Times(0, l) == 0;
      }
      ExactlyIsDense(ks[0], h, x, n);
      forall i, p | 0 <= i < |ks[1..]| && |p| == h && InRange(p, n)
        ensures LeafAt(ks[1..][i], p) <==> Times(i, l) + LeafNo(p, n) < m - x
      {
        assert ks[1..][i] == ks[i + 1];
        assert LeafAt(ks[i + 1], p) <==> Times(i + 1, l) + LeafNo(p, n) < m;
        assert Times(i + 1, l) == Times(i, l) + l;
      }
      ExactlyKidsDense(ks[1..], h, m - x, n);
    }
  }

  /** The forest maps exactly the first `b` blocks. */
  ghost predicate MapsFirst(ts: seq<Tree>, n: nat, b: nat) {
    n > 0 && forall k :: 0 <= k < Capacity(n) ==> (Mapped(ts, n, k) != 0 <==> k < b)
  }

  /** The first block below the indirect slot of height `h`. */
  function Base(h: nat, n: nat): nat {
    if h == 1 then DIRECT else if h == 2 then DIRECT + n else DIRECT + n + n * n
  }

  lemma {:induction false} SlotExactly(ts: seq<Tree>, n: nat, b: nat, h: nat)
    requires MapsFirst(ts, n, b) && |ts| == INODE_SLOTS && 1 <= h <= 3 && Shaped(ts[DIRECT + h - 1], h, n)
    ensures Exactly(ts[DIRECT + h - 1], h, Min(Beyond(b, Base(h, n)), Leaves(h, n)), n)
  {
    var s := DIRECT + h - 1;
    forall p | |p| == h && InRange(p, n)
      ensures LeafAt(ts[s], p) <==> LeafNo(p, n) < Min(Beyond(b, Base(h, n)), Leaves(h, n))
    {
      SlotLeaf(ts, n, b, h, p);
    }
  }

  lemma {:induction false} SlotLeaf(ts: seq<Tree>, n: nat, b: nat, h: nat, p: seq<nat>)
    requires MapsFirst(ts, n, b) && |ts| == INODE_SLOTS && 1 <= h <= 3 && Shaped(ts[DIRECT + h - 1], h, n) && |p| == h
      && InRange(p, n)
    ensures LeafAt(ts[DIRECT + h - 1], p) <==> LeafNo(p, n) < Min(Beyond(b, Base(h, n)), Leaves(h, n))
  {
    hide Capacity, Leaves, BlockOf, PathOf, LeafNo, LeafAt, Base, Shaped;
    var q := [DIRECT + h - 1] + p;
    LeafNoBound(p, n);
    LeafBlock(p, n);
    PathInverse(q, n);
    LeafIsMapped(ts, q, h, n);
    assert q[1..] == p;
    assert Mapped(ts, n, BlockOf(q, n)) != 0 <==> BlockOf(q, n) < b;
  }

  lemma LeafBlock(p: seq<nat>, n: nat)
    requires 1 <= |p| <= 3 && InRange(p, n)
    ensures PathOk(Root, INODE_SLOTS, n, [DIRECT + |p| - 1] + p)
    ensures BlockOf([DIRECT + |p| - 1] + p, n) == Base(|p|, n) + LeafNo(p, n)
  {
    hide LeafNo, Leaves;
    var q := [DIRECT + |p| - 1] + p;
    assert forall i :: 1 <= i < |q| ==> q[i] == p[i - 1];
    if |p| == 1 {
      OneDigit(p, n);
    } else if |p| == 2 {
      TwoDigits(p, n);
    } else {
      ThreeDigits(p, n);
    }
  }

  lemma OneDigit(p: seq<nat>, n: nat)
    requires |p| == 1
    ensures LeafNo(p, n) == p[0]
  {
    assert p[1..] == [] && Leaves(0, n) == 1;
    assert LeafNo(p, n) == Times(p[0], 1) + LeafNo([], n);
  }

  lemma TwoDigits(p: seq<nat>, n: nat)
    requires |p| == 2 && n > 0
    ensures LeafNo(p, n) == p[0] * n + p[1]
  {
    hide Leaves;
    LeavesAre(n);
    OneDigit(p[1..], n);
    assert LeafNo(p, n) == Times(p[0], Leaves(1, n)) + LeafNo(p[1..], n);
  }

  lemma ThreeDigits(p: seq<nat>, n: nat)
    requires |p| == 3 && n > 0
    ensures LeafNo(p, n) == (p[0] * n + p[1]) * n + p[2]
  {
    hide Leaves;
    LeavesAre(n);
    TwoDigits(p[1..], n);
    assert LeafNo(p, n) == Times(p[0], Leaves(2, n)) + LeafNo(p[1..], n);
    assert p[0] * (n * n) + p[1] * n == (p[0] * n + p[1]) * n;
  }

  lemma {:induction false} LeafIsMapped(ts: seq<Tree>, q: seq<nat>, h: nat, n: nat)
    requires q != [] && q[0] < |ts| && |q| == h + 1 && Shaped(ts[q[0]], h, n)
    ensures LeafAt(ts[q[0]], q[1..]) <==> ZoneOf(At(ts, q)) != 0
    decreases h
  {
    NonzeroAt(ts, q, h, n);
    if h > 0 && ts[q[0]].Node? && q[1] < n {
      LeafIsMapped(ts[q[0]].kids, q[1..], h - 1, n);
    }
  }

  /** A sound tree that maps exactly the first `b` blocks has exactly the number of zones that nblocks
      computes. */
  lemma {:induction false} DenseForest(ts: seq<Tree>, n: nat, b: nat)
    requires |ts| == INODE_SLOTS && n > 0 && b <= Capacity(n) && MapsFirst(ts, n, b) && SepAll(ts) && FullAll(ts)
    requires forall i :: 0 <= i < |ts| ==> Shaped(ts[i], Height(Root, i), n)
    ensures |ZonesAll(ts)| == DenseCount(b, n)
  {
    hide Count, Leaves, Capacity, SepAll, FullAll, Shaped, Mapped, Zones, ZonesAll, Exactly;
    LeavesAre(n);
    SlotZones(ts, n, b, 1);
    SlotZones(ts, n, b, 2);
    SlotZones(ts, n, b, 3);
    DirectZones(ts, n, b);
    SplitForest(ts);
  }

  lemma {:induction false} SlotZones(ts: seq<Tree>, n: nat, b: nat, h: nat)
    requires |ts| == INODE_SLOTS && n > 0 && MapsFirst(ts, n, b) && SepAll(ts) && FullAll(ts) && 1 <= h <= 3
    requires Shaped(ts[DIRECT + h - 1], h, n)
    ensures |Zones(ts[DIRECT + h - 1])| == Count(h, Min(Beyond(b, Base(h, n)), Leaves(h, n)), n)
  {
    SlotExactly(ts, n, b, h);
    ExactlyIsDense(ts[DIRECT + h - 1], h, Min(Beyond(b, Base(h, n)), Leaves(h, n)), n);
    DenseZones(ts[DIRECT + h - 1], h, Min(Beyond(b, Base(h, n)), Leaves(h, n)), n);
  }

  lemma {:induction false} DirectZones(ts: seq<Tree>, n: nat, b: nat)
    requires |ts| == INODE_SLOTS && n > 0 && MapsFirst(ts, n, b) && SepAll(ts)
    requires forall i :: 0 <= i < |ts| ==> Shaped(ts[i], Height(Root, i), n)
    ensures |ZonesAll(ts[..DIRECT])| == Min(b, DIRECT)
  {
    var ks := ts[..DIRECT];
    assert Leaves(0, n) == 1;
    forall i | 0 <= i < DIRECT
      ensures Dense(ks[i], 0, if i < b then 1 else 0, n)
    {
      assert PathOf(i, n) == [i];
      assert Mapped(ts, n, i) == ZoneOf(ts[i]);
      assert i < Capacity(n);
    }
    DenseRow(ks, b, n);
    assert SepAll(ks);
    DenseKidsZones(ks, 0, Min(b, DIRECT), n);
    CountLeaves(Min(b, DIRECT), n, DIRECT);
  }

  lemma {:induction false} DenseRow(ks: seq<Tree>, b: nat, n: nat)
    requires forall i :: 0 <= i < |ks| ==> Dense(ks[i], 0, if i < b then 1 else 0, n)
    ensures DenseKids(ks, 0, Min(b, |ks|), n)
    decreases |ks|
  {
    if ks != [] {
      var m := Min(b, |ks|);
      var x := Min(m, Leaves(0, n));
      assert Dense(ks[0], 0, x, n);
      forall i | 0 <= i < |ks[1..]|
        ensures Dense(ks[1..][i], 0, if i < Beyond(b, 1) then 1 else 0, n)
      {
        assert Dense(ks[i + 1], 0, if i + 1 < b then 1 else 0, n);
      }
      DenseRow(ks[1..], Beyond(b, 1), n);
    }
  }

  lemma {:induction false} SplitForest(ts: seq<Tree>)
    requires |ts| == INODE_SLOTS && SepAll(ts)
    ensures |ZonesAll(ts)| == |ZonesAll(ts[..DIRECT])| + |Zones(ts[7])| + |Zones(ts[8])| + |Zones(ts[9])|
  {
    hide SepAll, Zones, ZonesAll;
    SplitAt(ts, 9);
    SplitAt(ts[..9], 8);
    assert ts[..9][..8] == ts[..8];
    SplitAt(ts[..8], 7);
    assert ts[..8][..7] == ts[..7];
  }

  lemma {:induction false} SplitAt(ts: seq<Tree>, k: nat)
    requires SepAll(ts) && |ts| == k + 1
    ensures |ZonesAll(ts)| == |ZonesAll(ts[..k])| + |Zones(ts[k])| && SepAll(ts[..k])
  {
    hide *;
    SplitZones(ts, k);
    assert |ZonesAll(ts[..k]) + Zones(ts[k])| == |ZonesAll(ts[..k])| + |Zones(ts[k])|;
  }

  lemma SplitZones(ts: seq<Tree>, k: nat)
    requires SepAll(ts) && |ts| == k + 1
    ensures ZonesAll(ts) == ZonesAll(ts[..k]) + Zones(ts[k]) && ZonesAll(ts[..k]) !! Zones(ts[k]) && SepAll(ts[..k])
  {
    hide Zones, Sep;
    forall z | z in ZonesAll(ts)
      ensures z in ZonesAll(ts[..k]) + Zones(ts[k])
    {
      var i :| 0 <= i < |ts| && z in Zones(ts[i]);
      assert i < k ==> ts[..k][i] == ts[i];
    }
    forall z | z in ZonesAll(ts[..k])
      ensures z in ZonesAll(ts) && z !in Zones(ts[k])
    {
      var i :| 0 <= i < k && z in Zones(ts[..k][i]);
      assert ts[..k][i] == ts[i];
    }
  }
}
