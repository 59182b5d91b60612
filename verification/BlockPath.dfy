/** Logical block numbers and paths through the tree (itree_v2.c). */
module BlockPath {
  import opened Arith
  import opened Geometry
  import opened Trees

  ghost predicate PowerOfTwo(x: nat) {
    exists e: nat :: x == Pow2(e)
  }

  /** Block sizes: powers of two, and therefore multiples of 16. */
  ghost predicate BlockSizeOk(bs: nat) {
    1024 <= bs <= 0x1_0000 && bs % 16 == 0 && PowerOfTwo(bs)
  }

  lemma SevenSizes(bs: nat)
    requires BlockSizeOk(bs)
    ensures bs == 1024 || bs == 2048 || bs == 4096 || bs == 8192 || bs == 16384 || bs == 32768 || bs == 0x1_0000
  {
    var e: nat :| bs == Pow2(e);
    assert Pow2(10) == 1024 && Pow2(16) == 0x1_0000;
    PowersRise(e, 9);
    PowersRise(17, e);
  }

  lemma SizesOk()
    ensures BlockSizeOk(1024) && BlockSizeOk(2048) && BlockSizeOk(4096) && BlockSizeOk(0x1_0000)
  {
    assert Pow2(10) == 1024 && Pow2(11) == 2048 && Pow2(12) == 4096;
    assert Pow2(14) == 16384 && Pow2(16) == 0x1_0000;
  }

  lemma {:induction false} PowersRise(i: nat, j: nat)
    ensures i <= j ==> Pow2(i) <= Pow2(j)
  {
    if i < j {
      PowersRise(i, j - 1);
    }
  }

  /** The test that block_to_path makes, in 64-bit arithmetic. */
  predicate Accepted(block: int, bs: nat, maxBytes: nat) {
    0 <= block && (block * bs) % U64 < maxBytes
  }

  /** The path to a logical block when indirect blocks have `n` slots. */
  function PathOf(b: nat, n: nat): (p: seq<nat>)
    requires n > 0
    ensures p != []
  {
    if b < DIRECT then [b]
    else if b - DIRECT < n then [DIRECT, b - DIRECT]
    else if b - DIRECT - n < Times(n, n) then
      var r := b - DIRECT - n;
      [DIRECT + 1, Quot(r, n), Rem(r, n)]
    else
      var r := b - DIRECT - n - Times(n, n);
      [DIRECT + 2, Quot(Quot(r, n), n), Rem(Quot(r, n), n), Rem(r, n)]
  }

  /** The logical block a path leads to: `PathOf` read backwards. */
  function BlockOf(p: seq<nat>, n: nat): nat
    requires PathOk(Root, INODE_SLOTS, n, p)
  {
    if |p| == 1 then p[0]
    else if |p| == 2 then DIRECT + p[1]
    else if |p| == 3 then DIRECT + n + (p[1] * n + p[2])
    else DIRECT + n + n * n + ((p[1] * n + p[2]) * n + p[3])
  }

  /** How many blocks the tree can map. */
  function Capacity(n: nat): nat {
    DIRECT + n + n * n + n * n * n
  }

  /** Every offset is inside its block, and the path leads back to the block. */
  lemma PathRoundTrip(b: nat, n: nat)
    requires n > 0 && b < Capacity(n)
    ensures PathOk(Root, INODE_SLOTS, n, PathOf(b, n))
    ensures BlockOf(PathOf(b, n), n) == b
  {
    if b - DIRECT >= n {
      if b - DIRECT - n < n * n {
        DoubleRoundTrip(b, n, b - DIRECT - n);
      } else {
        TripleRoundTrip(b, n, n * n, b - DIRECT - n - n * n);
      }
    }
  }

  lemma DoubleRoundTrip(b: nat, n: nat, r: nat)
    requires n > 0 && r == b - DIRECT - n < n * n
    ensures PathOk(Root, INODE_SLOTS, n, PathOf(b, n)) && BlockOf(PathOf(b, n), n) == b
  {
    DivMod(r, n, n);
    assert PathOf(b, n) == [DIRECT + 1, r / n, r % n];
  }

  lemma TripleRoundTrip(b: nat, n: nat, nn: nat, r: nat)
    requires n > 0 && nn == n * n && r == b - DIRECT - n - nn < nn * n
    ensures PathOk(Root, INODE_SLOTS, n, PathOf(b, n)) && BlockOf(PathOf(b, n), n) == b
  {
    var t := r / n;
    DivMod(r, n, nn);
    DivMod(t, n, n);
    assert PathOf(b, n) == [DIRECT + 2, t / n, t % n, r % n];
  }

  /** Each kind of path covers its own stretch of block numbers. */
  lemma BlockRange(p: seq<nat>, n: nat)
    requires PathOk(Root, INODE_SLOTS, n, p)
    ensures |p| == 1 ==> BlockOf(p, n) < DIRECT
    ensures |p| == 2 ==> DIRECT <= BlockOf(p, n) < DIRECT + n
    ensures |p| == 3 ==> DIRECT + n <= BlockOf(p, n) < DIRECT + n + n * n
    ensures |p| == 4 ==> DIRECT + n + n * n <= BlockOf(p, n) < Capacity(n)
  {
    if |p| == 3 {
      DigitsBound(p[1], p[2], n, n);
    } else if |p| == 4 {
      DigitsBound(p[1], p[2], n, n);
      DigitsBound(p[1] * n + p[2], p[3], n, n * n);
    }
  }

  /** Block numbers are ordered as their paths are. */
  lemma PathOrder(p: seq<nat>, q: seq<nat>, n: nat)
    requires PathOk(Root, INODE_SLOTS, n, p) && PathOk(Root, INODE_SLOTS, n, q)
    ensures Below(p, q) <==> BlockOf(p, n) < BlockOf(q, n)
  {
    BlockRange(p, n);
    BlockRange(q, n);
    if |p| == |q| == 3 {
      BelowUnrolled(p, q);
      Digits(p[1], p[2], q[1], q[2], n);
    } else if |p| == |q| == 4 {
      BelowUnrolled(p, q);
      TripleOrder(p[1], p[2], p[3], q[1], q[2], q[3], n);
    } else if |p| == |q| == 2 {
      BelowUnrolled(p, q);
    }
  }

  lemma TripleOrder(a: nat, b: nat, c: nat, a': nat, b': nat, c': nat, n: nat)
    requires b < n && c < n && b' < n && c' < n
    ensures (a * n + b) * n + c < (a' * n + b') * n + c' <==>
      a < a' || (a == a' && (b < b' || (b == b' && c < c')))
  {
    var x, y := a * n + b, a' * n + b';
    Digits(x, c, y, c', n);
    Digits(a, b, a', b', n);
    Digits(a', b', a, b, n);
  }

  lemma BelowUnrolled(p: seq<nat>, q: seq<nat>)
    requires 0 < |p| == |q| <= 4 && p[0] == q[0]
    ensures |p| == 1 ==> !Below(p, q)
    ensures |p| == 2 ==> (Below(p, q) <==> p[1] < q[1])
    ensures |p| == 3 ==> (Below(p, q) <==> p[1] < q[1] || (p[1] == q[1] && p[2] < q[2]))
    ensures |p| == 4 ==>
      (Below(p, q) <==> p[1] < q[1] || (p[1] == q[1] && (p[2] < q[2] || (p[2] == q[2] && p[3] < q[3]))))
  {
    if |p| == 4 {
      assert Below(p[1..][1..][1..], q[1..][1..][1..]) <==> p[3] < q[3];
    } else if |p| == 3 {
      assert Below(p[1..][1..], q[1..][1..]) <==> p[2] < q[2];
    }
  }

  /** A path determines its block and a block its path. */
  lemma PathInverse(p: seq<nat>, n: nat)
    requires n > 0 && PathOk(Root, INODE_SLOTS, n, p)
    ensures BlockOf(p, n) < Capacity(n) && PathOf(BlockOf(p, n), n) == p
  {
    BlockRange(p, n);
    var q := PathOf(BlockOf(p, n), n);
    PathRoundTrip(BlockOf(p, n), n);
    PathOrder(p, q, n);
    PathOrder(q, p, n);
    BelowTotal(p, q);
  }

  lemma {:induction false} BelowTotal(p: seq<nat>, q: seq<nat>)
    requires |p| == |q| && !Below(p, q) && !Below(q, p)
    ensures p == q
    decreases |p|
  {
    if p != [] {
      BelowTotal(p[1..], q[1..]);
      assert p == [p[0]] + p[1..] && q == [q[0]] + q[1..];
    }
  }

  /** With blocks of at least 1024 bytes and a 32-bit size limit the tree has room for every block
      below the limit. */
  lemma LimitFits(b: nat, bs: nat, maxBytes: nat)
    requires BlockSizeOk(bs) && maxBytes < 0x1_0000_0000 && b * bs < maxBytes
    ensures b < Capacity(bs / 4)
  {
    var n := bs / 4;
    MulMono(b, b, 1024, bs);
    MulMono(256, n, 256, n);
    MulMono(65536, n * n, 256, n);
  }

  // ---------------------------------------------------------------- blocks whose product overflows

  /** The conversion to a 32-bit int. */
  function Int32(x: int): (r: int)
    ensures -0x8000_0000 <= r < 0x8000_0000
  {
    (x + 0x8000_0000) % U32 - 0x8000_0000
  }

  /** The offsets as block_to_path stores them, each in an int. */
  function StoredPath(b: nat, n: nat): (p: seq<int>)
    requires n > 0
    ensures |p| == |PathOf(b, n)|
  {
    var p := PathOf(b, n);
    seq(|p|, i requires 0 <= i < |p| => Int32(p[i]))
  }

  /** The block that the size test has seen: the remainder of the product, divided again. */
  function Target(block: int, bs: nat): nat
    requires bs > 0
  {
    Quot((block * bs) % U64, bs)
  }

  /** The first block of the triple indirect tree. */
  function Triple(n: nat): nat {
    DIRECT + n + n * n
  }

  /** The product overflows, and the test has seen a block before the triple indirect tree. */
  predicate Stray(block: int, bs: nat)
    requires bs > 0
  {
    block * bs >= U64 && Target(block, bs) < Triple(bs / 4)
  }

  /** The size test is exact unless, and only unless, the product overflows to something below the
      limit; a block number for which it does. */
  lemma AcceptedExactly(b: nat, bs: nat, maxBytes: nat)
    requires maxBytes < 0x1_0000_0000
    ensures b * bs < U64 ==> (Accepted(b, bs, maxBytes) <==> b * bs < maxBytes)
    ensures (Accepted(b, bs, maxBytes) <==> b * bs < maxBytes) <==> !(b * bs >= U64 && (b * bs) % U64 < maxBytes)
    ensures Accepted(0x40_0000_0000_0000, 1024, maxBytes) <==> maxBytes > 0
  {}

  /** A block whose product fits, such as that of any file position, is its own target. */
  lemma TargetSame(b: nat, bs: nat)
    requires bs > 0 && b * bs < U64
    ensures Target(b, bs) == b && !Stray(b, bs)
  {
    DivUnique(b, 0, bs);
  }

  lemma DigitsShift(r: nat, m: nat, s: nat, n: nat)
    requires n > 0 && r == m * (n * n) + s
    ensures Quot(Quot(r, n), n) == m + Quot(Quot(s, n), n)
    ensures Rem(Quot(r, n), n) == Rem(Quot(s, n), n) && Rem(r, n) == Rem(s, n)
  {
    DigitsAbove(r, m, s, n, m * n);
  }

  lemma DigitsAbove(r: nat, m: nat, s: nat, n: nat, t: nat)
    requires n > 0 && t == m * n && r == t * n + s
    ensures Quot(Quot(r, n), n) == m + Quot(Quot(s, n), n)
    ensures Rem(Quot(r, n), n) == Rem(Quot(s, n), n) && Rem(r, n) == Rem(s, n)
  {
    ModAddMul(t, s, n);
    ModAddMul(m, s / n, n);
  }

  /** The path of a block of the triple indirect tree. */
  lemma TriplePath(b: nat, n: nat)
    requires n > 0 && b >= Triple(n)
    ensures var r := b - Triple(n); PathOf(b, n) == [DIRECT + 2, Quot(Quot(r, n), n), Rem(Quot(r, n), n), Rem(r, n)]
  {}

  /** The path of a block that is `m` times the square of `n` beyond a block of the triple indirect tree. */
  lemma PathBeyond(b: nat, c: nat, n: nat, m: nat)
    requires n > 0 && c >= Triple(n) && b == m * (n * n) + c
    ensures |PathOf(c, n)| == DEPTH && PathOf(b, n) == PathOf(c, n)[1 := m + PathOf(c, n)[1]]
  {
    hide PathOf, Triple;
    assert m * (n * n) >= 0;
    TriplePath(c, n);
    TriplePath(b, n);
    DigitsShift(b - Triple(n), m, c - Triple(n), n);
  }

  /** The same beyond a block before that tree. */
  lemma PathShort(b: nat, c: nat, n: nat, nn: nat, m: nat)
    requires n >= 8 && nn == n * n && m >= 2 && c < Triple(n) && b == m * nn + c
    ensures |PathOf(b, n)| == DEPTH && m - 2 <= PathOf(b, n)[1] < m
  {
    hide PathOf;
    MulMono(8, n, n, n);
    MulMono(2, m, nn, nn);
    var s := 2 * nn + c - Triple(n);
    assert (m - 2) * nn == m * nn - 2 * nn;
    TriplePath(b, n);
    DigitsShift(b - Triple(n), m - 2, s, n);
    FewSquares(s, n, nn);
  }

  lemma FewSquares(s: nat, n: nat, nn: nat)
    requires n > 0 && nn == n * n && s < 2 * nn
    ensures Quot(Quot(s, n), n) < 2
  {
    DivMod(s, n, 2 * n);
    DivMod(s / n, n, 2);
  }

  /** The target is the remainder by the number of blocks that 64 bits have room for. */
  lemma TargetIs(b: nat, bs: nat, all: nat)
    requires bs > 0 && all * bs == U64
    ensures all > 0 && Target(b, bs) == b % all && (b * bs) % U64 == b % all * bs
    ensures b * bs >= U64 ==> b / all > 0
  {
    var k, c := b / all, b % all;
    DivMod(b, all, 1);
    assert c * bs < U64 by { MulMono(c + 1, all, bs, bs); }
    Distribute(b, k, all, c, bs);
    DivUnique(k, c * bs, U64);
    DivUnique(c, 0, bs);
  }

  lemma Distribute(b: nat, k: nat, all: nat, c: nat, bs: nat)
    requires b == k * all + c
    ensures b * bs == k * (all * bs) + c * bs
  {}

  /** A number just below a multiple of `w` does not become small as an int. */
  lemma JustBelow(x: nat, j: nat, w: nat, n: nat, i: nat)
    requires w * i == U32 && n + 2 <= w && j * w - 2 <= x < j * w
    ensures !(0 <= Int32(x) < n)
  {
    var v := Int32(x);
    if 0 <= v < n {
      var y := (x + 0x8000_0000) / U32;
      assert x == y * U32 + v;
      assert y * U32 == y * i * w by { assert y * (w * i) == (y * i) * w; }
      DivUnique(y * i, v, w);
      DivUnique(j - 1, x - (j - 1) * w, w);
    }
  }

  /** Adding a multiple of 2^32 does not change the int. */
  lemma SameInt(x: nat, j: nat)
    requires x < 0x8000_0000
    ensures Int32(j * U32 + x) == x
  {
    DivUnique(j, x + 0x8000_0000, U32);
  }

  /** The stored offsets of a block that lies beyond a block of the triple indirect tree. */
  lemma StoredBeyond(b: nat, c: nat, n: nat, j: nat)
    requires 0 < n < 0x8000_0000 && Triple(n) <= c < Capacity(n) && b == j * U32 * (n * n) + c
    ensures StoredPath(b, n) == PathOf(c, n)
  {
    hide PathOf, Capacity, Triple, Int32;
    PathBeyond(b, c, n, j * U32);
    PathRoundTrip(c, n);
    var p := PathOf(c, n);
    SameInt(p[1], j);
    forall i | 0 <= i < 4
      ensures Int32(p[i]) == p[i]
    {
      SameInt(p[i], 0);
    }
  }

  /** How far a block lies beyond its target when 64 bits have room for `w * i` times `nn` blocks. */
  lemma HowFar(b: nat, bs: nat, nn: nat, w: nat, i: nat, all: nat) returns (j: nat)
    requires bs > 0 && all == w * i * nn && all * bs == U64 && b * bs >= U64
    ensures j > 0 && b == j * w * nn + Target(b, bs)
  {
    hide Target;
    TargetIs(b, bs, all);
    var k := b / all;
    j := k * i;
    DivMod(b, all, 0);
    assert k * all == j * w * nn;
    assert i > 0;
    MulMono(1, k, 1, i);
  }

  /** The stored offsets of a block that lies `j * w` times `nn` beyond `c`. */
  lemma StoredFar(b: nat, c: nat, n: nat, nn: nat, j: nat, w: nat, u: nat)
    requires 8 <= n < 0x8000_0000 && nn == n * n && w * u == U32 && n + 2 <= w && j > 0 && b == j * w * nn + c
    requires c < Capacity(n) && (w == U32 || c < Triple(n))
    ensures |StoredPath(b, n)| == DEPTH && (0 <= StoredPath(b, n)[1] < n <==> c >= Triple(n))
    ensures c >= Triple(n) ==> StoredPath(b, n) == PathOf(c, n)
  {
    hide PathOf, Capacity, Triple, Int32;
    if c >= Triple(n) {
      TriplePath(c, n);
      PathRoundTrip(c, n);
      StoredBeyond(b, c, n, j);
    } else {
      MulMono(1, j, 2, w);
      PathShort(b, c, n, nn, j * w);
      JustBelow(PathOf(b, n)[1], j, w, n, u);
    }
  }

  /** A block whose product overflows: its second offset, as stored, lies inside the block exactly when
      the test has seen a block of the triple indirect tree, and then the offsets are those of that block. */
  lemma StoredExactly(b: nat, bs: nat, maxBytes: nat)
    requires BlockSizeOk(bs) && maxBytes < U32 && Accepted(b, bs, maxBytes) && b * bs >= U64
    ensures var n, p, c := bs / 4, StoredPath(b, bs / 4), Target(b, bs);
      && |p| == DEPTH && (0 <= p[1] < n <==> !Stray(b, bs))
      && (!Stray(b, bs) ==> c < Capacity(n) && p == PathOf(c, n))
  {
    hide PathOf, StoredPath, Target, Int32;
    SevenSizes(bs);
    var n, c := bs / 4, Target(b, bs);
    TargetIs(b, bs, U64 / bs);
    LimitFits(c, bs, maxBytes);
    var w, i, nn, all := StepOf(bs);
    var j := HowFar(b, bs, nn, w, i, all);
    StoredFar(b, c, n, nn, j, w, U32 / w);
  }

  /** 64 bits have room for `w * i` times the square of the slots of a block. */
  lemma StepOf(bs: nat) returns (w: nat, i: nat, nn: nat, all: nat)
    requires BlockSizeOk(bs)
    ensures nn == bs / 4 * (bs / 4) && all == w * i * nn && all * bs == U64
    ensures w * (U32 / w) == U32 && bs / 4 + 2 <= w && (w == U32 || U32 <= nn * bs)
  {
    SevenSizes(bs);
    i := if bs == 1024 then 64 else if bs == 2048 then 8 else 1;
    w := if bs == 8192 then 0x2000_0000
         else if bs == 16384 then 0x400_0000
         else if bs == 32768 then 0x80_0000
         else if bs == 0x1_0000 then 0x10_0000
         else U32;
    nn := bs / 4 * (bs / 4);
    all := w * i * nn;
  }

  /** Where the offsets of an accepted block lead: to its target, or outside the first block on the way. */
  lemma AcceptedPath(b: nat, bs: nat, maxBytes: nat)
    requires BlockSizeOk(bs) && maxBytes < U32 && Accepted(b, bs, maxBytes)
    ensures var n, p, c := bs / 4, StoredPath(b, bs / 4), Target(b, bs);
      if Stray(b, bs) then |p| == DEPTH && !(0 <= p[1] < n)
      else p == PathOf(c, n) && PathOk(Root, INODE_SLOTS, n, PathOf(c, n)) && BlockOf(PathOf(c, n), n) == c
    ensures b * bs < U64 ==> b * bs < maxBytes && !Stray(b, bs) && Target(b, bs) == b
  {
    hide PathOf, Int32, Target, BlockOf;
    var n, c := bs / 4, Target(b, bs);
    if b * bs < U64 {
      TargetSame(b, bs);
      AcceptedExactly(b, bs, maxBytes);
      LimitFits(b, bs, maxBytes);
      PathRoundTrip(b, n);
      SmallInts(PathOf(b, n), n);
    } else {
      StoredExactly(b, bs, maxBytes);
      if !Stray(b, bs) {
        PathRoundTrip(c, n);
      }
    }
  }

  lemma SmallInts(p: seq<nat>, n: nat)
    requires PathOk(Root, INODE_SLOTS, n, p) && n <= 0x4000
    ensures forall i :: 0 <= i < |p| ==> Int32(p[i]) == p[i]
  {}

  /** A block that the size test lets through by overflow and that is then taken for another one, and
      one that leads outside a block. */
  lemma TakenForAnother(maxBytes: nat)
    requires 65799 * 1024 < maxBytes < U32
    ensures var b := 0x40_0000_0001_0107;
      Accepted(b, 1024, maxBytes) && !Stray(b, 1024) && Target(b, 1024) == 65799
      && StoredPath(b, 256) == PathOf(65799, 256) == [9, 0, 0, 0]
    ensures var b := 0x40_0000_0000_0000;
      Accepted(b, 1024, maxBytes) && Stray(b, 1024) && StoredPath(b, 256)[1] < 0
  {
    assert Pow2(10) == 1024;
    AcceptedPath(0x40_0000_0001_0107, 1024, maxBytes);
  }

  /** block_to_path: the offsets on the way to a block, none when the block is refused. */
  method BlockToPath(blockNo: int, bs: nat, maxBytes: nat) returns (offsets: seq<int>)
    requires BlockSizeOk(bs) && maxBytes < U32
    ensures offsets == [] <==> !Accepted(blockNo, bs, maxBytes)
    ensures Accepted(blockNo, bs, maxBytes) ==>
      var n, c := bs / 4, Target(blockNo, bs);
      && offsets == StoredPath(blockNo, n)
      && (Stray(blockNo, bs) ==> |offsets| == DEPTH && !(0 <= offsets[1] < n))
      && (!Stray(blockNo, bs) ==>
            offsets == PathOf(c, n) && PathOk(Root, INODE_SLOTS, n, PathOf(c, n)) && BlockOf(PathOf(c, n), n) == c)
  {
    if blockNo < 0 {
      return [];
    }
    if (blockNo * bs) % U64 >= maxBytes {
      return [];
    }
    AcceptedPath(blockNo, bs, maxBytes);
    offsets := Offsets(blockNo, bs / 4);
  }

  /** The four cases of block_to_path. */
  method Offsets(blockNo: nat, n: nat) returns (offsets: seq<int>)
    requires n > 0
    ensures offsets == StoredPath(blockNo, n)
  {
    hide Int32;
    var block := blockNo;
    var count := n;
    if block < DIRECT {
      return [Int32(block)];
    }
    block := block - DIRECT;
    if block < count {
      return [Int32(DIRECT), Int32(block)];
    }
    block := block - count;
    count := Times(n, n);
    if block < count {
      return [Int32(DIRECT + 1), Int32(Quot(block, n)), Int32(Rem(block, n))];
    }
    block := block - count;
    offsets := [Int32(DIRECT + 2), Int32(Quot(Quot(block, n), n)), Int32(Rem(Quot(block, n), n)), Int32(Rem(block, n))];
  }
}
