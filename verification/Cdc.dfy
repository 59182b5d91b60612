/** Content-defined chunking: the FastCDC cutter (cdc.h) and the pieces it cuts a file into. */
module Cdc {
  import opened Arith
  import opened Bytes

  const MASK: nat := 0x0003590703530000
  const MIN_SIZE: nat := 2048
  const NORMAL_SIZE: nat := 8192
  const MAX_SIZE: nat := 65536
  /** The mask uses bits below this one, so older bytes have been shifted out of its reach. */
  const WINDOW: nat := 50

  /** gear_table: any 256 64-bit words will do. */
  type Gear = g: seq<nat> | |g| == 256 && forall i :: 0 <= i < 256 ==> g[i] < 0x1_0000_0000_0000_0000
    witness seq(256, _ => 0)

  /** One step of the rolling fingerprint, in 64 bits: shift left and add. */
  function Shift(gear: Gear, fp: nat, b: Byte): nat {
    (2 * fp + gear[b]) % U64
  }

  /** The fingerprint, continued from `fp` over the bytes `b`. */
  function Roll(gear: Gear, fp: nat, b: seq<Byte>): nat {
    if b == [] then fp else Shift(gear, Roll(gear, fp, b[..|b| - 1]), b[|b| - 1])
  }

  /** Bitwise and. */
  function And(x: nat, y: nat): nat
    decreases y
  {
    if y == 0 then 0 else (if x % 2 == 1 && y % 2 == 1 then 1 else 0) + 2 * And(x / 2, y / 2)
  }

  /** `!(fp & Mask)` */
  predicate Masked(fp: nat) {
    And(fp, MASK) == 0
  }

  // ---------------------------------------------------------------- the window

  /** Each byte pushes what came before one bit further up. */
  lemma {:induction false} RollForgets(gear: Gear, x: nat, y: nat, b: seq<Byte>)
    requires |b| <= 64
    ensures Roll(gear, x, b) % Pow2(|b|) == Roll(gear, y, b) % Pow2(|b|)
    decreases |b|
  {
    if b != [] {
      var a := b[..|b| - 1];
      RollForgets(gear, x, y, a);
      ShiftForgets(gear, Roll(gear, x, a), Roll(gear, y, a), b[|b| - 1], |a|);
    }
  }

  lemma ShiftForgets(gear: Gear, u: nat, v: nat, b: Byte, j: nat)
    requires j < 64 && u % Pow2(j) == v % Pow2(j)
    ensures Shift(gear, u, b) % Pow2(j + 1) == Shift(gear, v, b) % Pow2(j + 1)
  {
    ShiftMod(u, gear[b], j);
    ShiftMod(v, gear[b], j);
    TwiceMod(u, v, Pow2(j), gear[b]);
  }

  lemma TwiceMod(u: nat, v: nat, n: nat, g: nat)
    requires n > 0 && u % n == v % n
    ensures (2 * u + g) % (2 * n) == (2 * v + g) % (2 * n)
  {
    TwiceOne(u, n, 2 * n, g);
    TwiceOne(v, n, 2 * n, g);
  }

  lemma TwiceOne(u: nat, n: nat, m: nat, g: nat)
    requires n > 0 && m == 2 * n
    ensures (2 * u + g) % m == (2 * Rem(u, n) + g) % m
  {
    DivMod(u, n, 0);
    TwiceTimes(Quot(u, n), n, m);
    ModAddMul(Quot(u, n), 2 * Rem(u, n) + g, m);
  }

  lemma ShiftMod(u: nat, g: nat, j: nat)
    requires j < 64
    ensures ((2 * u + g) % U64) % Pow2(j + 1) == (2 * u + g) % Pow2(j + 1)
  {
    Pow2Split(j + 1, 63 - j);
    Pow64();
    ModMod(2 * u + g, Pow2(j + 1), Pow2(63 - j));
  }

  lemma Pow64()
    ensures Pow2(64) == U64
  {
    Pow16();
    Pow2Split(16, 16);
    Pow2Split(32, 32);
  }

  lemma Pow16()
    ensures Pow2(16) == 0x1_0000
  {
    assert Pow2(4) == 16;
    Pow2Split(4, 4);
    Pow2Split(8, 8);
  }

  lemma MaskBelowWindow()
    ensures MASK < Pow2(WINDOW)
  {
    Pow16();
    assert Pow2(2) == 4;
    Pow2Split(16, 16);
    Pow2Split(32, 16);
    Pow2Split(48, 2);
  }

  /** And with a number below 2^k looks only at the low k bits. */
  lemma {:induction false} AndMod(x: nat, y: nat, m: nat, k: nat)
    requires m < Pow2(k) && x % Pow2(k) == y % Pow2(k)
    ensures And(x, m) == And(y, m)
    decreases k
  {
    if k > 0 && m > 0 {
      HalfMod(x, y, Pow2(k - 1));
      AndMod(x / 2, y / 2, m / 2, k - 1);
    }
  }

  lemma HalfMod(x: nat, y: nat, n: nat)
    requires n > 0 && x % (2 * n) == y % (2 * n)
    ensures x % 2 == y % 2 && (x / 2) % n == (y / 2) % n
  {
    HalfOne(x, n, 2 * n);
    HalfOne(y, n, 2 * n);
  }

  lemma HalfOne(x: nat, n: nat, m: nat)
    requires n > 0 && m == 2 * n
    ensures x % 2 == Rem(x, m) % 2 && (x / 2) % n == Rem(x, m) / 2
  {
    var p, r := Quot(x, m), Rem(x, m);
    DivMod(x, m, 0);
    TwiceTimes(p, n, m);
    HalfOf(x, Times(p, n), r);
    DivUnique(p, r / 2, n);
  }

  lemma TwiceTimes(p: nat, n: nat, m: nat)
    requires m == 2 * n
    ensures p * m == 2 * Times(p, n)
  {}

  lemma HalfOf(x: nat, a: nat, r: nat)
    requires x == 2 * a + r
    ensures x % 2 == r % 2 && x / 2 == a + r / 2
  {}

  /** The test at a position sees the last fifty bytes and no more. */
  lemma {:induction false} WindowEnough(gear: Gear, a: seq<Byte>, b: seq<Byte>)
    requires |b| == WINDOW
    ensures Masked(Roll(gear, 0, a + b)) <==> Masked(Roll(gear, 0, b))
  {
    var x, y := Roll(gear, 0, a + b), Roll(gear, 0, b);
    RollConcat(gear, 0, a, b);
    RollForgets(gear, Roll(gear, 0, a), 0, b);
    MaskBelowWindow();
    AndMod(x, y, MASK, WINDOW);
  }

  lemma {:induction false} RollConcat(gear: Gear, fp: nat, a: seq<Byte>, b: seq<Byte>)
    ensures Roll(gear, fp, a + b) == Roll(gear, Roll(gear, fp, a), b)
    decreases |b|
  {
    if b == [] {
      assert a + b == a;
    } else {
      RollConcat(gear, fp, a, b[..|b| - 1]);
      assert (a + b)[..|a + b| - 1] == a + b[..|b| - 1];
    }
  }

  // ---------------------------------------------------------------- fingerprint and mask in plain terms

  /** The sum of the gear words of the bytes, each doubled once for every byte that comes after it. */
  function GearSum(gear: Gear, b: seq<Byte>): nat {
    if b == [] then 0 else gear[b[0]] * Pow2(|b| - 1) + GearSum(gear, b[1..])
  }

  lemma {:induction false} GearSumNext(gear: Gear, b: seq<Byte>, c: Byte)
    ensures GearSum(gear, b + [c]) == 2 * GearSum(gear, b) + gear[c]
    decreases |b|
  {
    if b == [] {
      assert [c][1..] == [];
      assert Pow2(0) == 1;
    } else {
      var g, k := gear[b[0]], |b| - 1;
      GearSumNext(gear, b[1..], c);
      assert (b + [c])[1..] == b[1..] + [c];
      assert g * Pow2(k + 1) == 2 * (g * Pow2(k));
    }
  }

  /** The rolling fingerprint is that sum, in 64 bits. */
  lemma {:induction false} RollIsSum(gear: Gear, b: seq<Byte>)
    ensures Roll(gear, 0, b) == GearSum(gear, b) % U64
    decreases |b|
  {
    if b != [] {
      var a, c := b[..|b| - 1], b[|b| - 1];
      RollIsSum(gear, a);
      GearSumNext(gear, a, c);
      assert b == a + [c];
      TwiceRem(GearSum(gear, a), gear[c]);
    }
  }

  lemma TwiceRem(x: nat, g: nat)
    ensures (2 * (x % U64) + g) % U64 == (2 * x + g) % U64
  {
    DivMod(x, U64, 0);
    ModAddMul(2 * (x / U64), 2 * (x % U64) + g, U64);
  }

  predicate BitSet(x: nat, k: nat) {
    x / Pow2(k) % 2 == 1
  }

  /** Some bit is set in both numbers. */
  ghost predicate Meet(x: nat, y: nat) {
    exists k: nat :: BitSet(x, k) && BitSet(y, k)
  }

  lemma BitHalf(x: nat, k: nat)
    ensures BitSet(x, k + 1) == BitSet(x / 2, k) && (BitSet(x, 0) <==> x % 2 == 1) && !BitSet(0, k)
  {
    assert Pow2(0) == 1;
    DivTwice(x, 2, Pow2(k));
    DivUnique(0, 0, Pow2(k));
  }

  /** The bitwise and is 0 exactly when no bit is set in both numbers. */
  lemma {:induction false} AndBits(x: nat, y: nat)
    ensures And(x, y) != 0 <==> Meet(x, y)
    decreases y
  {
    hide BitSet;
    if y == 0 {
      forall k: nat
        ensures !BitSet(y, k)
      {
        BitHalf(0, k);
      }
    } else {
      AndBits(x / 2, y / 2);
      BitHalf(x, 0);
      BitHalf(y, 0);
      if k: nat :| BitSet(x / 2, k) && BitSet(y / 2, k) {
        BitHalf(x, k);
        BitHalf(y, k);
        assert BitSet(x, k + 1) && BitSet(y, k + 1);
      }
      if k: nat :| BitSet(x, k) && BitSet(y, k) {
        if k > 0 {
          BitHalf(x, k - 1);
          BitHalf(y, k - 1);
          assert BitSet(x / 2, k - 1) && BitSet(y / 2, k - 1);
        }
      }
    }
  }

  // ---------------------------------------------------------------- the cutter

  /** The fingerprint test at index `i` of a chunk. */
  predicate Boundary(gear: Gear, c: seq<Byte>, i: nat)
    requires MIN_SIZE <= i < |c|
  {
    Masked(Roll(gear, 0, c[MIN_SIZE..i + 1]))
  }

  /** Where the search for a boundary ends at the latest. */
  function Limit(n: nat): nat {
    if n >= MAX_SIZE then MAX_SIZE else n
  }

  /** The first boundary from `i` on. */
  function CutFrom(gear: Gear, c: seq<Byte>, i: nat): (r: nat)
    requires MIN_SIZE <= i <= Limit(|c|)
    ensures i <= r <= Limit(|c|)
    decreases Limit(|c|) - i
  {
    if i == Limit(|c|) || Boundary(gear, c, i) then i else CutFrom(gear, c, i + 1)
  }

  /** The cut is at the first boundary, or at the end if there is none. */
  lemma {:induction false} CutIsFirst(gear: Gear, c: seq<Byte>, i: nat)
    requires MIN_SIZE <= i <= Limit(|c|)
    ensures forall j :: i <= j < CutFrom(gear, c, i) ==> !Boundary(gear, c, j)
    ensures CutFrom(gear, c, i) < Limit(|c|) ==> Boundary(gear, c, CutFrom(gear, c, i))
    decreases Limit(|c|) - i
  {
    hide Boundary;
    if i < Limit(|c|) && !Boundary(gear, c, i) {
      CutIsFirst(gear, c, i + 1);
    }
  }

  /** The size of the first chunk of `c`. */
  function ChunkSize(gear: Gear, c: seq<Byte>): (r: nat)
    ensures r <= |c| && r <= MAX_SIZE && (|c| > 0 ==> r > 0) && (r < |c| ==> r >= MIN_SIZE)
  {
    if |c| <= MIN_SIZE then |c| else CutFrom(gear, c, MIN_SIZE)
  }

  /** The gear words of the bytes from 2048 to `i` add up, in 64 bits, to a number with a bit of the mask. */
  ghost predicate SumMeets(gear: Gear, c: seq<Byte>, i: nat)
    requires 2048 <= i < |c|
  {
    Meet(GearSum(gear, c[2048..i + 1]) % U64, 0x0003590703530000)
  }

  /** The size of the first chunk in plain terms: the first index at which the sum has no bit of the mask,
      and 65536 or the end if there is none. */
  lemma {:induction false} CutExactly(gear: Gear, c: seq<Byte>)
    ensures |c| <= 2048 ==> ChunkSize(gear, c) == |c|
    ensures |c| > 2048 ==>
      var r, n := ChunkSize(gear, c), if |c| >= 65536 then 65536 else |c|;
      && 2048 <= r <= n && (forall i :: 2048 <= i < r ==> SumMeets(gear, c, i)) && (r < n ==> !SumMeets(gear, c, r))
  {
    hide Meet, And, Roll, GearSum;
    if |c| > 2048 {
      CutIsFirst(gear, c, MIN_SIZE);
      forall i | 2048 <= i < |c|
        ensures Boundary(gear, c, i) <==> !SumMeets(gear, c, i)
      {
        RollIsSum(gear, c[2048..i + 1]);
        AndBits(GearSum(gear, c[2048..i + 1]) % U64, MASK);
      }
    }
  }

  /** The test at `i` depends only on the bytes from max(2048, i - 49) to i. */
  lemma {:induction false} BoundaryIsLocal(gear: Gear, c: seq<Byte>, i: nat)
    requires MIN_SIZE <= i < |c|
    ensures Boundary(gear, c, i) <==>
      Masked(Roll(gear, 0, if i + 1 < MIN_SIZE + WINDOW then c[MIN_SIZE..i + 1] else c[i + 1 - WINDOW..i + 1]))
  {
    if i + 1 >= MIN_SIZE + WINDOW {
      var a, b := c[MIN_SIZE..i + 1 - WINDOW], c[i + 1 - WINDOW..i + 1];
      assert c[MIN_SIZE..i + 1] == a + b;
      WindowEnough(gear, a, b);
    }
  }

  /** cdc_get_chunk_size: the two loops over the bytes of the file from `pos` on. */
  method GetChunkSize(gear: Gear, file: seq<Byte>, pos: nat) returns (size: nat)
    requires pos <= |file|
    ensures size == ChunkSize(gear, file[pos..])
  {
    ghost var c := file[pos..];
    var i := MIN_SIZE;
    var normal := NORMAL_SIZE;
    var n := |file| - pos;
    if n <= MIN_SIZE {
      return n;
    }
    if n >= MAX_SIZE {
      n := MAX_SIZE;
    } else if n <= normal {
      normal := n;
    }
    assert c[MIN_SIZE..MIN_SIZE] == [];
    var fp := 0;
    var found;
    i, fp, found := Scan(gear, file, pos, i, normal, fp);
    if !found {
      i, fp, found := Scan(gear, file, pos, i, n, fp);
    }
    return i;
  }

  lemma RollNext(gear: Gear, c: seq<Byte>, i: nat)
    requires MIN_SIZE <= i < |c|
    ensures Roll(gear, 0, c[MIN_SIZE..i + 1]) == Shift(gear, Roll(gear, 0, c[MIN_SIZE..i]), c[i])
  {
    var b := c[MIN_SIZE..i + 1];
    assert b[..|b| - 1] == c[MIN_SIZE..i] && b[|b| - 1] == c[i];
  }

  /** One of the two loops: extend the fingerprint byte by byte up to index `end`. */
  method Scan(gear: Gear, file: seq<Byte>, pos: nat, from: nat, end: nat, start: nat)
    returns (i: nat, fp: nat, found: bool)
    requires pos <= |file| && MIN_SIZE <= from <= end <= Limit(|file| - pos)
    requires start == Roll(gear, 0, file[pos..][MIN_SIZE..from])
    requires CutFrom(gear, file[pos..], MIN_SIZE) == CutFrom(gear, file[pos..], from)
    ensures from <= i <= end && (found || i == end)
    ensures CutFrom(gear, file[pos..], MIN_SIZE) == CutFrom(gear, file[pos..], i)
    ensures if found then CutFrom(gear, file[pos..], MIN_SIZE) == i else fp == Roll(gear, 0, file[pos..][MIN_SIZE..i])
  {
    hide And, Masked, Roll, Shift;
    ghost var c := file[pos..];
    i, fp := from, start;
    while i < end
      invariant from <= i <= end && fp == Roll(gear, 0, c[MIN_SIZE..i])
      invariant CutFrom(gear, c, MIN_SIZE) == CutFrom(gear, c, i)
    {
      var b := file[pos + i];
      RollNext(gear, c, i);
      fp := Shift(gear, fp, b);
      if Masked(fp) {
        return i, fp, true;
      }
      i := i + 1;
    }
    found := false;
  }

  // ---------------------------------------------------------------- the pieces of a file

  function Pieces(gear: Gear, c: seq<Byte>): seq<seq<Byte>> {
    if c == [] then [] else var k := ChunkSize(gear, c); [c[..k]] + Pieces(gear, c[k..])
  }

  function Flatten(ps: seq<seq<Byte>>): seq<Byte> {
    if ps == [] then [] else ps[0] + Flatten(ps[1..])
  }

  lemma {:induction false} FlattenSplit(ps: seq<seq<Byte>>, j: nat)
    requires j <= |ps|
    ensures Flatten(ps) == Flatten(ps[..j]) + Flatten(ps[j..])
    decreases j
  {
    if j > 0 {
      FlattenSplit(ps[1..], j - 1);
      assert ps[..j][1..] == ps[1..][..j - 1] && ps[1..][j - 1..] == ps[j..];
    } else {
      assert ps[0..] == ps;
    }
  }

  /** The pieces make up the file; they are not empty, none is longer than 65536 bytes, and all but
      the last have at least 2048. */
  lemma {:induction false} PiecesPartition(gear: Gear, c: seq<Byte>)
    ensures Flatten(Pieces(gear, c)) == c
    ensures forall i :: 0 <= i < |Pieces(gear, c)| ==> 0 < |Pieces(gear, c)[i]| <= MAX_SIZE
    ensures forall i :: 0 <= i < |Pieces(gear, c)| - 1 ==> |Pieces(gear, c)[i]| >= MIN_SIZE
    decreases |c|
  {
    if c != [] {
      var k := ChunkSize(gear, c);
      var rest := Pieces(gear, c[k..]);
      PiecesPartition(gear, c[k..]);
      assert Pieces(gear, c) == [c[..k]] + rest && Pieces(gear, c)[1..] == rest;
      assert c == c[..k] + c[k..];
      assert forall i :: 1 <= i < |Pieces(gear, c)| ==> Pieces(gear, c)[i] == rest[i - 1];
    }
  }

  /** There are no more pieces than bytes. */
  lemma {:induction false} FewPieces(gear: Gear, c: seq<Byte>)
    ensures |Pieces(gear, c)| <= |c|
    decreases |c|
  {
    hide ChunkSize;
    if c != [] {
      FewPieces(gear, c[ChunkSize(gear, c)..]);
    }
  }

  /** What comes after a boundary is cut as if the file began there. */
  lemma {:induction false} PiecesAfter(gear: Gear, c: seq<Byte>, j: nat)
    requires j <= |Pieces(gear, c)|
    ensures |Flatten(Pieces(gear, c)[..j])| <= |c|
    ensures Pieces(gear, c)[j..] == Pieces(gear, c[|Flatten(Pieces(gear, c)[..j])|..])
    decreases j
  {
    hide ChunkSize, Pieces;
    var ps := Pieces(gear, c);
    if j > 0 {
      PiecesStep(gear, c);
      var k := ChunkSize(gear, c);
      var rest := c[k..];
      PiecesAfter(gear, rest, j - 1);
      var qs := Pieces(gear, rest);
      var m := |Flatten(qs[..j - 1])|;
      assert ps[..j] == [c[..k]] + qs[..j - 1] && ps[j..] == qs[j - 1..];
      assert ps[..j][1..] == qs[..j - 1];
      assert |Flatten(ps[..j])| == k + m;
      assert rest[m..] == c[k + m..];
    } else {
      assert ps[..0] == [] && ps[0..] == ps && c[0..] == c;
    }
  }

  lemma PiecesStep(gear: Gear, c: seq<Byte>)
    requires Pieces(gear, c) != []
    ensures c != [] && Pieces(gear, c) == [c[..ChunkSize(gear, c)]] + Pieces(gear, c[ChunkSize(gear, c)..])
  {}

  /** Two files with a common suffix that both begin a piece with are cut alike from there on. */
  lemma {:induction false} CommonSuffix(gear: Gear, a: seq<Byte>, b: seq<Byte>, s: seq<Byte>, i: nat, j: nat)
    requires i <= |Pieces(gear, a + s)| && Flatten(Pieces(gear, a + s)[..i]) == a
    requires j <= |Pieces(gear, b + s)| && Flatten(Pieces(gear, b + s)[..j]) == b
    ensures Pieces(gear, a + s)[i..] == Pieces(gear, b + s)[j..] == Pieces(gear, s)
  {
    PiecesAfter(gear, a + s, i);
    PiecesAfter(gear, b + s, j);
    assert (a + s)[|a|..] == s && (b + s)[|b|..] == s;
  }
}
