/** The zone bitmap (bitmap.c): which zones of the volume are in use. */
module ZoneMap {
  import opened Arith

  /** The buffers of the zone bitmap, one row of bits each. */
  type Bits = seq<seq<bool>>

  /** What mounting establishes: equal rows, room for every zone, and bit 0 set. */
  predicate MapOk(b: Bits, w: nat, first: nat, nzones: nat) {
    && |b| > 0 && w > 0 && w % 16 == 0 && 1 < first <= nzones
    && (forall i :: 0 <= i < |b| ==> |b[i]| == w)
    && nzones - first + 1 <= |b| * w
    && b[0][0]
  }

  /** Row and column of the bit of a zone. */
  function Row(z: nat, w: nat, first: nat): nat
    requires w > 0 && first <= z
  {
    (z - first + 1) / w
  }

  function Col(z: nat, w: nat, first: nat): nat
    requires w > 0 && first <= z
  {
    (z - first + 1) % w
  }

  /** An in-range zone never meets the branch for a bitmap buffer that does not exist. */
  lemma InMap(b: Bits, w: nat, first: nat, nzones: nat, z: nat)
    requires MapOk(b, w, first, nzones) && first <= z < nzones
    ensures Row(z, w, first) < |b| && Col(z, w, first) < w
    ensures Row(z, w, first) * w + Col(z, w, first) == z - first + 1
  {
    DivMod(z - first + 1, w, |b|);
  }

  predicate Busy(b: Bits, w: nat, first: nat, nzones: nat, z: nat)
    requires MapOk(b, w, first, nzones) && first <= z < nzones
  {
    InMap(b, w, first, nzones, z);
    b[Row(z, w, first)][Col(z, w, first)]
  }

  /** The zones in use. */
  function Used(b: Bits, w: nat, first: nat, nzones: nat): set<nat>
    requires MapOk(b, w, first, nzones)
  {
    set z | first <= z < nzones && Busy(b, w, first, nzones, z)
  }

  predicate NoneFree(b: Bits, w: nat, first: nat, nzones: nat)
    requires MapOk(b, w, first, nzones)
  {
    forall z :: first <= z < nzones ==> z in Used(b, w, first, nzones)
  }

  /** Changing the bit of one zone changes whether that zone is in use and nothing else. */
  lemma SetZone(b: Bits, w: nat, first: nat, nzones: nat, z: nat, v: bool)
    requires MapOk(b, w, first, nzones) && first <= z < nzones
    ensures var i, j := Row(z, w, first), Col(z, w, first);
      && i < |b| && j < w
      && var b' := b[i := b[i][j := v]];
      && MapOk(b', w, first, nzones)
      && Used(b', w, first, nzones) == if v then Used(b, w, first, nzones) + {z} else Used(b, w, first, nzones) - {z}
  {
    InMap(b, w, first, nzones, z);
    var i, j := Row(z, w, first), Col(z, w, first);
    var b' := b[i := b[i][j := v]];
    assert (i, j) != (0, 0);
    forall y | first <= y < nzones && y != z
      ensures Busy(b', w, first, nzones, y) == Busy(b, w, first, nzones, y)
    {
      InMap(b, w, first, nzones, y);
    }
  }

  /** A bit beyond the last zone stands for no zone. */
  lemma SetPadding(b: Bits, w: nat, first: nat, nzones: nat, i: nat, j: nat)
    requires MapOk(b, w, first, nzones) && i < |b| && j < w && i * w + j + first - 1 >= nzones
    ensures var b' := b[i := b[i][j := true]];
      MapOk(b', w, first, nzones) && Used(b', w, first, nzones) == Used(b, w, first, nzones)
  {
    var b' := b[i := b[i][j := true]];
    forall y | first <= y < nzones
      ensures Busy(b', w, first, nzones, y) == Busy(b, w, first, nzones, y)
    {
      InMap(b, w, first, nzones, y);
    }
  }

  /** When every bit before (i, j) is set, every zone before the one it stands for is in use. */
  lemma AllBefore(b: Bits, w: nat, first: nat, nzones: nat, i: nat, j: nat)
    requires MapOk(b, w, first, nzones) && i <= |b| && (i < |b| ==> j < w) && (i == |b| ==> j == 0)
    requires forall r, c :: 0 <= r < i && 0 <= c < w ==> b[r][c]
    requires i < |b| ==> forall c :: 0 <= c < j ==> b[i][c]
    ensures forall y :: first <= y < nzones && y < i * w + j + first - 1 ==> y in Used(b, w, first, nzones)
  {
    forall y | first <= y < nzones && y < i * w + j + first - 1
      ensures y in Used(b, w, first, nzones)
    {
      InMap(b, w, first, nzones, y);
      Digits(Row(y, w, first), Col(y, w, first), i, j, w);
    }
  }

  /** The search for a clear bit ends beyond the last zone exactly when no zone is free. */
  lemma StopsAt(b: Bits, w: nat, first: nat, nzones: nat, i: nat, j: nat, z: int)
    requires MapOk(b, w, first, nzones) && i < |b| && j < w && !b[i][j] && z == i * w + j + first - 1
    requires forall y :: first <= y < nzones && y < z ==> y in Used(b, w, first, nzones)
    ensures NoneFree(b, w, first, nzones) <==> z >= nzones
    ensures z >= first
  {
    assert (i, j) != (0, 0);
    if i != 0 { MulMono(1, i, w, w); }
    if z < nzones {
      DivUnique(i, j, w);
      assert z !in Used(b, w, first, nzones);
    }
  }

  /** Clear bits of a stretch of one row. */
  function FreeIn(row: seq<bool>, lo: nat, hi: nat): (n: nat)
    requires lo <= hi <= |row|
    decreases hi - lo
  {
    if lo == hi then 0 else (if row[hi - 1] then 0 else 1) + FreeIn(row, lo, hi - 1)
  }

  /** Clear bits of the first `k` rows. */
  function FreeBits(b: Bits, k: nat): (n: nat)
    requires k <= |b|
  {
    if k == 0 then 0 else FreeIn(b[k - 1], 0, |b[k - 1]|) + FreeBits(b, k - 1)
  }

  lemma {:induction false} FreeInSplit(row: seq<bool>, lo: nat, mid: nat, hi: nat)
    requires lo <= mid <= hi <= |row|
    ensures FreeIn(row, lo, hi) == FreeIn(row, lo, mid) + FreeIn(row, mid, hi)
    decreases hi - mid
  {
    if mid < hi {
      FreeInSplit(row, lo, mid, hi - 1);
    }
  }

  lemma {:induction false} FreeInSet(row: seq<bool>, hi: nat, j: nat, v: bool)
    requires j < |row| && hi <= |row|
    ensures FreeIn(row[j := v], 0, hi) ==
      FreeIn(row, 0, hi) + (if j < hi && row[j] != v then if v then -1 else 1 else 0)
    decreases hi
  {
    if hi > 0 {
      FreeInSet(row, hi - 1, j, v);
    }
  }

  /** Setting a clear bit lowers the count by one, clearing a set bit raises it by one, if the bit is
      in a row that is counted. */
  lemma {:induction false} FreeBitsSet(b: Bits, k: nat, i: nat, j: nat, v: bool)
    requires k <= |b| && i < |b| && j < |b[i]|
    ensures FreeBits(b[i := b[i][j := v]], k) ==
      FreeBits(b, k) + (if i < k && b[i][j] != v then if v then -1 else 1 else 0)
    decreases k
  {
    if k > 0 {
      FreeBitsSet(b, k - 1, i, j, v);
      if i == k - 1 {
        FreeInSet(b[i], |b[i]|, j, v);
      }
    }
  }

  lemma {:induction false} NoneInRow(row: seq<bool>, lo: nat, hi: nat)
    requires lo <= hi <= |row| && false !in row
    ensures FreeIn(row, lo, hi) == 0
    decreases hi
  {
    if lo < hi {
      NoneInRow(row, lo, hi - 1);
    }
  }

  /** Where every bit is set, none is counted. */
  lemma {:induction false} NoneCounted(b: Bits, k: nat)
    requires k <= |b| && AllSet(b)
    ensures FreeBits(b, k) == 0
    decreases k
  {
    if k > 0 {
      NoneInRow(b[k - 1], 0, |b[k - 1]|);
      NoneCounted(b, k - 1);
    }
  }

  /** Rows that count_free looks at: enough for every zone, padding included. */
  function CountedRows(w: nat, first: nat, nzones: nat): nat
    requires w > 0 && first <= nzones
  {
    (nzones - first + 1 + w - 1) / w
  }

  lemma CountedOk(b: Bits, w: nat, first: nat, nzones: nat, z: nat)
    requires MapOk(b, w, first, nzones) && first <= z < nzones
    ensures Row(z, w, first) < CountedRows(w, first, nzones) <= |b|
  {
    var x := nzones - first + w;
    DivMod(x, w, |b| + 1);
    assert x < (|b| + 1) * w;
    InMap(b, w, first, nzones, z);
    if Row(z, w, first) >= x / w {
      MulMono(x / w, Row(z, w, first), w, w);
    }
  }

  /** One bit changed. */
  function SetBit(b: Bits, i: nat, j: nat, v: bool): Bits
    requires i < |b| && j < |b[i]|
  {
    b[i := b[i][j := v]]
  }

  /** Every bit is set, those of the padding included. */
  predicate AllSet(b: Bits) {
    forall i, j :: 0 <= i < |b| && 0 <= j < |b[i]| ==> b[i][j]
  }

  /** The clear bit at which the scan of cominix_new_block stops. */
  predicate FirstClear(b: Bits, i: nat, j: nat) {
    && i < |b| && j < |b[i]| && !b[i][j]
    && (forall r, c :: 0 <= r < i && 0 <= c < |b[r]| ==> b[r][c])
    && (forall c :: 0 <= c < j ==> b[i][c])
  }

  /** The first clear bit of a row set. */
  function SetFirstIn(row: seq<bool>): seq<bool> {
    if row == [] then [] else if row[0] then [true] + SetFirstIn(row[1..]) else [true] + row[1..]
  }

  /** What one call of cominix_new_block does to the bits: the first clear one is set, be it the bit of a
      zone or padding. */
  function SetFirst(b: Bits): Bits {
    if b == [] then []
    else if false in b[0] then [SetFirstIn(b[0])] + b[1..]
    else [b[0]] + SetFirst(b[1..])
  }

  lemma {:induction false} SetFirstInIs(row: seq<bool>, j: nat)
    requires j < |row| && !row[j] && forall c :: 0 <= c < j ==> row[c]
    ensures SetFirstIn(row) == row[j := true]
    decreases j
  {
    if j > 0 {
      SetFirstInIs(row[1..], j - 1);
    }
  }

  lemma {:induction false} SetFirstIs(b: Bits, i: nat, j: nat)
    requires FirstClear(b, i, j)
    ensures SetFirst(b) == SetBit(b, i, j, true)
    decreases i
  {
    if i > 0 {
      assert false !in b[0];
      SetFirstIs(b[1..], i - 1, j);
    } else {
      assert b[0][j] == false;
      SetFirstInIs(b[0], j);
    }
  }

  lemma {:induction false} SetFirstNone(b: Bits)
    requires AllSet(b)
    ensures SetFirst(b) == b
    decreases |b|
  {
    if b != [] {
      assert false !in b[0];
      assert AllSet(b[1..]) by { assert forall i :: 0 <= i < |b[1..]| ==> b[1..][i] == b[i + 1]; }
      SetFirstNone(b[1..]);
    }
  }

  /** A call changes the bits exactly when one of them, padding included, is clear. */
  lemma {:induction false} ChangesExactly(b: Bits)
    ensures SetFirst(b) == b <==> AllSet(b)
    decreases |b|
  {
    if AllSet(b) {
      SetFirstNone(b);
    } else if false in b[0] {
      var j := LeastClear(b[0]);
      SetFirstInIs(b[0], j);
      assert SetFirst(b)[0][j] && !b[0][j];
    } else {
      assert !AllSet(b[1..]) by {
        var i, j :| 0 <= i < |b| && 0 <= j < |b[i]| && !b[i][j];
        assert b[1..][i - 1] == b[i];
      }
      ChangesExactly(b[1..]);
      assert SetFirst(b)[1..] == SetFirst(b[1..]);
    }
  }

  lemma {:induction false} LeastClear(row: seq<bool>) returns (j: nat)
    requires false in row
    ensures j < |row| && !row[j] && forall c :: 0 <= c < j ==> row[c]
    decreases |row|
  {
    if !row[0] {
      j := 0;
    } else {
      j := LeastClear(row[1..]);
      j := j + 1;
    }
  }

  lemma {:induction false} NoFreeBits(b: Bits, k: nat)
    requires k <= |b| && forall r, c :: 0 <= r < k && 0 <= c < |b[r]| ==> b[r][c]
    ensures FreeBits(b, k) == 0
    decreases k
  {
    if k > 0 {
      NoFreeBits(b, k - 1);
      NoFreeIn(b[k - 1], |b[k - 1]|);
    }
  }

  lemma {:induction false} NoFreeIn(row: seq<bool>, hi: nat)
    requires hi <= |row| && forall c :: 0 <= c < hi ==> row[c]
    ensures FreeIn(row, 0, hi) == 0
    decreases hi
  {
    if hi > 0 {
      NoFreeIn(row, hi - 1);
    }
  }

  class ZoneBitmap {
    const bits: array2<bool>
    const first: nat   // s_firstdatazone
    const nzones: nat  // s_nzones, after the heap has been split off
    var warnings: nat  // complaints logged by FreeBlock
    ghost var used: set<nat>
    ghost var free: nat

    function Rows(): (b: Bits)
      reads bits
      ensures |b| == bits.Length0 && forall i :: 0 <= i < |b| ==> |b[i]| == bits.Length1
    {
      seq(bits.Length0, i requires 0 <= i < bits.Length0 reads bits =>
        seq(bits.Length1, j requires 0 <= j < bits.Length1 reads bits => bits[i, j]))
    }

    /** What mounting has checked. */
    predicate Dims() {
      && bits.Length0 > 0 && bits.Length1 > 0 && bits.Length1 % 16 == 0 && 1 < first <= nzones
      && nzones - first + 1 <= bits.Length0 * bits.Length1
    }

    /** `used` is the set of zones whose bit is set and `free` the number of clear bits counted. */
    ghost predicate Valid()
      reads this, bits
    {
      && Dims() && bits[0, 0]
      && (forall z :: z in used ==> first <= z < nzones)
      && (forall z {:trigger Busy(Rows(), bits.Length1, first, nzones, z)} :: first <= z < nzones ==>
            (z in used <==> Busy(Rows(), bits.Length1, first, nzones, z)))
      && (forall k: nat {:trigger FreeBits(Rows(), k)} ::
            k == CountedRows(bits.Length1, first, nzones) && k <= bits.Length0 ==> free == FreeBits(Rows(), k))
    }

    lemma UsedIs()
      requires Valid()
      ensures used == Used(Rows(), bits.Length1, first, nzones)
    {
      forall z | first <= z < nzones
        ensures z in used <==> z in Used(Rows(), bits.Length1, first, nzones)
      {
        assert Busy(Rows(), bits.Length1, first, nzones, z) <==> z in Used(Rows(), bits.Length1, first, nzones);
      }
    }

    lemma Resync(u: set<nat>)
      requires MapOk(Rows(), bits.Length1, first, nzones) && u == Used(Rows(), bits.Length1, first, nzones)
      ensures forall z {:trigger Busy(Rows(), bits.Length1, first, nzones, z)} :: first <= z < nzones ==>
        (z in u <==> Busy(Rows(), bits.Length1, first, nzones, z))
    {}

    ghost predicate Exhausted()
      reads this
    {
      forall z :: first <= z < nzones ==> z in used
    }

    lemma CountedRowsFit()
      requires MapOk(Rows(), bits.Length1, first, nzones)
      ensures CountedRows(bits.Length1, first, nzones) <= bits.Length0
    {
      var w := bits.Length1;
      DivMod(nzones - first + w, w, bits.Length0 + 1);
      assert nzones - first + w < (bits.Length0 + 1) * w;
    }

    /** Mounting: the bits read from disk, with bit 0 set; refused when there are too few buffers. */
    constructor (rows: Bits, w: nat, first: nat, nzones: nat)
      requires |rows| > 0 && w > 0 && w % 16 == 0 && 1 < first <= nzones
      requires forall i :: 0 <= i < |rows| ==> |rows[i]| == w
      requires nzones - first + 1 <= |rows| * w
      ensures Valid() && fresh(bits) && this.first == first && this.nzones == nzones && warnings == 0
      ensures Rows() == rows[0 := rows[0][0 := true]]
      ensures used == Used(Rows(), w, first, nzones)
    {
      var b := new bool[|rows|, w](
        (i, j) requires 0 <= i < |rows| && 0 <= j < w => if i == 0 && j == 0 then true else rows[i][j]);
      bits := b;
      this.first, this.nzones, warnings := first, nzones, 0;
      new;
      assert Rows()[0] == rows[0][0 := true];
      assert forall r :: 0 < r < |rows| ==> Rows()[r] == rows[r];
      used := Used(Rows(), w, first, nzones);
      CountedRowsFit();
      free := FreeBits(Rows(), CountedRows(w, first, nzones));
    }

    /** find_first_zero_bit on one buffer; the width when every bit is set. */
    method FindFirstZero(i: nat) returns (j: nat)
      requires i < bits.Length0
      ensures j <= bits.Length1
      ensures forall c :: 0 <= c < j ==> bits[i, c]
      ensures j < bits.Length1 ==> !bits[i, j]
    {
      j := 0;
      while j < bits.Length1 && bits[i, j]
        invariant j <= bits.Length1
        invariant forall c :: 0 <= c < j ==> bits[i, c]
      {
        j := j + 1;
      }
    }

    /** cominix_set_bit and cominix_test_and_clear_bit. */
    method WriteBit(i: nat, j: nat, v: bool) returns (was: bool)
      requires i < bits.Length0 && j < bits.Length1
      modifies bits
      ensures was == old(Rows())[i][j]
      ensures Rows() == old(Rows())[i := old(Rows())[i][j := v]]
    {
      was := bits[i, j];
      bits[i, j] := v;
      assert Rows()[i] == old(Rows())[i][j := v];
      assert forall r :: 0 <= r < bits.Length0 && r != i ==> Rows()[r] == old(Rows())[r];
    }

    /** cominix_new_block and cominix_new_block_sb: take the lowest free zone, or 0 when there is
        none; a failing call has set a padding bit if one was clear. */
    method NewBlock() returns (z: nat)
      requires Valid()
      modifies bits, this`used, this`free
      ensures Valid()
      ensures z == 0 <==> old(Exhausted())
      ensures z == 0 ==> used == old(used) && free == (if old(free) == 0 then 0 else old(free) - 1)
      ensures z != 0 ==>
        && first <= z < nzones && z !in old(used)
        && (forall y :: first <= y < z ==> y in old(used))
        && used == old(used) + {z} && free == old(free) - 1
      ensures Rows() == SetFirst(old(Rows()))
    {
      hide SetFirst;
      var w := bits.Length1;
      ghost var b := Rows();
      UsedIs();
      var i := 0;
      while i < bits.Length0
        invariant i <= bits.Length0 && Valid() && Rows() == b && used == old(used) && free == old(free)
        invariant forall r, c :: 0 <= r < i && 0 <= c < w ==> b[r][c]
      {
        var j := FindFirstZero(i);
        if j < w {
          assert !b[i][j];
          AllBefore(b, w, first, nzones, i, j);
          StopsAt(b, w, first, nzones, i, j, i * w + j + first - 1);
          SetFirstIs(b, i, j);
          z := TakeBit(i, j);
          return;
        }
        assert forall c :: 0 <= c < w ==> b[i][c];
        i := i + 1;
      }
      AllBefore(b, w, first, nzones, i, 0);
      SetFirstNone(b);
      CountedRowsFit();
      NoFreeBits(b, CountedRows(w, first, nzones));
      assert free == FreeBits(b, CountedRows(w, first, nzones));
      z := 0;
    }

    /** Set the clear bit that the search has stopped at. */
    method TakeBit(i: nat, j: nat) returns (z: nat)
      requires Valid() && i < bits.Length0 && j < bits.Length1 && FirstClear(Rows(), i, j)
      modifies bits, this`used, this`free
      ensures Valid()
      ensures z == if i * bits.Length1 + j + first - 1 >= nzones then 0 else i * bits.Length1 + j + first - 1
      ensures z == 0 ==> used == old(used) && free == (if old(free) == 0 then 0 else old(free) - 1)
      ensures z != 0 ==> first <= z && z !in old(used) && used == old(used) + {z} && free == old(free) - 1
      ensures Rows() == SetBit(old(Rows()), i, j, true)
    {
      var w := bits.Length1;
      if i != 0 { MulMono(1, i, w, w); }
      z := i * w + j + first - 1;
      if z < first || z >= nzones {
        MarkPadding(i, j);
        return 0;
      }
      DivUnique(i, j, w);
      var _ := MarkZone(z, i, j, true);
    }

    /** Set or clear the bit (i, j) of an in-range zone. */
    method MarkZone(z: nat, i: nat, j: nat, v: bool) returns (was: bool)
      requires Valid() && first <= z < nzones && i == Row(z, bits.Length1, first) && j == Col(z, bits.Length1, first)
      modifies bits, this`used, this`free
      ensures Valid() && (was <==> z in old(used)) && (i < bits.Length0 && j < bits.Length1 ==> was == old(bits[i, j]))
      ensures used == if v then old(used) + {z} else old(used) - {z}
      ensures free == old(free) + if was == v then 0 else if v then -1 else 1
      ensures i < bits.Length0 && j < bits.Length1 ==> Rows() == SetBit(old(Rows()), i, j, v)
    {
      var w := bits.Length1;
      ghost var b := Rows();
      ghost var counted := CountedRows(w, first, nzones);
      UsedIs();
      CountedOk(b, w, first, nzones, z);
      SetZone(b, w, first, nzones, z, v);
      FreeBitsSet(b, counted, i, j, v);
      assert free == FreeBits(b, counted);
      was := WriteBit(i, j, v);
      assert was <==> z in used by { assert Busy(b, w, first, nzones, z) <==> was; }
      free := FreeBits(Rows(), counted);
      used := if v then used + {z} else used - {z};
      Resync(used);
    }

    /** Set the first clear bit, when it stands for no zone. */
    method MarkPadding(i: nat, j: nat)
      requires Valid() && i < bits.Length0 && j < bits.Length1 && i * bits.Length1 + j + first - 1 >= nzones
      requires FirstClear(Rows(), i, j)
      modifies bits, this`used, this`free
      ensures Valid() && used == old(used) && free == (if old(free) == 0 then 0 else old(free) - 1)
      ensures Rows() == SetBit(old(Rows()), i, j, true)
    {
      var w := bits.Length1;
      ghost var b := Rows();
      ghost var counted := CountedRows(w, first, nzones);
      UsedIs();
      CountedRowsFit();
      SetPadding(b, w, first, nzones, i, j);
      FreeBitsSet(b, counted, i, j, true);
      if i >= counted { NoFreeBits(b, counted); }
      assert free == FreeBits(b, counted);
      var _ := WriteBit(i, j, true);
      free := FreeBits(Rows(), counted);
      Resync(used);
    }

    /** cominix_free_block: give a zone back; a zone out of range or already free is only logged. */
    method FreeBlock(z: nat)
      requires Valid()
      modifies bits, this`used, this`free, this`warnings
      ensures Valid()
      ensures used == old(used) - {z}
      ensures free == old(free) + if z in old(used) then 1 else 0
      ensures warnings == old(warnings) + if z in old(used) then 0 else 1
    {
      if z < first || z >= nzones {
        warnings := warnings + 1;
        return;
      }
      var bit, zone := (z - first + 1) % bits.Length1, (z - first + 1) / bits.Length1;
      InMap(Rows(), bits.Length1, first, nzones, z);
      assert zone < bits.Length0;  // the branch for a nonexistent bitmap buffer is dead
      var was := MarkZone(z, zone, bit, false);
      if !was {
        warnings := warnings + 1;
      }
    }

    /** count_free: add up the clear bits, word by word. */
    method CountFree() returns (sum: nat)
      requires Valid()
      ensures sum == free
    {
      sum := 0;
      var w := bits.Length1;
      CountedRowsFit();
      var blocks := CountedRows(w, first, nzones);
      var k := 0;
      while k < blocks
        invariant k <= blocks && sum == FreeBits(Rows(), k)
      {
        ghost var row := Rows()[k];
        ghost var before := sum;
        var words := 0;
        while words < w / 16
          invariant words <= w / 16 && sum == before + FreeIn(row, 0, 16 * words)
        {
          var free := ClearBitsOfWord(k, words);
          FreeInSplit(row, 0, 16 * words, 16 * words + 16);
          sum := sum + free;
          words := words + 1;
        }
        k := k + 1;
      }
      assert free == FreeBits(Rows(), blocks);
    }

    /** 16 - hweight16 of one word. */
    method ClearBitsOfWord(k: nat, word: nat) returns (n: nat)
      requires k < bits.Length0 && 16 * word + 16 <= bits.Length1
      ensures n == FreeIn(Rows()[k], 16 * word, 16 * word + 16)
    {
      n := 0;
      var t := 0;
      while t < 16
        invariant t <= 16 && n == FreeIn(Rows()[k], 16 * word, 16 * word + t)
      {
        n := n + if bits[k, 16 * word + t] then 0 else 1;
        t := t + 1;
      }
    }
  }

  /** The smallest bitmap block, for one zone, which is in use: all its other bits are padding. */
  function FullOfPadding(): Bits {
    [seq(8192, j => j < 2)]
  }

  /** No zone is free there; a failing call sets the first padding bit and lowers the count of free zones. */
  lemma PaddingIsTaken()
    ensures var b := FullOfPadding();
      && MapOk(b, 8192, 2, 3) && NoneFree(b, 8192, 2, 3) && CountedRows(8192, 2, 3) == 1
      && SetFirst(b) == SetBit(b, 0, 2, true) && SetFirst(b) != b
      && FreeBits(SetFirst(b), 1) == FreeBits(b, 1) - 1
  {
    hide FreeBits, SetFirst;
    var b := FullOfPadding();
    SetFirstIs(b, 0, 2);
    FreeBitsSet(b, 1, 0, 2, true);
    assert SetBit(b, 0, 2, true)[0][2] && !b[0][2];
  }
}
