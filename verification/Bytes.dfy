/** Byte strings, little-endian numbers and the words of a block. */
module Bytes {
  import opened Arith
  import opened Geometry

  type Byte = x: int | 0 <= x < 256

  function Pow256(n: nat): (r: nat)
    ensures r > 0
  {
    if n == 0 then 1 else 256 * Pow256(n - 1)
  }

  lemma Pow256Is()
    ensures Pow256(4) == U32 && Pow256(8) == U64
  {
    assert Pow256(4) == U32;
    assert Pow256(8) == 256 * (256 * (256 * (256 * Pow256(4))));
  }

  /** `v` in `n` bytes, low byte first. */
  function Enc(v: nat, n: nat): (s: seq<Byte>)
    ensures |s| == n
    decreases n
  {
    if n == 0 then [] else [v % 256] + Enc(v / 256, n - 1)
  }

  /** The low byte comes first. */
  lemma {:induction false} EncAt(v: nat, n: nat, i: nat)
    requires i < n
    ensures Enc(v, n)[i] == v / Pow256(i) % 256
    decreases i
  {
    if i > 0 {
      EncAt(v / 256, n - 1, i - 1);
      DivTwice(v, 256, Pow256(i - 1));
    } else {
      assert Pow256(0) == 1;
    }
  }

  function Dec(s: seq<Byte>): nat {
    if s == [] then 0 else s[0] + 256 * Dec(s[1..])
  }

  lemma {:induction false} DecEnc(v: nat, n: nat)
    requires v < Pow256(n)
    ensures Dec(Enc(v, n)) == v
    decreases n
  {
    if n > 0 {
      DecEnc(v / 256, n - 1);
      assert Enc(v, n)[1..] == Enc(v / 256, n - 1);
    }
  }

  function Zeros(n: nat): (s: seq<Byte>)
    ensures |s| == n
  {
    seq(n, _ => 0)
  }

  lemma {:induction false} DecZeros(n: nat)
    ensures Dec(Zeros(n)) == 0
  {
    if n > 0 {
      DecZeros(n - 1);
      assert Zeros(n)[1..] == Zeros(n - 1);
    }
  }

  /** `n` bytes at `off`. */
  function Sub(d: seq<Byte>, off: nat, n: nat): (s: seq<Byte>)
    requires off + n <= |d|
    ensures |s| == n && forall i :: 0 <= i < n ==> s[i] == d[off + i]
  {
    d[off..off + n]
  }

  /** Overwrite the bytes at `off`. */
  function Put(d: seq<Byte>, off: nat, s: seq<Byte>): (r: seq<Byte>)
    requires off + |s| <= |d|
    ensures |r| == |d|
    ensures forall i :: 0 <= i < |d| ==> r[i] == if off <= i < off + |s| then s[i - off] else d[i]
  {
    d[..off] + s + d[off + |s|..]
  }

  lemma SubPut(d: seq<Byte>, off: nat, s: seq<Byte>, o: nat, n: nat)
    requires off + |s| <= |d| && o + n <= |d|
    ensures off <= o && o + n <= off + |s| ==> Sub(Put(d, off, s), o, n) == s[o - off..o - off + n]
    ensures o + n <= off || off + |s| <= o ==> Sub(Put(d, off, s), o, n) == Sub(d, o, n)
    ensures o <= off && off + |s| <= o + n ==> Sub(Put(d, off, s), o, n) == Put(Sub(d, o, n), off - o, s)
  {
    var r := Sub(Put(d, off, s), o, n);
    if off <= o && o + n <= off + |s| {
      var t := s[o - off..o - off + n];
      assert forall i :: 0 <= i < n ==> r[i] == t[i];
    } else if o <= off && off + |s| <= o + n {
      var t := Put(Sub(d, o, n), off - o, s);
      assert forall i :: 0 <= i < n ==> r[i] == t[i];
    }
  }

  /** Two writes next to each other are one. */
  lemma PutPut(d: seq<Byte>, off: nat, s: seq<Byte>, t: seq<Byte>)
    requires off + |s| + |t| <= |d|
    ensures Put(Put(d, off, s), off + |s|, t) == Put(d, off, s + t)
  {}

  lemma SubSub(d: seq<Byte>, o: nat, n: nat, o': nat, n': nat)
    requires o + n <= |d| && o' + n' <= n
    ensures Sub(Sub(d, o, n), o', n') == Sub(d, o + o', n')
  {
    assert forall i :: 0 <= i < n' ==> Sub(Sub(d, o, n), o', n')[i] == Sub(d, o + o', n')[i];
  }

  // ---------------------------------------------------------------- blocks of words

  /** A block as 32-bit words. */
  function Words(b: seq<Byte>): (ws: seq<nat>)
    ensures |ws| == |b| / 4
  {
    seq(|b| / 4, i requires 0 <= i < |b| / 4 => Dec(b[4 * i..4 * i + 4]))
  }

  lemma WordsPut(b: seq<Byte>, i: nat, v: nat)
    requires i < |b| / 4 && v < 0x1_0000_0000
    ensures Words(Put(b, 4 * i, Enc(v, 4))) == Words(b)[i := v]
  {
    assert Pow256(4) == 0x1_0000_0000;
    DecEnc(v, 4);
    var b' := Put(b, 4 * i, Enc(v, 4));
    forall j | 0 <= j < |b| / 4
      ensures Words(b')[j] == Words(b)[i := v][j]
    {
      SubPut(b, 4 * i, Enc(v, 4), 4 * j, 4);
      assert b'[4 * j..4 * j + 4] == Sub(b', 4 * j, 4) && b[4 * j..4 * j + 4] == Sub(b, 4 * j, 4);
    }
  }

  lemma WordsZeros(n: nat)
    ensures Words(Zeros(n)) == ZeroWords(n / 4)
  {
    forall j | 0 <= j < n / 4
      ensures Words(Zeros(n))[j] == 0
    {
      assert Zeros(n)[4 * j..4 * j + 4] == Zeros(4);
      DecZeros(4);
    }
  }

  // ---------------------------------------------------------------- blocks of a device

  /** Where block `z` starts. */
  function Start(z: nat, bs: nat): nat {
    z * bs
  }

  lemma BlockFits(z: nat, bs: nat, size: nat)
    requires bs > 0 && z < size / bs
    ensures Start(z, bs) + bs <= size
  {
    DivMod(size, bs, 0);
    MulMono(z + 1, size / bs, bs, bs);
  }

  lemma BlocksApart(y: nat, z: nat, bs: nat)
    requires y != z
    ensures Start(y, bs) + bs <= Start(z, bs) || Start(z, bs) + bs <= Start(y, bs)
  {
    if y < z { MulMono(y + 1, z, bs, bs); } else { MulMono(z + 1, y, bs, bs); }
  }

  /** Block `z` of a device. */
  function Block(d: seq<Byte>, bs: nat, z: nat): (b: seq<Byte>)
    requires bs > 0 && z < |d| / bs
    ensures |b| == bs
  {
    BlockFits(z, bs, |d|);
    Sub(d, Start(z, bs), bs)
  }

  /** A write inside one block changes that block and no other. */
  lemma BlockPut(d: seq<Byte>, bs: nat, z: nat, i: nat, s: seq<Byte>)
    requires bs > 0 && z < |d| / bs && i + |s| <= bs
    ensures Start(z, bs) + i + |s| <= |d|
    ensures var d' := Put(d, Start(z, bs) + i, s);
      && Block(d', bs, z) == Put(Block(d, bs, z), i, s)
      && (forall y :: 0 <= y < |d| / bs && y != z ==> Block(d', bs, y) == Block(d, bs, y))
  {
    BlockFits(z, bs, |d|);
    SubPut(d, Start(z, bs) + i, s, Start(z, bs), bs);
    forall y | 0 <= y < |d| / bs && y != z
      ensures Block(Put(d, Start(z, bs) + i, s), bs, y) == Block(d, bs, y)
    {
      BlockFits(y, bs, |d|);
      BlocksApart(y, z, bs);
      SubPut(d, Start(z, bs) + i, s, Start(y, bs), bs);
    }
  }
}
