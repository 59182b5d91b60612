/**
  The block-mapping tree of an inode as a value.

  A slot of i_data or of an indirect block holds a zone number, or 0 for a hole.  `Load` follows the
  slots and gives the tree that hangs below one; the functions below say what cutting the tree at a
  path and grafting a branch onto a hole mean, and the lemmas what they do to every mapping, to the
  set of zones the tree owns, and to the blocks that store it.
*/
module Trees {
  import opened Geometry

  /** The words of every block of the device. */
  type Mem = map<nat, seq<nat>>

  datatype Tree = Empty | Node(zone: nat, kids: seq<Tree>)

  /** Where a row of slots is kept: in the inode, or in an indirect block whose slots are all `h`
      levels above the data. */
  datatype Level = Root | Indirect(h: nat)

  /** The levels of indirection below slot `i`: the first seven slots of an inode point to data, the
      next three are single, double and triple indirect. */
  function Height(lv: Level, i: nat): nat {
    match lv
    case Root => if DIRECT <= i < DIRECT + DEPTH - 1 then i - DIRECT + 1 else 0
    case Indirect(h) => h
  }

  /** The tree below a slot that holds `z`, `h` levels of indirection above the data. */
  function Load(m: Mem, z: nat, h: nat): Tree
    decreases h, 0
  {
    if z == 0 then Empty
    else if h == 0 || z !in m then Node(z, [])
    else Node(z, LoadAll(m, m[z], Indirect(h - 1)))
  }

  function LoadAll(m: Mem, ws: seq<nat>, lv: Level): (ts: seq<Tree>)
    ensures |ts| == |ws|
    decreases match lv { case Root => DEPTH case Indirect(h) => h }, 1
  {
    seq(|ws|, i requires 0 <= i < |ws| => Load(m, ws[i], Height(lv, i)))
  }

  /** Every zone of a tree: indirect blocks and data blocks alike. */
  function Zones(t: Tree): set<nat> {
    match t
    case Empty => {}
    case Node(z, kids) => {z} + ZonesAll(kids)
  }

  function ZonesAll(ts: seq<Tree>): set<nat> {
    set i, z | 0 <= i < |ts| && z in Zones(ts[i]) :: z
  }

  lemma InAll(ts: seq<Tree>, i: nat)
    requires i < |ts|
    ensures Zones(ts[i]) <= ZonesAll(ts)
  {}

  /** Every zone is reached exactly once. */
  predicate Sep(t: Tree) {
    t.Node? ==> t.zone !in ZonesAll(t.kids) && SepAll(t.kids)
  }

  predicate SepAll(ts: seq<Tree>) {
    && (forall i :: 0 <= i < |ts| ==> Sep(ts[i]))
    && (forall i, j :: 0 <= i < j < |ts| ==> Zones(ts[i]) !! Zones(ts[j]))
  }

  /** Indirect blocks have `n` slots and the data lies exactly `h` levels down. */
  predicate Shaped(t: Tree, h: nat, n: nat)
    decreases h
  {
    t.Node? ==>
      && t.zone != 0
      && if h == 0 then t.kids == []
         else |t.kids| == n && forall i :: 0 <= i < n ==> Shaped(t.kids[i], h - 1, n)
  }

  /** No indirect block is without children. */
  predicate Full(t: Tree) {
    t.Node? ==> (t.kids == [] || !AllEmpty(t.kids)) && FullAll(t.kids)
  }

  predicate FullAll(ts: seq<Tree>) {
    forall i :: 0 <= i < |ts| ==> Full(ts[i])
  }

  predicate AllEmpty(ts: seq<Tree>) {
    forall i :: 0 <= i < |ts| ==> ts[i].Empty?
  }

  /** The subtree that a path of slot numbers leads to. */
  function At(ts: seq<Tree>, p: seq<nat>): Tree
    requires p != []
    decreases |p|
  {
    if p[0] >= |ts| then Empty
    else if |p| == 1 || ts[p[0]].Empty? then (if |p| == 1 then ts[p[0]] else Empty)
    else At(ts[p[0]].kids, p[1..])
  }

  function ZoneOf(t: Tree): nat {
    if t.Empty? then 0 else t.zone
  }

  /** Lexicographic order on paths. */
  predicate Below(p: seq<nat>, c: seq<nat>)
    decreases |p|
  {
    p != [] && c != [] && (p[0] < c[0] || (p[0] == c[0] && Below(p[1..], c[1..])))
  }

  // ---------------------------------------------------------------- blocks and trees

  /** A tree depends on no block but its own. */
  lemma {:induction false} LoadFrame(m: Mem, m': Mem, z: nat, h: nat)
    requires SameOn(m, m', Zones(Load(m, z, h)))
    ensures Load(m', z, h) == Load(m, z, h)
    decreases h
  {
    if z != 0 && h > 0 && z in m {
      var ts := LoadAll(m, m[z], Indirect(h - 1));
      assert z in Zones(Load(m, z, h));
      forall i | 0 <= i < |ts|
        ensures Load(m', m[z][i], h - 1) == ts[i]
      {
        InAll(ts, i);
        LoadFrame(m, m', m[z][i], h - 1);
      }
    } else if z != 0 {
      assert z in Zones(Load(m, z, h));
    }
  }

  predicate WellFormed(m: Mem, z: nat, h: nat, n: nat)
    decreases h
  {
    z != 0 && h > 0 ==>
      z in m && |m[z]| == n && forall i :: 0 <= i < n ==> WellFormed(m, m[z][i], h - 1, n)
  }

  lemma {:induction false} LoadShaped(m: Mem, z: nat, h: nat, n: nat)
    requires WellFormed(m, z, h, n)
    ensures Shaped(Load(m, z, h), h, n)
    decreases h
  {
    if z != 0 && h > 0 {
      forall i | 0 <= i < n
        ensures Shaped(Load(m, m[z][i], h - 1), h - 1, n)
      {
        LoadShaped(m, m[z][i], h - 1, n);
      }
    }
  }

  // ---------------------------------------------------------------- cutting

  /** Cut a list of trees at path `c`: everything at or after `c` goes, and so does every indirect
      block that is left without children. */
  function CutAll(ts: seq<Tree>, c: seq<nat>): (r: seq<Tree>)
    requires c != []
    ensures |r| == |ts|
    decreases |c|, 1
  {
    seq(|ts|, i requires 0 <= i < |ts| =>
      if i < c[0] then ts[i] else if i == c[0] then Cut(ts[i], c[1..]) else Empty)
  }

  function Cut(t: Tree, c: seq<nat>): Tree
    decreases |c|, 2
  {
    if t.Empty? || c == [] then Empty
    else var ks := CutAll(t.kids, c);
      if AllEmpty(ks) then Empty else Node(t.zone, ks)
  }

  /** Truncation keeps every mapping below the cut and no other. */
  lemma {:induction false} CutAt(ts: seq<Tree>, c: seq<nat>, p: seq<nat>)
    requires p != [] && c != []
    requires p[0] == c[0] ==> |p| == |c|
    ensures ZoneOf(At(CutAll(ts, c), p)) == if Below(p, c) then ZoneOf(At(ts, p)) else 0
    decreases |p|
  {
    if p[0] == c[0] < |ts| && |p| > 1 && ts[p[0]].Node? {
      CutAt(ts[p[0]].kids, c[1..], p[1..]);
    }
  }

  /** A cut tree owns a subset of the zones, still reaches each once, keeps its shape, and has no
      indirect block without children. */
  lemma {:induction false} CutKeeps(ts: seq<Tree>, c: seq<nat>)
    requires c != []
    ensures ZonesAll(CutAll(ts, c)) <= ZonesAll(ts)
    ensures SepAll(ts) ==> SepAll(CutAll(ts, c))
    ensures FullAll(ts) ==> FullAll(CutAll(ts, c))
    decreases |c|, 0
  {
    var r := CutAll(ts, c);
    forall i | 0 <= i < |ts|
      ensures Zones(r[i]) <= Zones(ts[i])
      ensures Sep(ts[i]) ==> Sep(r[i])
      ensures Full(ts[i]) ==> Full(r[i])
    {
      if i == c[0] {
        CutKeepsTree(ts[i], c[1..]);
      }
    }
  }

  lemma {:induction false} CutKeepsTree(t: Tree, c: seq<nat>)
    ensures Zones(Cut(t, c)) <= Zones(t)
    ensures Sep(t) ==> Sep(Cut(t, c))
    ensures Full(t) ==> Full(Cut(t, c))
    decreases |c|, 1
  {
    if t.Node? && c != [] {
      CutKeeps(t.kids, c);
    }
  }

  lemma {:induction false} CutShaped(t: Tree, c: seq<nat>, h: nat, n: nat)
    requires Shaped(t, h, n)
    ensures Shaped(Cut(t, c), h, n)
    decreases |c|
  {
    if t.Node? && c != [] && h > 0 {
      var ks := CutAll(t.kids, c);
      forall i | 0 <= i < n
        ensures Shaped(ks[i], h - 1, n)
      {
        if i == c[0] {
          CutShaped(t.kids[i], c[1..], h - 1, n);
        }
      }
    }
  }

  /** The surviving indirect blocks are exactly those above a surviving data block. */
  lemma {:induction false} CutSurvivors(ts: seq<Tree>, c: seq<nat>, q: seq<nat>, h: nat, n: nat)
    requires q != [] && c != [] && |q| <= h + 1
    requires q[0] == c[0] ==> |c| == h + 1
    requires n > 0 && q[0] < |ts| && FullAll(ts) && Shaped(ts[q[0]], h, n)
    ensures At(CutAll(ts, c), q).Node? <==>
      exists p :: q <= p && |p| == h + 1 && Below(p, c) && At(ts, p).Node?
    ensures At(CutAll(ts, c), q).Node? ==> At(ts, q).Node? && At(CutAll(ts, c), q).zone == At(ts, q).zone
  {
    var r := CutAll(ts, c);
    if At(r, q).Node? {
      CutKeeps(ts, c);
      if q[0] == c[0] { CutShaped(ts[q[0]], c[1..], h, n); }
      var p := SomeLeaf(r, q, h, n);
      NonzeroAt(ts, p, h, n);
      CutAt(ts, c, p);
    }
    forall p | q <= p && |p| == h + 1 && Below(p, c) && At(ts, p).Node?
      ensures At(r, q).Node?
    {
      NonzeroAt(ts, p, h, n);
      CutAt(ts, c, p);
      AtPrefix(r, q, p);
    }
    CutZone(ts, c, q);
  }

  /** Below a node of a full tree there is a data block. */
  lemma {:induction false} SomeLeaf(ts: seq<Tree>, q: seq<nat>, h: nat, n: nat) returns (p: seq<nat>)
    requires q != [] && |q| <= h + 1 && q[0] < |ts|
    requires n > 0 && FullAll(ts) && Shaped(ts[q[0]], h, n) && At(ts, q).Node?
    ensures q <= p && |p| == h + 1 && At(ts, p).Node? && At(ts, p).zone != 0
    decreases h
  {
    if h == 0 {
      p := q;
    } else {
      var ks := ts[q[0]].kids;
      var rest: seq<nat>;
      if |q| == 1 {
        var i :| 0 <= i < |ks| && ks[i].Node?;
        rest := SomeLeaf(ks, [i], h - 1, n);
      } else {
        rest := SomeLeaf(ks, q[1..], h - 1, n);
      }
      p := [q[0]] + rest;
      assert p[1..] == rest;
    }
  }

  lemma {:induction false} AtPrefix(ts: seq<Tree>, q: seq<nat>, p: seq<nat>)
    requires q != [] && q <= p && At(ts, p).Node?
    ensures At(ts, q).Node?
    decreases |q|
  {
    if |q| > 1 {
      AtPrefix(ts[p[0]].kids, q[1..], p[1..]);
    }
  }

  lemma {:induction false} NonzeroAt(ts: seq<Tree>, p: seq<nat>, h: nat, n: nat)
    requires p != [] && |p| <= h + 1 && p[0] < |ts| && Shaped(ts[p[0]], h, n)
    ensures At(ts, p).Node? ==> At(ts, p).zone != 0
    decreases h
  {
    if |p| > 1 && ts[p[0]].Node? && p[1] < n {
      NonzeroAt(ts[p[0]].kids, p[1..], h - 1, n);
    }
  }

  lemma {:induction false} CutZone(ts: seq<Tree>, c: seq<nat>, q: seq<nat>)
    requires q != [] && c != []
    ensures At(CutAll(ts, c), q).Node? ==> At(ts, q).Node? && At(CutAll(ts, c), q).zone == At(ts, q).zone
    decreases |q|
  {
    if q[0] == c[0] < |ts| {
      assert CutAll(ts, c)[q[0]] == Cut(ts[q[0]], c[1..]);
      if |q| > 1 && |c| > 1 && ts[q[0]].Node? {
        CutZone(ts[q[0]].kids, c[1..], q[1..]);
      }
    }
  }

  // ---------------------------------------------------------------- grafting

  /** A path through `w` slots at level `lv` down to data, with `n` slots in each indirect block. */
  predicate PathOk(lv: Level, w: nat, n: nat, p: seq<nat>) {
    && p != [] && p[0] < w && |p| == Height(lv, p[0]) + 1
    && forall i :: 1 <= i < |p| ==> p[i] < n
  }

  /** The path `p` runs through `k` indirect blocks and then meets a hole. */
  predicate HoleAt(ts: seq<Tree>, p: seq<nat>, k: nat)
    decreases k
  {
    && k < |p| && p[0] < |ts|
    && if k == 0 then ts[p[0]].Empty? else ts[p[0]].Node? && HoleAt(ts[p[0]].kids, p[1..], k - 1)
  }

  /** How many blocks along the path are not there. */
  function Missing(ts: seq<Tree>, p: seq<nat>): nat
    decreases |p|
  {
    if p == [] then 0
    else if p[0] >= |ts| || ts[p[0]].Empty? then |p|
    else Missing(ts[p[0]].kids, p[1..])
  }

  lemma {:induction false} MissingBelow(ts: seq<Tree>, p: seq<nat>, k: nat)
    requires HoleAt(ts, p, k)
    ensures Missing(ts, p) == |p| - k
    decreases k
  {
    if k > 0 {
      MissingBelow(ts[p[0]].kids, p[1..], k - 1);
    }
  }

  lemma {:induction false} MissingNone(ts: seq<Tree>, p: seq<nat>)
    requires p != [] && At(ts, p).Node?
    ensures Missing(ts, p) == 0
    decreases |p|
  {
    if |p| > 1 {
      MissingNone(ts[p[0]].kids, p[1..]);
    }
  }

  /** The chain of blocks `zs`: each but the last has a single child, in the slot that `p` says. */
  function Branch(p: seq<nat>, zs: seq<nat>, n: nat): Tree
    requires zs != [] && |zs| == |p| + 1
    decreases |p|
  {
    if p == [] then Node(zs[0], [])
    else Node(zs[0], seq(n, i => if i == p[0] then Branch(p[1..], zs[1..], n) else Empty))
  }

  /** Hang the branch `zs` into the hole of path `p` at depth `k`. */
  function Graft(ts: seq<Tree>, p: seq<nat>, k: nat, zs: seq<nat>, n: nat): (r: seq<Tree>)
    requires HoleAt(ts, p, k) && |zs| == |p| - k
    ensures |r| == |ts|
    decreases k
  {
    ts[p[0] := if k == 0 then Branch(p[1..], zs, n)
               else Node(ts[p[0]].zone, Graft(ts[p[0]].kids, p[1..], k - 1, zs, n))]
  }

  function Elems(zs: seq<nat>): set<nat> {
    set z | z in zs
  }

  predicate Distinct(zs: seq<nat>) {
    forall i, j :: 0 <= i < j < |zs| ==> zs[i] != zs[j]
  }

  lemma {:induction false} BranchAt(p: seq<nat>, zs: seq<nat>, n: nat, q: seq<nat>)
    requires |zs| == |p| + 1 && |q| == |p| && p != []
    requires forall i :: 0 <= i < |p| ==> p[i] < n
    ensures ZoneOf(At(Branch(p, zs, n).kids, q)) == if q == p then zs[|p|] else 0
    decreases |p|
  {
    if q[0] == p[0] && |p| > 1 {
      BranchAt(p[1..], zs[1..], n, q[1..]);
      assert q == p <==> q[1..] == p[1..] by { assert q == [q[0]] + q[1..] && p == [p[0]] + p[1..]; }
    }
  }

  /** Grafting maps exactly the path of the branch, to its last zone, and nothing else. */
  lemma {:induction false} GraftAt(ts: seq<Tree>, p: seq<nat>, k: nat, zs: seq<nat>, n: nat, q: seq<nat>)
    requires HoleAt(ts, p, k) && |zs| == |p| - k
    requires forall i :: 1 <= i < |p| ==> p[i] < n
    requires q != [] && (q[0] == p[0] ==> |q| == |p|)
    ensures ZoneOf(At(Graft(ts, p, k, zs, n), q)) == if q == p then zs[|zs| - 1] else ZoneOf(At(ts, q))
    decreases k
  {
    if q[0] == p[0] {
      assert q == p <==> q[1..] == p[1..] by { assert q == [q[0]] + q[1..] && p == [p[0]] + p[1..]; }
      if k > 0 {
        GraftAt(ts[p[0]].kids, p[1..], k - 1, zs, n, q[1..]);
      } else if |p| > 1 {
        BranchAt(p[1..], zs, n, q[1..]);
      }
    }
  }

  /** Grafting changes no node that is already there. */
  lemma {:induction false} GraftStable(ts: seq<Tree>, p: seq<nat>, k: nat, zs: seq<nat>, n: nat, q: seq<nat>)
    requires HoleAt(ts, p, k) && |zs| == |p| - k && q != [] && At(ts, q).Node?
    ensures At(Graft(ts, p, k, zs, n), q).Node? && At(Graft(ts, p, k, zs, n), q).zone == At(ts, q).zone
    decreases k
  {
    if q[0] == p[0] && k > 0 && |q| > 1 {
      GraftStable(ts[p[0]].kids, p[1..], k - 1, zs, n, q[1..]);
    }
  }

  lemma {:induction false} BranchKeeps(p: seq<nat>, zs: seq<nat>, n: nat)
    requires |zs| == |p| + 1
    requires forall i :: 0 <= i < |p| ==> p[i] < n
    ensures Zones(Branch(p, zs, n)) == Elems(zs)
    ensures Distinct(zs) ==> Sep(Branch(p, zs, n))
    ensures Full(Branch(p, zs, n))
    ensures 0 !in zs ==> Shaped(Branch(p, zs, n), |p|, n)
    decreases |p|
  {
    assert zs == [zs[0]] + zs[1..];
    if p != [] {
      BranchKeeps(p[1..], zs[1..], n);
      var ks := Branch(p, zs, n).kids;
      assert ks[p[0]] == Branch(p[1..], zs[1..], n);
      assert ZonesAll(ks) == Zones(ks[p[0]]);
      assert Elems(zs) == {zs[0]} + Elems(zs[1..]);
    } else {
      assert Elems(zs) == {zs[0]};
    }
  }

  /** Grafting adds exactly the zones of the branch, and keeps what a tree must keep. */
  lemma {:induction false} GraftKeeps(ts: seq<Tree>, p: seq<nat>, k: nat, zs: seq<nat>, n: nat)
    requires HoleAt(ts, p, k) && |zs| == |p| - k
    requires forall i :: 1 <= i < |p| ==> p[i] < n
    ensures ZonesAll(Graft(ts, p, k, zs, n)) == ZonesAll(ts) + Elems(zs)
    ensures SepAll(ts) && Distinct(zs) && ZonesAll(ts) !! Elems(zs) ==> SepAll(Graft(ts, p, k, zs, n))
    ensures FullAll(ts) ==> FullAll(Graft(ts, p, k, zs, n))
    decreases k
  {
    var r := Graft(ts, p, k, zs, n);
    var a := p[0];
    InAll(ts, a);
    if k == 0 {
      BranchKeeps(p[1..], zs, n);
      assert r[a] == Branch(p[1..], zs, n);
    } else {
      GraftKeeps(ts[a].kids, p[1..], k - 1, zs, n);
      assert r[a] == Node(ts[a].zone, Graft(ts[a].kids, p[1..], k - 1, zs, n));
      assert r[a].kids[p[1]].Node?;
      assert ts[a].zone in Zones(ts[a]);
      assert Full(ts[a]) ==> Full(r[a]);
      assert Sep(ts[a]) && Distinct(zs) && Zones(ts[a]) !! Elems(zs) ==> Sep(r[a]);
    }
    assert Zones(r[a]) == Zones(ts[a]) + Elems(zs);
    GraftZones(ts, r, a, Elems(zs));
  }

  lemma GraftZones(ts: seq<Tree>, r: seq<Tree>, a: nat, e: set<nat>)
    requires a < |ts| == |r| && r == ts[a := r[a]] && Zones(r[a]) == Zones(ts[a]) + e
    ensures ZonesAll(r) == ZonesAll(ts) + e
  {
    forall z | z in ZonesAll(ts) + e ensures z in ZonesAll(r) {
      if z in ZonesAll(ts) {
        var i :| 0 <= i < |ts| && z in Zones(ts[i]);
        assert z in Zones(r[i]);
      } else {
        assert z in Zones(r[a]);
      }
    }
  }

  /** The blocks `zs` hold a branch along `p`, with every other slot clear. */
  predicate BranchIn(m: Mem, p: seq<nat>, zs: seq<nat>, n: nat)
    requires |zs| == |p| + 1
    decreases |p|
  {
    && zs[0] != 0
    && (p != [] ==>
      && zs[0] in m && p[0] < n
      && m[zs[0]] == ZeroWords(n)[p[0] := zs[1]]
      && BranchIn(m, p[1..], zs[1..], n))
  }

  lemma {:induction false} BranchLoad(m: Mem, p: seq<nat>, zs: seq<nat>, n: nat)
    requires |zs| == |p| + 1 && BranchIn(m, p, zs, n)
    ensures Load(m, zs[0], |p|) == Branch(p, zs, n)
    decreases |p|
  {
    if p != [] {
      BranchLoad(m, p[1..], zs[1..], n);
      var h := |p| - 1;
      forall i | 0 <= i < n ensures LoadAll(m, m[zs[0]], Indirect(h))[i] == Branch(p, zs, n).kids[i] {
        assert m[zs[0]][i] == if i == p[0] then zs[1..][0] else 0;
      }
      assert Load(m, zs[0], |p|).kids == Branch(p, zs, n).kids;
    }
  }

  lemma {:induction false} WellFormedFrame(m: Mem, m': Mem, z: nat, h: nat, n: nat)
    requires SameOn(m, m', Zones(Load(m, z, h))) && WellFormed(m, z, h, n)
    ensures WellFormed(m', z, h, n)
    decreases h
  {
    if z != 0 && h > 0 {
      var ts := LoadAll(m, m[z], Indirect(h - 1));
      forall i | 0 <= i < n
        ensures WellFormed(m', m[z][i], h - 1, n)
      {
        InAll(ts, i);
        WellFormedFrame(m, m', m[z][i], h - 1, n);
      }
    }
  }

  /** Two memories agree on a set of blocks. */
  predicate SameOn(m: Mem, m': Mem, zs: set<nat>) {
    forall z :: z in zs ==> (z in m <==> z in m') && (z in m ==> m'[z] == m[z])
  }

  /** The slot that path `p` reaches at depth `k` holds `v` instead of what it held, and nothing
      else in the blocks of the tree has changed. */
  predicate SlotSet(m: Mem, m': Mem, ws: seq<nat>, ws': seq<nat>, ts: seq<Tree>, p: seq<nat>, k: nat, v: nat)
    requires k < |p|
  {
    if k == 0 then p[0] < |ws| && ws' == ws[p[0] := v] && SameOn(m, m', ZonesAll(ts))
    else
      var holder := ZoneOf(At(ts, p[..k]));
      && ws' == ws && SameOn(m, m', ZonesAll(ts) - {holder})
      && holder in m && holder in m' && p[k] < |m[holder]| && m'[holder] == m[holder][p[k] := v]
  }

  /** Writing the first zone of a stored branch into the vacant slot is grafting. */
  lemma {:induction false} GraftLoad(m: Mem, m': Mem, ws: seq<nat>, ws': seq<nat>, lv: Level,
                                     p: seq<nat>, k: nat, zs: seq<nat>, n: nat)
    requires PathOk(lv, |ws|, n, p) && HoleAt(LoadAll(m, ws, lv), p, k) && |zs| == |p| - k
    requires SepAll(LoadAll(m, ws, lv)) && BranchIn(m', p[k + 1..], zs, n)
    requires SlotSet(m, m', ws, ws', LoadAll(m, ws, lv), p, k, zs[0])
    ensures LoadAll(m', ws', lv) == Graft(LoadAll(m, ws, lv), p, k, zs, n)
    decreases k
  {
    var ts := LoadAll(m, ws, lv);
    var a := p[0];
    var h := Height(lv, a);
    if k == 0 {
      BranchLoad(m', p[1..], zs, n);
    } else {
      SlotBelow(m, m', ws, ws', lv, p, k, zs[0]);
      assert p[k + 1..] == p[1..][k - 1 + 1..];
      GraftLoad(m, m', m[ws[a]], m'[ws[a]], Indirect(h - 1), p[1..], k - 1, zs, n);
    }
    forall i | 0 <= i < |ws| && i != a
      ensures ws'[i] == ws[i] && Load(m', ws[i], Height(lv, i)) == ts[i]
    {
      SlotBeside(m, m', ws, ws', lv, p, k, zs[0], i);
    }
  }

  /** Setting a slot further down the path is setting a slot of the first child. */
  lemma {:induction false} SlotBelow(m: Mem, m': Mem, ws: seq<nat>, ws': seq<nat>, lv: Level,
                                     p: seq<nat>, k: nat, v: nat)
    requires p != [] && p[0] < |ws| && |p| == Height(lv, p[0]) + 1 && HoleAt(LoadAll(m, ws, lv), p, k) && k > 0
    requires SepAll(LoadAll(m, ws, lv)) && SlotSet(m, m', ws, ws', LoadAll(m, ws, lv), p, k, v)
    ensures var z := ws[p[0]];
      var ks := LoadAll(m, ws, lv)[p[0]].kids;
      && z in m && z in m' && ks == LoadAll(m, m[z], Indirect(Height(lv, p[0]) - 1))
      && SlotSet(m, m', m[z], m'[z], ks, p[1..], k - 1, v)
  {
    var ts := LoadAll(m, ws, lv);
    var z, t := ws[p[0]], LoadAll(m, ws, lv)[p[0]];
    assert t == Load(m, z, Height(lv, p[0]));
    HoleAbove(ts, p, k);
    InAll(ts, p[0]);
    SlotInside(m, m', ZonesAll(ts), t, p, k);
  }

  lemma {:induction false} SlotInside(m: Mem, m': Mem, zs: set<nat>, t: Tree, p: seq<nat>, k: nat)
    requires 0 < k < |p| && t.Node? && Sep(t) && Zones(t) <= zs && HoleAt(t.kids, p[1..], k - 1)
    ensures k == 1 ==> SameOn(m, m', zs - {t.zone}) ==> SameOn(m, m', ZonesAll(t.kids))
    ensures k > 1 ==>
      var holder := ZoneOf(At(t.kids, p[1..k]));
      && holder != t.zone
      && (SameOn(m, m', zs - {holder}) ==> SameOn(m, m', ZonesAll(t.kids) - {holder}))
      && p[1..k] == p[1..][..k - 1] == p[..k][1..]
  {
    if k > 1 {
      assert p[1..k] == p[1..][..k - 1] == p[..k][1..];
      HoleAbove(t.kids, p[1..], k - 1);
      AtIn(t.kids, p[1..k]);
      InAll(t.kids, p[1]);
    }
  }

  lemma {:induction false} SlotBeside(m: Mem, m': Mem, ws: seq<nat>, ws': seq<nat>, lv: Level,
                                      p: seq<nat>, k: nat, v: nat, i: nat)
    requires p != [] && HoleAt(LoadAll(m, ws, lv), p, k) && i < |ws| && i != p[0]
    requires SepAll(LoadAll(m, ws, lv)) && SlotSet(m, m', ws, ws', LoadAll(m, ws, lv), p, k, v)
    ensures ws'[i] == ws[i] && Load(m', ws[i], Height(lv, i)) == LoadAll(m, ws, lv)[i]
  {
    var ts := LoadAll(m, ws, lv);
    InAll(ts, i);
    if k > 0 {
      HoleAbove(ts, p, k);
      AtIn(ts, p[..k]);
      assert Zones(ts[i]) !! Zones(ts[p[0]]);
    }
    LoadFrame(m, m', ws[i], Height(lv, i));
  }

  lemma {:induction false} AtIn(ts: seq<Tree>, p: seq<nat>)
    requires p != [] && At(ts, p).Node?
    ensures p[0] < |ts| && At(ts, p).zone in Zones(ts[p[0]])
    decreases |p|
  {
    if |p| > 1 {
      AtIn(ts[p[0]].kids, p[1..]);
      InAll(ts[p[0]].kids, p[1]);
    }
  }

  lemma {:induction false} HoleAbove(ts: seq<Tree>, p: seq<nat>, k: nat)
    requires HoleAt(ts, p, k) && k > 0
    ensures At(ts, p[..k]).Node?
    decreases k
  {
    assert p[..k][1..] == p[1..][..k - 1];
    if k > 1 {
      HoleAbove(ts[p[0]].kids, p[1..], k - 1);
    }
  }

  // ---------------------------------------------------------------- chains of keys

  /** The slots that level `l` of a chain lives in: those of the inode, or those of the block that
      the key before it names. */
  function LevelWords(m: Mem, ws: seq<nat>, keys: seq<nat>, l: nat): seq<nat>
    requires l <= |keys| && (l > 0 ==> keys[l - 1] in m)
  {
    if l == 0 then ws else m[keys[l - 1]]
  }

  function LevelOf(d: nat, l: nat): Level
    requires l < d
  {
    if l == 0 then Root else Indirect(d - 1 - l)
  }

  /** A chain of keys read along path `p`: every key is what its slot holds, and only the last may
      be 0. */
  predicate Linked(m: Mem, ws: seq<nat>, p: seq<nat>, keys: seq<nat>) {
    && |keys| <= |p|
    && (forall l :: 0 <= l < |keys| - 1 ==> keys[l] != 0 && keys[l] in m)
    && (forall l :: 0 <= l < |keys| ==>
       p[l] < |LevelWords(m, ws, keys, l)| && keys[l] == LevelWords(m, ws, keys, l)[p[l]])
  }

  /** The trees below the slots of level `l`. */
  function Kids(m: Mem, ws: seq<nat>, keys: seq<nat>, d: nat, l: nat): seq<Tree>
    requires l < d && l <= |keys| && (l > 0 ==> keys[l - 1] in m)
  {
    LoadAll(m, LevelWords(m, ws, keys, l), LevelOf(d, l))
  }

  predicate WellFormedAll(m: Mem, ws: seq<nat>, lv: Level, n: nat) {
    forall i :: 0 <= i < |ws| ==> WellFormed(m, ws[i], Height(lv, i), n)
  }

  /** Level `l + 1` of a chain is the inside of one child of level `l`. */
  lemma {:induction false} KidsStep(m: Mem, ws: seq<nat>, p: seq<nat>, keys: seq<nat>, l: nat, n: nat)
    requires |ws| == INODE_SLOTS && PathOk(Root, |ws|, n, p)
    requires l < |keys| && l + 1 < |p| && Linked(m, ws, p, keys) && keys[l] != 0
    requires WellFormedAll(m, LevelWords(m, ws, keys, l), LevelOf(|p|, l), n)
    requires SepAll(Kids(m, ws, keys, |p|, l))
    ensures keys[l] in m && |m[keys[l]]| == n
    ensures WellFormedAll(m, m[keys[l]], LevelOf(|p|, l + 1), n)
    ensures Kids(m, ws, keys, |p|, l)[p[l]] == Node(keys[l], Kids(m, ws, keys, |p|, l + 1))
    ensures SepAll(Kids(m, ws, keys, |p|, l + 1)) && keys[l] !in ZonesAll(Kids(m, ws, keys, |p|, l + 1))
  {
    var h := Height(LevelOf(|p|, l), p[l]);
    assert h == |p| - 1 - l;
    assert WellFormed(m, keys[l], h, n);
    assert Kids(m, ws, keys, |p|, l)[p[l]] == Load(m, keys[l], h);
    assert LevelOf(|p|, l + 1) == Indirect(h - 1);
    assert Sep(Kids(m, ws, keys, |p|, l)[p[l]]);
  }

  lemma {:induction false} KidsUpTo(m: Mem, ws: seq<nat>, p: seq<nat>, keys: seq<nat>, l: nat, n: nat)
    requires |ws| == INODE_SLOTS && PathOk(Root, |ws|, n, p)
    requires l <= |keys| && l < |p| && Linked(m, ws, p, keys) && (l > 0 ==> keys[l - 1] != 0)
    requires WellFormedAll(m, ws, Root, n) && SepAll(LoadAll(m, ws, Root))
    ensures l > 0 ==> keys[l - 1] in m && |m[keys[l - 1]]| == n
    ensures WellFormedAll(m, LevelWords(m, ws, keys, l), LevelOf(|p|, l), n)
    ensures SepAll(Kids(m, ws, keys, |p|, l))
    decreases l
  {
    if l > 0 {
      KidsUpTo(m, ws, p, keys, l - 1, n);
      KidsStep(m, ws, p, keys, l - 1, n);
    }
  }

  /** What a chain says about the tree: the subtree that each of its keys names. */
  lemma {:induction false} ChainAt(m: Mem, ws: seq<nat>, p: seq<nat>, keys: seq<nat>, l: nat, n: nat)
    requires |ws| == INODE_SLOTS && PathOk(Root, |ws|, n, p)
    requires l < |keys| && Linked(m, ws, p, keys)
    requires WellFormedAll(m, ws, Root, n) && SepAll(LoadAll(m, ws, Root))
    ensures At(LoadAll(m, ws, Root), p[..l + 1]) == Load(m, keys[l], |p| - 1 - l)
    ensures ZoneOf(At(LoadAll(m, ws, Root), p[..l + 1])) == keys[l]
    decreases l
  {
    hide SepAll, WellFormedAll, WellFormed, Zones, ZonesAll, At;
    var ts := LoadAll(m, ws, Root);
    KidsUpTo(m, ws, p, keys, l, n);
    AtOne(ts, p[0]);
    assert p[..1] == [p[0]];
    if l > 0 {
      ChainAt(m, ws, p, keys, l - 1, n);
      KidsUpTo(m, ws, p, keys, l - 1, n);
      KidsStep(m, ws, p, keys, l - 1, n);
      assert p[..l + 1] == p[..l] + [p[l]];
      AtSnoc(ts, p[..l], p[l]);
    }
  }

  lemma AtOne(ts: seq<Tree>, i: nat)
    ensures At(ts, [i]) == if i < |ts| then ts[i] else Empty
  {}

  lemma {:induction false} AtSnoc(ts: seq<Tree>, p: seq<nat>, i: nat)
    requires p != []
    ensures At(ts, p + [i]) ==
      match At(ts, p) { case Empty => Empty case Node(_, ks) => if i < |ks| then ks[i] else Empty }
    decreases |p|
  {
    if |p| > 1 && p[0] < |ts| && ts[p[0]].Node? {
      AtSnoc(ts[p[0]].kids, p[1..], i);
      assert (p + [i])[1..] == p[1..] + [i];
    } else if |p| == 1 {
      assert (p + [i])[1..] == [i];
    }
  }

  /** A chain that ends in 0 has met a hole. */
  lemma {:induction false} ChainHole(m: Mem, ws: seq<nat>, p: seq<nat>, keys: seq<nat>, n: nat)
    requires |ws| == INODE_SLOTS && PathOk(Root, |ws|, n, p)
    requires keys != [] && Linked(m, ws, p, keys) && keys[|keys| - 1] == 0
    requires WellFormedAll(m, ws, Root, n) && SepAll(LoadAll(m, ws, Root))
    ensures HoleAt(LoadAll(m, ws, Root), p, |keys| - 1)
  {
    var k := |keys| - 1;
    var ts := LoadAll(m, ws, Root);
    ChainAt(m, ws, p, keys, k, n);
    if k > 0 {
      ChainAt(m, ws, p, keys, k - 1, n);
      KidsUpTo(m, ws, p, keys, k, n);
      assert p[..k + 1] == p[..k] + [p[k]];
      HoleFromAt(ts, p, k);
    }
  }

  lemma {:induction false} HoleFromAt(ts: seq<Tree>, p: seq<nat>, k: nat)
    requires 0 < k < |p| && At(ts, p[..k]).Node? && p[k] < |At(ts, p[..k]).kids| && At(ts, p[..k]).kids[p[k]].Empty?
    ensures HoleAt(ts, p, k)
    decreases k
  {
    assert p[..k][1..] == p[1..][..k - 1];
    if k > 1 {
      HoleFromAt(ts[p[0]].kids, p[1..], k - 1);
    }
  }

  /** A key of a chain is a zone of the tree. */
  lemma {:induction false} ChainOwned(m: Mem, ws: seq<nat>, p: seq<nat>, keys: seq<nat>, l: nat, n: nat)
    requires |ws| == INODE_SLOTS && PathOk(Root, |ws|, n, p)
    requires l < |keys| && Linked(m, ws, p, keys) && keys[l] != 0
    requires WellFormedAll(m, ws, Root, n) && SepAll(LoadAll(m, ws, Root))
    ensures keys[l] in ZonesAll(LoadAll(m, ws, Root))
    ensures l + 1 < |p| ==> keys[l] in m && |m[keys[l]]| == n
  {
    var ts := LoadAll(m, ws, Root);
    ChainAt(m, ws, p, keys, l, n);
    AtIn(ts, p[..l + 1]);
    InAll(ts, p[0]);
    KidsUpTo(m, ws, p, keys, l, n);
    if l + 1 < |p| {
      KidsStep(m, ws, p, keys, l, n);
    }
  }

  /** A branch written one block at a time. */
  predicate BranchSteps(m: Mem, p: seq<nat>, zs: seq<nat>, n: nat)
    requires |zs| <= |p| + 1
  {
    && 0 !in zs
    && forall j :: 0 <= j < |zs| - 1 ==> zs[j] in m && p[j] < n && m[zs[j]] == ZeroWords(n)[p[j] := zs[j + 1]]
  }

  /** One more block: the last one is cleared and made to name the new one. */
  lemma {:induction false} BranchExtended(m: Mem, m': Mem, p: seq<nat>, zs: seq<nat>, z: nat, n: nat)
    requires 1 <= |zs| <= |p| && BranchSteps(m, p, zs, n) && Distinct(zs) && z != 0 && p[|zs| - 1] < n
    requires m'.Keys == m.Keys && SameOn(m, m', m.Keys - {zs[|zs| - 1]})
    requires zs[|zs| - 1] in m' && m'[zs[|zs| - 1]] == ZeroWords(n)[p[|zs| - 1] := z]
    ensures BranchSteps(m', p, zs + [z], n)
  {
    var zs' := zs + [z];
    forall j | 0 <= j < |zs'| - 1
      ensures zs'[j] in m' && p[j] < n && m'[zs'[j]] == ZeroWords(n)[p[j] := zs'[j + 1]]
    {
      if j < |zs| - 1 {
        assert zs[j] in m && zs[j] != zs[|zs| - 1];
      }
    }
  }

  lemma {:induction false} BranchBuilt(m: Mem, p: seq<nat>, zs: seq<nat>, n: nat)
    requires |zs| == |p| + 1 && BranchSteps(m, p, zs, n)
    ensures BranchIn(m, p, zs, n)
    decreases |p|
  {
    assert zs[0] in zs;
    if p != [] {
      assert zs[0] in m && m[zs[0]] == ZeroWords(n)[p[0] := zs[0 + 1]];
      forall j | 0 <= j < |zs[1..]| - 1
        ensures zs[1..][j] in m && p[1..][j] < n && m[zs[1..][j]] == ZeroWords(n)[p[1..][j] := zs[1..][j + 1]]
      {
        assert zs[j + 1] in m && p[j + 1] < n;
      }
      BranchBuilt(m, p[1..], zs[1..], n);
    }
  }

  lemma {:induction false} BranchFrame(m: Mem, m': Mem, p: seq<nat>, zs: seq<nat>, n: nat)
    requires |zs| == |p| + 1 && BranchIn(m, p, zs, n) && SameOn(m, m', Elems(zs))
    ensures BranchIn(m', p, zs, n)
    decreases |p|
  {
    if p != [] {
      assert zs[0] in Elems(zs);
      assert forall z :: z in Elems(zs[1..]) ==> z in Elems(zs);
      BranchFrame(m, m', p[1..], zs[1..], n);
    }
  }

  /** A tree is well formed when all its zones are blocks of `n` words. */
  lemma {:induction false} WellFormedIn(m: Mem, z: nat, h: nat, n: nat)
    requires forall y :: y in Zones(Load(m, z, h)) ==> y in m && |m[y]| == n
    ensures WellFormed(m, z, h, n)
    decreases h
  {
    if z != 0 && h > 0 {
      assert z in Zones(Load(m, z, h));
      var ts := LoadAll(m, m[z], Indirect(h - 1));
      forall i | 0 <= i < n
        ensures WellFormed(m, m[z][i], h - 1, n)
      {
        InAll(ts, i);
        WellFormedIn(m, m[z][i], h - 1, n);
      }
    }
  }

  lemma {:induction false} ForestWellFormed(m: Mem, ws: seq<nat>, lv: Level, n: nat)
    requires forall y :: y in ZonesAll(LoadAll(m, ws, lv)) ==> y in m && |m[y]| == n
    ensures WellFormedAll(m, ws, lv, n)
  {
    var ts := LoadAll(m, ws, lv);
    forall i | 0 <= i < |ws|
      ensures WellFormed(m, ws[i], Height(lv, i), n)
    {
      InAll(ts, i);
      WellFormedIn(m, ws[i], Height(lv, i), n);
    }
  }

  /** Reading the same slots out of unchanged blocks gives the same trees. */
  lemma {:induction false} ForestFrame(m: Mem, m': Mem, ws: seq<nat>, lv: Level)
    requires SameOn(m, m', ZonesAll(LoadAll(m, ws, lv)))
    ensures LoadAll(m', ws, lv) == LoadAll(m, ws, lv)
  {
    var ts := LoadAll(m, ws, lv);
    forall i | 0 <= i < |ws|
      ensures Load(m', ws[i], Height(lv, i)) == ts[i]
    {
      InAll(ts, i);
      LoadFrame(m, m', ws[i], Height(lv, i));
    }
  }

  lemma {:induction false} LinkedFrame(m: Mem, m': Mem, ws: seq<nat>, p: seq<nat>, keys: seq<nat>, n: nat)
    requires |ws| == INODE_SLOTS && PathOk(Root, |ws|, n, p) && Linked(m, ws, p, keys)
    requires WellFormedAll(m, ws, Root, n) && SepAll(LoadAll(m, ws, Root))
    requires SameOn(m, m', ZonesAll(LoadAll(m, ws, Root)))
    ensures Linked(m', ws, p, keys)
  {
    forall l | 0 <= l < |keys| - 1
      ensures keys[l] in m' && m'[keys[l]] == m[keys[l]]
    {
      ChainOwned(m, ws, p, keys, l, n);
    }
    forall l | 0 <= l < |keys|
      ensures p[l] < |LevelWords(m', ws, keys, l)| && keys[l] == LevelWords(m', ws, keys, l)[p[l]]
    {
      assert LevelWords(m, ws, keys, l)[p[l]] == keys[l];
      assert l > 0 ==> m'[keys[l - 1]] == m[keys[l - 1]];
    }
  }

  // ---------------------------------------------------------------- data blocks

  /** The zones of indirect blocks, which are the only ones that reading a tree looks at. */
  function Inner(t: Tree): set<nat> {
    match t
    case Empty => {}
    case Node(z, kids) => if kids == [] then {} else {z} + InnerAll(kids)
  }

  function InnerAll(ts: seq<Tree>): set<nat> {
    set i, z | 0 <= i < |ts| && z in Inner(ts[i]) :: z
  }

  lemma {:induction false} InnerOwned(t: Tree)
    ensures Inner(t) <= Zones(t)
    decreases t, 0
  {
    if t.Node? {
      InnerAllOwned(t.kids);
    }
  }

  lemma {:induction false} InnerAllOwned(ts: seq<Tree>)
    ensures InnerAll(ts) <= ZonesAll(ts)
    decreases ts, 1
  {
    forall z | z in InnerAll(ts)
      ensures z in ZonesAll(ts)
    {
      var i :| 0 <= i < |ts| && z in Inner(ts[i]);
      InnerOwned(ts[i]);
      InAll(ts, i);
    }
  }

  /** A tree does not depend on what its data blocks hold. */
  lemma {:induction false} LoadInner(m: Mem, m': Mem, z: nat, h: nat, n: nat)
    requires n > 0 && WellFormed(m, z, h, n) && SameOn(m, m', Inner(Load(m, z, h)))
    ensures Load(m', z, h) == Load(m, z, h)
    decreases h
  {
    if z != 0 && h > 0 {
      var ts := LoadAll(m, m[z], Indirect(h - 1));
      assert z in Inner(Load(m, z, h));
      forall i | 0 <= i < |ts|
        ensures Load(m', m[z][i], h - 1) == ts[i]
      {
        assert forall y :: y in Inner(ts[i]) ==> y in InnerAll(ts);
        LoadInner(m, m', m[z][i], h - 1, n);
      }
    }
  }

  lemma {:induction false} ForestInner(m: Mem, m': Mem, ws: seq<nat>, lv: Level, n: nat)
    requires n > 0 && WellFormedAll(m, ws, lv, n) && SameOn(m, m', InnerAll(LoadAll(m, ws, lv)))
    ensures LoadAll(m', ws, lv) == LoadAll(m, ws, lv)
  {
    var ts := LoadAll(m, ws, lv);
    forall i | 0 <= i < |ws|
      ensures Load(m', ws[i], Height(lv, i)) == ts[i]
    {
      assert forall y :: y in Inner(ts[i]) ==> y in InnerAll(ts);
      LoadInner(m, m', ws[i], Height(lv, i), n);
    }
  }

  /** A data block is not an indirect block. */
  lemma {:induction false} LeafNotInner(ts: seq<Tree>, p: seq<nat>)
    requires p != [] && SepAll(ts) && At(ts, p).Node? && At(ts, p).kids == []
    ensures At(ts, p).zone in ZonesAll(ts) && At(ts, p).zone !in InnerAll(ts)
    decreases |p|
  {
    var z, a := At(ts, p).zone, p[0];
    if |p| > 1 {
      LeafNotInner(ts[a].kids, p[1..]);
    }
    assert z in Zones(ts[a]) && z !in Inner(ts[a]);
    InAll(ts, a);
    forall i | 0 <= i < |ts|
      ensures z !in Inner(ts[i])
    {
      if i != a {
        InnerOwned(ts[i]);
      }
    }
  }

  /** No zone is mapped twice. */
  lemma {:induction false} AtApart(ts: seq<Tree>, p: seq<nat>, q: seq<nat>)
    requires p != [] && q != [] && p != q && (p[0] == q[0] ==> |p| == |q|) && SepAll(ts)
    requires At(ts, p).Node? && At(ts, q).Node?
    ensures At(ts, p).zone != At(ts, q).zone
    decreases |p|
  {
    if p[0] == q[0] {
      assert p == [p[0]] + p[1..] && q == [q[0]] + q[1..];
      AtApart(ts[p[0]].kids, p[1..], q[1..]);
    } else {
      AtIn(ts, p);
      AtIn(ts, q);
    }
  }

  /** The end of a full path is a data block. */
  lemma {:induction false} LeafHasNoKids(ts: seq<Tree>, p: seq<nat>, h: nat, n: nat)
    requires p != [] && |p| == h + 1 && p[0] < |ts| && Shaped(ts[p[0]], h, n) && At(ts, p).Node?
    ensures At(ts, p).kids == []
    decreases h
  {
    if h > 0 {
      LeafHasNoKids(ts[p[0]].kids, p[1..], h - 1, n);
    }
  }
}
