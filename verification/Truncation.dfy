/** Cutting the block-mapping tree at a path (find_shared and truncate of itree_common.c). */
module Truncation {
  import opened Arith
  import opened Geometry
  import opened Bytes
  import opened BlockPath
  import opened Trees
  import opened Volumes
  import opened Itree

  /** Nothing lies before a path of zeros. */
  lemma {:induction false} CutZeros(t: Tree, c: seq<nat>)
    requires forall i :: 0 <= i < |c| ==> c[i] == 0
    ensures Cut(t, c).Empty?
    decreases |c|
  {
    if t.Node? && c != [] {
      var ks := CutAll(t.kids, c);
      forall i | 0 <= i < |ks|
        ensures ks[i].Empty?
      {
        if i == 0 {
          CutZeros(t.kids[0], c[1..]);
        }
      }
    }
  }

  /** A list of trees of which the first `j` have been cut. */
  function Mixed(cut: seq<Tree>, kids: seq<Tree>, j: nat): (r: seq<Tree>)
    requires j <= |kids| == |cut|
    ensures |r| == |kids| && forall i :: 0 <= i < |r| ==> r[i] == if i < j then cut[i] else kids[i]
  {
    cut[..j] + kids[j..]
  }

  /** `cut` owns, child by child, part of what `kids` owns. */
  predicate Within(cut: seq<Tree>, kids: seq<Tree>) {
    && |cut| == |kids| && SepAll(kids) && SepAll(cut)
    && forall i :: 0 <= i < |kids| ==> Zones(cut[i]) <= Zones(kids[i])
  }

  lemma {:induction false} CutWithin(kids: seq<Tree>, c: seq<nat>)
    requires c != [] && SepAll(kids)
    ensures Within(CutAll(kids, c), kids)
  {
    CutKeeps(kids, c);
    forall i | 0 <= i < |kids|
      ensures Zones(CutAll(kids, c)[i]) <= Zones(kids[i])
    {
      CutKeepsTree(kids[i], c[1..]);
    }
  }

  lemma MixedSep(cut: seq<Tree>, kids: seq<Tree>, j: nat)
    requires Within(cut, kids) && j <= |kids|
    ensures SepAll(Mixed(cut, kids, j)) && ZonesAll(Mixed(cut, kids, j)) <= ZonesAll(kids)
    ensures ZonesIn(Mixed(cut, kids, j), j, |kids|) == ZonesIn(kids, j, |kids|)
    ensures ZonesIn(kids, j, |kids|) !! ZonesIn(kids, 0, j)
  {
    var r := Mixed(cut, kids, j);
    forall z | z in ZonesAll(r)
      ensures z in ZonesAll(kids)
    {
      var i :| 0 <= i < |r| && z in Zones(r[i]);
      assert z in Zones(kids[i]);
    }
  }

  /** What has been given back once the first `j` children have been cut. */
  function Gone(cut: seq<Tree>, kids: seq<Tree>, j: nat): set<nat>
    requires j <= |kids| == |cut|
  {
    ZonesIn(kids, 0, j) - ZonesIn(cut, 0, j)
  }

  /** Emptying children gives back exactly their zones. */
  lemma GoneRange(cut: seq<Tree>, kids: seq<Tree>, j: nat, k: nat)
    requires Within(cut, kids) && j <= k <= |kids| && forall i :: j <= i < |cut| ==> cut[i].Empty?
    ensures Gone(cut, kids, k) == Gone(cut, kids, j) + ZonesIn(kids, j, k)
  {
    assert ZonesIn(kids, 0, k) == ZonesIn(kids, 0, j) + ZonesIn(kids, j, k);
    assert ZonesIn(cut, 0, k) == ZonesIn(cut, 0, j);
    forall z | z in ZonesIn(cut, 0, j)
      ensures z !in ZonesIn(kids, j, k)
    {
      var i :| 0 <= i < j && z in Zones(cut[i]);
      assert z in Zones(kids[i]);
    }
  }

  lemma GoneRest(cut: seq<Tree>, kids: seq<Tree>, j: nat)
    requires Within(cut, kids) && j <= |kids| && forall i :: j <= i < |cut| ==> cut[i].Empty?
    ensures Gone(cut, kids, |kids|) == Gone(cut, kids, j) + ZonesIn(kids, j, |kids|)
    ensures Gone(cut, kids, |kids|) == ZonesAll(kids) - ZonesAll(cut)
  {
    GoneRange(cut, kids, j, |kids|);
    assert ZonesIn(kids, 0, |kids|) == ZonesAll(kids) && ZonesIn(cut, 0, |cut|) == ZonesAll(cut);
  }

  /** One level up, the child on the path is the only one that has lost zones. */
  lemma GoneUp(cut: seq<Tree>, kids: seq<Tree>, i: nat)
    requires Within(cut, kids) && i < |kids| && forall j :: 0 <= j < i ==> cut[j] == kids[j]
    ensures Gone(cut, kids, i + 1) == Zones(kids[i]) - Zones(cut[i])
    ensures Gone(cut, kids, i) == {}
  {
    assert ZonesIn(kids, 0, i) == ZonesIn(cut, 0, i);
    ZonesInStep(kids, 0, i);
    ZonesInStep(cut, 0, i);
  }

  /** The state in which truncation started. */
  datatype Snap = Snap(blocks: Blocks, mem: Mem, ws: seq<nat>, used: set<nat>)

  /** A sound tree, and a chain of keys read from it along the path of the cut. */
  ghost predicate SnapOk(s: Snap, n: nat, nzones: nat, c: seq<nat>, keys: seq<nat>) {
    && |s.ws| == INODE_SLOTS && WellFormedAll(s.mem, s.ws, Root, n)
    && SepAll(LoadAll(s.mem, s.ws, Root)) && ZonesAll(LoadAll(s.mem, s.ws, Root)) <= s.used
    && (forall z :: z in s.used ==> z < nzones) && WordsOf(s.blocks, s.mem)
    && PathOk(Root, INODE_SLOTS, n, c) && Linked(s.mem, s.ws, c, keys)
  }

  /** A level of the chain whose block exists. */
  ghost predicate LevelOk(s: Snap, c: seq<nat>, keys: seq<nat>, l: nat) {
    l < |c| && l <= |keys| && (l > 0 ==> keys[l - 1] != 0 && keys[l - 1] in s.mem)
  }

  ghost function KidsAt(s: Snap, c: seq<nat>, keys: seq<nat>, l: nat): seq<Tree>
    requires LevelOk(s, c, keys, l)
  {
    Kids(s.mem, s.ws, keys, |c|, l)
  }

  /** The block of level `l`, if it is not the inode, and everything below it. */
  ghost function Region(s: Snap, c: seq<nat>, keys: seq<nat>, l: nat): set<nat>
    requires LevelOk(s, c, keys, l)
  {
    (if l == 0 then {} else {keys[l - 1]}) + ZonesAll(KidsAt(s, c, keys, l))
  }

  /** The trees of a level are sound. */
  lemma {:induction false} LevelSelf(s: Snap, n: nat, nzones: nat, c: seq<nat>, keys: seq<nat>, l: nat)
    requires SnapOk(s, n, nzones, c, keys) && l < |c| && l <= |keys| && (l > 0 ==> keys[l - 1] != 0)
    ensures LevelOk(s, c, keys, l) && SepAll(KidsAt(s, c, keys, l))
    ensures c[l] < |KidsAt(s, c, keys, l)| == if l == 0 then INODE_SLOTS else n
  {
    KidsUpTo(s.mem, s.ws, c, keys, l, n);
  }

  /** A level is the inside of one child of the level above. */
  lemma {:induction false} LevelLink(s: Snap, n: nat, nzones: nat, c: seq<nat>, keys: seq<nat>, l: nat)
    requires SnapOk(s, n, nzones, c, keys) && 0 < l < |c| && l <= |keys| && keys[l - 1] != 0
    ensures LevelOk(s, c, keys, l) && LevelOk(s, c, keys, l - 1) && c[l - 1] < |KidsAt(s, c, keys, l - 1)|
    ensures KidsAt(s, c, keys, l - 1)[c[l - 1]] == Node(keys[l - 1], KidsAt(s, c, keys, l))
    ensures keys[l - 1] !in ZonesAll(KidsAt(s, c, keys, l))
      && Region(s, c, keys, l) <= ZonesAll(KidsAt(s, c, keys, l - 1))
  {
    KidsUpTo(s.mem, s.ws, c, keys, l - 1, n);
    KidsStep(s.mem, s.ws, c, keys, l - 1, n);
    InAll(KidsAt(s, c, keys, l - 1), c[l - 1]);
  }

  lemma {:induction false} LevelUsed(s: Snap, n: nat, nzones: nat, c: seq<nat>, keys: seq<nat>, l: nat)
    requires SnapOk(s, n, nzones, c, keys) && l < |c| && l <= |keys| && (l > 0 ==> keys[l - 1] != 0)
    ensures LevelOk(s, c, keys, l) && Region(s, c, keys, l) <= s.used
    ensures forall z :: z in Region(s, c, keys, l) ==> z < nzones
    decreases l
  {
    if l > 0 {
      LevelLink(s, n, nzones, c, keys, l);
      LevelUsed(s, n, nzones, c, keys, l - 1);
    }
  }

  /** A state of the device: every zone is there, and the words are those of the blocks. */
  ghost predicate Device(t: Snap, n: nat, nzones: nat) {
    WordsOf(t.blocks, t.mem) && forall z :: 0 <= z < nzones ==> z in t.blocks && z in t.mem && |t.mem[z]| == n
  }

  lemma SameWords(s: Snap, t: Snap, n: nat, nzones: nat, changed: set<nat>, zs: set<nat>)
    requires Device(t, n, nzones) && WordsOf(s.blocks, s.mem) && Frame(s.blocks, t.blocks, changed)
    requires zs !! changed && forall z :: z in zs ==> z < nzones
    ensures SameOn(s.mem, t.mem, zs)
  {
    forall z | z in zs
      ensures z in s.mem && s.mem[z] == t.mem[z]
    {
      assert Words(s.blocks[z]) == Words(t.blocks[z]);
    }
  }

  /** The first `j` children of level `l` are as the cut leaves them and the others untouched; the
      zones that have gone are exactly those the cut removes; only this part of the tree changed. */
  ghost predicate Partly(t: Snap, s: Snap, n: nat, nzones: nat, c: seq<nat>, keys: seq<nat>, l: nat, j: nat) {
    && SnapOk(s, n, nzones, c, keys) && LevelOk(s, c, keys, l) && Device(t, n, nzones)
    && (l > 0 ==> t.ws == s.ws && keys[l - 1] in t.mem)
    && var kids := KidsAt(s, c, keys, l);
    && var cut := CutAll(kids, c[l..]);
    && j <= |kids| && (forall i :: j <= i < |cut| ==> cut[i].Empty?)
    && LoadAll(t.mem, LevelWords(t.mem, t.ws, keys, l), LevelOf(|c|, l)) == Mixed(cut, kids, j)
    && t.used == s.used - Gone(cut, kids, j)
    && Frame(s.blocks, t.blocks, Region(s, c, keys, l))
    && (l > 0 ==> !AllEmpty(cut))
  }

  lemma {:induction false} CutOnPath(up: seq<Tree>, kids: seq<Tree>, z: nat, c: seq<nat>)
    requires |c| > 1 && c[0] < |up| && up[c[0]] == Node(z, kids) && !AllEmpty(CutAll(kids, c[1..]))
    ensures CutAll(up, c)[c[0]] == Node(z, CutAll(kids, c[1..]))
    ensures forall i :: 0 <= i < c[0] ==> CutAll(up, c)[i] == up[i]
    ensures forall i :: c[0] < i < |up| ==> CutAll(up, c)[i] == Empty
  {
    assert CutAll(up, c)[c[0]] == Cut(up[c[0]], c[1..]);
  }

  /** A finished level makes its block a finished child of the level above. */
  lemma {:induction false} PartlyUp(t: Snap, s: Snap, n: nat, nzones: nat, c: seq<nat>, keys: seq<nat>, l: nat)
    requires l > 0 && Partly(t, s, n, nzones, c, keys, l, n)
    ensures Partly(t, s, n, nzones, c, keys, l - 1, c[l - 1] + 1)
  {
    UpCut(s, n, nzones, c, keys, l);
    UpWords(t, s, n, nzones, c, keys, l);
    UpForest(t, s, n, nzones, c, keys, l);
  }

  /** How the cut of one level sits in the cut of the level above. */
  lemma {:induction false} UpCut(s: Snap, n: nat, nzones: nat, c: seq<nat>, keys: seq<nat>, l: nat)
    requires 0 < l < |c| && l <= |keys| && SnapOk(s, n, nzones, c, keys) && LevelOk(s, c, keys, l)
    requires !AllEmpty(CutAll(KidsAt(s, c, keys, l), c[l..]))
    ensures LevelOk(s, c, keys, l - 1) && |KidsAt(s, c, keys, l)| == n && c[l - 1] < |KidsAt(s, c, keys, l - 1)|
    ensures var cutUp := CutAll(KidsAt(s, c, keys, l - 1), c[l - 1..]);
      && cutUp[c[l - 1]] == Node(keys[l - 1], CutAll(KidsAt(s, c, keys, l), c[l..]))
      && (forall i :: 0 <= i < c[l - 1] ==> cutUp[i] == KidsAt(s, c, keys, l - 1)[i])
      && (forall i :: c[l - 1] < i < |cutUp| ==> cutUp[i] == Empty)
      && Gone(cutUp, KidsAt(s, c, keys, l - 1), c[l - 1] + 1) ==
           Gone(CutAll(KidsAt(s, c, keys, l), c[l..]), KidsAt(s, c, keys, l), n)
    ensures Region(s, c, keys, l) <= Region(s, c, keys, l - 1) && keys[l - 1] != 0
  {
    hide SnapOk, KidsAt, CutAll, Within, Gone, SepAll, ZonesAll;
    LevelSelf(s, n, nzones, c, keys, l);
    LevelLink(s, n, nzones, c, keys, l);
    LevelSelf(s, n, nzones, c, keys, l - 1);
    var kids, up := KidsAt(s, c, keys, l), KidsAt(s, c, keys, l - 1);
    assert c[l - 1..][1..] == c[l..];
    CutOnPath(up, kids, keys[l - 1], c[l - 1..]);
    CutWithin(kids, c[l..]);
    CutWithin(up, c[l - 1..]);
    UpZones(CutAll(kids, c[l..]), kids, CutAll(up, c[l - 1..]), up, c[l - 1], keys[l - 1]);
  }

  /** The block above the one that is being cut has not been written. */
  lemma {:induction false} UpWords(t: Snap, s: Snap, n: nat, nzones: nat, c: seq<nat>, keys: seq<nat>, l: nat)
    requires 0 < l < |c| && l <= |keys| && SnapOk(s, n, nzones, c, keys) && LevelOk(s, c, keys, l)
      && Device(t, n, nzones)
    requires t.ws == s.ws && Frame(s.blocks, t.blocks, Region(s, c, keys, l))
    ensures LevelOk(s, c, keys, l - 1) && (l > 1 ==> keys[l - 2] in t.mem)
    ensures LevelWords(t.mem, t.ws, keys, l - 1) == LevelWords(s.mem, s.ws, keys, l - 1)
  {
    LevelLink(s, n, nzones, c, keys, l);
    if l > 1 {
      LevelLink(s, n, nzones, c, keys, l - 1);
      LevelUsed(s, n, nzones, c, keys, l - 1);
      SameWords(s, t, n, nzones, Region(s, c, keys, l), {keys[l - 2]});
    }
  }

  lemma {:induction false} UpForest(t: Snap, s: Snap, n: nat, nzones: nat, c: seq<nat>, keys: seq<nat>, l: nat)
    requires l > 0 && Partly(t, s, n, nzones, c, keys, l, n)
    ensures LevelOk(s, c, keys, l - 1) && (l > 1 ==> keys[l - 2] in t.mem)
    ensures c[l - 1] < |KidsAt(s, c, keys, l - 1)|
    ensures LoadAll(t.mem, LevelWords(t.mem, t.ws, keys, l - 1), LevelOf(|c|, l - 1)) ==
      Mixed(CutAll(KidsAt(s, c, keys, l - 1), c[l - 1..]), KidsAt(s, c, keys, l - 1), c[l - 1] + 1)
  {
    hide CutAll, SepAll, FullAll, WellFormedAll, ZonesAll, Gone, WordsOf, Frame;
    var kids, cut := KidsAt(s, c, keys, l), CutAll(KidsAt(s, c, keys, l), c[l..]);
    var h := |c| - 1 - l;
    assert LoadAll(t.mem, t.mem[keys[l - 1]], Indirect(h)) == cut by {
      UpCut(s, n, nzones, c, keys, l);
      assert Mixed(cut, kids, n) == cut;
    }
    UpWords(t, s, n, nzones, c, keys, l);
    UpCut(s, n, nzones, c, keys, l);
    LevelSelf(s, n, nzones, c, keys, l - 1);
    LevelLink(s, n, nzones, c, keys, l);
    LevelUsed(s, n, nzones, c, keys, l - 1);
    var ws, lv, a := LevelWords(s.mem, s.ws, keys, l - 1), LevelOf(|c|, l - 1), c[l - 1];
    assert Height(lv, a) == h + 1;
    assert ws[a] == keys[l - 1];
    UpLoads(t, s, n, nzones, ws, lv, a, h, kids, cut, CutAll(KidsAt(s, c, keys, l - 1), c[l - 1..]));
  }

  lemma {:induction false} UpZones(cut: seq<Tree>, kids: seq<Tree>, cutUp: seq<Tree>, up: seq<Tree>, a: nat, z: nat)
    requires Within(cut, kids) && Within(cutUp, up) && a < |up| && z !in ZonesAll(kids)
    requires up[a] == Node(z, kids) && cutUp[a] == Node(z, cut) && forall i :: 0 <= i < a ==> cutUp[i] == up[i]
    ensures Gone(cutUp, up, a + 1) == Gone(cut, kids, |kids|) && {z} + ZonesAll(kids) <= ZonesAll(up)
  {
    GoneRest(cut, kids, |kids|);
    GoneUp(cutUp, up, a);
    InAll(up, a);
  }

  /** The block on the path has lost what the cut takes from it, and its siblings are as they were. */
  lemma {:induction false} UpLoads(t: Snap, s: Snap, n: nat, nzones: nat, ws: seq<nat>, lv: Level, a: nat, h: nat,
                                   kids: seq<Tree>, cut: seq<Tree>, cutUp: seq<Tree>)
    requires Device(t, n, nzones) && WordsOf(s.blocks, s.mem) && a < |ws| == |cutUp| && SepAll(LoadAll(s.mem, ws, lv))
    requires forall z :: z in ZonesAll(LoadAll(s.mem, ws, lv)) ==> z < nzones
    requires ws[a] != 0 && ws[a] in t.mem && Height(lv, a) == h + 1 && LoadAll(s.mem, ws, lv)[a] == Node(ws[a], kids)
    requires LoadAll(t.mem, t.mem[ws[a]], Indirect(h)) == cut
    requires Frame(s.blocks, t.blocks, {ws[a]} + ZonesAll(kids))
    requires cutUp[a] == Node(ws[a], cut) && forall i :: 0 <= i < a ==> cutUp[i] == LoadAll(s.mem, ws, lv)[i]
    ensures LoadAll(t.mem, ws, lv) == Mixed(cutUp, LoadAll(s.mem, ws, lv), a + 1)
  {
    var ts, now := LoadAll(s.mem, ws, lv), LoadAll(t.mem, ws, lv);
    forall i | 0 <= i < |ws| && i != a
      ensures now[i] == ts[i]
    {
      InAll(ts, i);
      SameWords(s, t, n, nzones, Zones(ts[a]), Zones(ts[i]));
      LoadFrame(s.mem, t.mem, ws[i], Height(lv, i));
    }
    assert now[a] == Load(t.mem, ws[a], h + 1);
  }

  ghost function Now(v: Volume, inode: Inode): Snap
    reads v, v.bitmap, inode
  {
    Snap(v.blocks, v.mem, inode.zones, v.bitmap.used)
  }

  /** What is still to be cleared in a level is sound and still in use. */
  lemma {:induction false} RestReady(t: Snap, s: Snap, n: nat, nzones: nat, c: seq<nat>, keys: seq<nat>, l: nat, j: nat)
    requires Partly(t, s, n, nzones, c, keys, l, j)
    ensures var ws, lv, kids := LevelWords(t.mem, t.ws, keys, l), LevelOf(|c|, l), KidsAt(s, c, keys, l);
      var cur := LoadAll(t.mem, ws, lv);
      && j <= |kids| == |ws| == |cur| == (if l == 0 then INODE_SLOTS else n)
      && cur == Mixed(CutAll(kids, c[l..]), kids, j) && WellFormedAll(t.mem, ws, lv, n) && SepAll(cur)
      && ZonesIn(cur, j, |cur|) == ZonesIn(kids, j, |kids|) <= t.used
      && ZonesAll(cur) <= ZonesAll(kids) && Within(CutAll(kids, c[l..]), kids)
      && (l > 0 ==> keys[l - 1] !in ZonesAll(cur) && keys[l - 1] < nzones)
      && (forall z :: z in ZonesAll(kids) ==> z < nzones)
  {
    LevelSelf(s, n, nzones, c, keys, l);
    LevelUsed(s, n, nzones, c, keys, l);
    if l > 0 { LevelLink(s, n, nzones, c, keys, l); }
    var kids := KidsAt(s, c, keys, l);
    var cut := CutAll(kids, c[l..]);
    CutWithin(kids, c[l..]);
    MixedSep(cut, kids, j);
    ForestWellFormed(t.mem, LevelWords(t.mem, t.ws, keys, l), LevelOf(|c|, l), n);
    assert ZonesIn(kids, j, |kids|) <= ZonesAll(kids);
  }

  /** The same for the block of a level below the inode. */
  lemma {:induction false} BlockReady(t: Snap, s: Snap, n: nat, nzones: nat, c: seq<nat>, keys: seq<nat>, l: nat,
                                      j: nat)
    requires l > 0 && Partly(t, s, n, nzones, c, keys, l, j)
    ensures l < |c| && l <= |keys| && keys[l - 1] < nzones && keys[l - 1] in t.mem && LevelOk(s, c, keys, l)
    ensures j <= n == |KidsAt(s, c, keys, l)| == |t.mem[keys[l - 1]]|
    ensures WellFormedAll(t.mem, t.mem[keys[l - 1]], Indirect(|c| - 1 - l), n)
    ensures SepAll(LoadAll(t.mem, t.mem[keys[l - 1]], Indirect(|c| - 1 - l)))
    ensures keys[l - 1] !in ZonesAll(LoadAll(t.mem, t.mem[keys[l - 1]], Indirect(|c| - 1 - l)))
    ensures ZonesIn(LoadAll(t.mem, t.mem[keys[l - 1]], Indirect(|c| - 1 - l)), j, n) ==
      ZonesIn(KidsAt(s, c, keys, l), j, n) <= t.used
  {
    RestReady(t, s, n, nzones, c, keys, l, j);
  }

  /** Clearing the remaining slots finishes a list of trees. */
  lemma {:induction false} RestCleared(m: Mem, m': Mem, ws: seq<nat>, ws': seq<nat>, lv: Level,
                                       kids: seq<Tree>, cut: seq<Tree>, j: nat, changed: set<nat>)
    requires Within(cut, kids) && j <= |kids| == |ws| && LoadAll(m, ws, lv) == Mixed(cut, kids, j)
    requires forall i :: j <= i < |cut| ==> cut[i].Empty?
    requires Cleared(ws, ws', j, |ws|) && SameOn(m, m', ZonesIn(cut, 0, j))
    ensures LoadAll(m', ws', lv) == cut
  {
    var ts := LoadAll(m, ws, lv);
    forall i | 0 <= i < |ws|
      ensures Load(m', ws'[i], Height(lv, i)) == cut[i]
    {
      if i < j {
        assert ts[i] == Load(m, ws[i], Height(lv, i));
        assert Zones(cut[i]) <= ZonesIn(cut, 0, j);
        LoadFrame(m, m', ws[i], Height(lv, i));
      }
    }
  }

  /** Clear the end of the indirect block of level `l`. */
  method ClearRest(v: Volume, inode: Inode, ghost s: Snap, c: seq<nat>, keys: seq<nat>, l: nat, j: nat)
    requires v.Valid() && l > 0 && Partly(Now(v, inode), s, v.bs / 4, v.bitmap.nzones, c, keys, l, j)
    modifies v`disk, v`blocks, v`mem, v.bitmap, v.bitmap.bits
    ensures v.Valid() && v.bitmap.warnings == old(v.bitmap.warnings)
    ensures Partly(Now(v, inode), s, v.bs / 4, v.bitmap.nzones, c, keys, l, v.bs / 4)
  {
    hide Partly, LevelOk, KidsAt, SnapOk;
    ghost var t, n, nzones := Now(v, inode), v.bs / 4, v.bitmap.nzones;
    BlockReady(t, s, n, nzones, c, keys, l, j);
    var holder := keys[l - 1];
    FreeSlots(v, holder, j, v.bs / 4, |c| - 1 - l);
    ghost var t' := Now(v, inode);
    assert Device(t', n, nzones);
    assert keys[l - 1] in t'.mem && Cleared(t.mem[keys[l - 1]], t'.mem[keys[l - 1]], j, n);
    ClearedLevel(t, t', s, n, nzones, c, keys, l, j);
  }

  lemma {:induction false} ClearedLevel(t: Snap, t': Snap, s: Snap, n: nat, nzones: nat, c: seq<nat>, keys: seq<nat>,
                                        l: nat, j: nat)
    requires l > 0 && Partly(t, s, n, nzones, c, keys, l, j) && Device(t', n, nzones) && t'.ws == t.ws && j <= n
    requires keys[l - 1] in t'.mem && Cleared(t.mem[keys[l - 1]], t'.mem[keys[l - 1]], j, n)
    requires |KidsAt(s, c, keys, l)| == n
    requires t'.used == t.used - ZonesIn(KidsAt(s, c, keys, l), j, n)
    requires Frame(t.blocks, t'.blocks, {keys[l - 1]} + ZonesIn(KidsAt(s, c, keys, l), j, n))
    ensures Partly(t', s, n, nzones, c, keys, l, n)
  {
    RestReady(t, s, n, nzones, c, keys, l, j);
    var kids := KidsAt(s, c, keys, l);
    var cut := CutAll(kids, c[l..]);
    var holder, rest := keys[l - 1], ZonesIn(kids, j, n);
    DoneApart(cut, kids, j, holder);
    SameWords(t, t', n, nzones, {holder} + rest, ZonesIn(cut, 0, j));
    RestCleared(t.mem, t'.mem, t.mem[holder], t'.mem[holder], LevelOf(|c|, l), kids, cut, j, {holder} + rest);
    assert Mixed(cut, kids, n) == cut;
    GoneRest(cut, kids, j);
    FrameTrans(s.blocks, t.blocks, t'.blocks, Region(s, c, keys, l), {holder} + rest);
    assert Region(s, c, keys, l) + ({holder} + rest) == Region(s, c, keys, l) by {
      assert rest <= ZonesAll(kids);
    }
  }

  /** What has been cut shares no zone with what is to be cleared. */
  lemma DoneApart(cut: seq<Tree>, kids: seq<Tree>, j: nat, holder: nat)
    requires Within(cut, kids) && j <= |kids| && holder !in ZonesAll(Mixed(cut, kids, j))
    ensures ZonesIn(cut, 0, j) !! {holder} + ZonesIn(kids, j, |kids|) && ZonesIn(cut, 0, j) <= ZonesAll(kids)
  {
    var r := Mixed(cut, kids, j);
    forall z | z in ZonesIn(cut, 0, j)
      ensures z in ZonesAll(r) && z in ZonesAll(kids) && z !in ZonesIn(kids, j, |kids|)
    {
      var i :| 0 <= i < j && z in Zones(cut[i]);
      assert z in Zones(r[i]) && z in Zones(kids[i]);
    }
  }

  /** Clear slots of the inode itself. */
  method ClearRoots(v: Volume, inode: Inode, ghost s: Snap, c: seq<nat>, keys: seq<nat>, j: nat, k: nat)
    requires v.Valid() && j <= k <= INODE_SLOTS && Partly(Now(v, inode), s, v.bs / 4, v.bitmap.nzones, c, keys, 0, j)
    modifies v`disk, v`blocks, v`mem, inode`zones, v.bitmap, v.bitmap.bits
    ensures v.Valid() && v.bitmap.warnings == old(v.bitmap.warnings)
    ensures Partly(Now(v, inode), s, v.bs / 4, v.bitmap.nzones, c, keys, 0, k)
  {
    hide Partly, LevelOk, KidsAt, SnapOk;
    ghost var t, n, nzones := Now(v, inode), v.bs / 4, v.bitmap.nzones;
    RootReady(t, s, n, nzones, c, keys, j, k);
    FreeInodeSlots(v, inode, j, k);
    ghost var t' := Now(v, inode);
    assert Device(t', n, nzones);
    ClearedRoot(t, t', s, n, nzones, c, keys, j, k);
  }

  lemma {:induction false} RootReady(t: Snap, s: Snap, n: nat, nzones: nat, c: seq<nat>, keys: seq<nat>, j: nat, k: nat)
    requires Partly(t, s, n, nzones, c, keys, 0, j) && j <= k <= INODE_SLOTS
    ensures LevelOk(s, c, keys, 0) && |t.ws| == |KidsAt(s, c, keys, 0)| == INODE_SLOTS
    ensures WellFormedAll(t.mem, t.ws, Root, n) && SepAll(LoadAll(t.mem, t.ws, Root))
    ensures ZonesIn(LoadAll(t.mem, t.ws, Root), j, k) == ZonesIn(KidsAt(s, c, keys, 0), j, k) <= t.used
  {
    RestReady(t, s, n, nzones, c, keys, 0, j);
    var cur, kids := LoadAll(t.mem, t.ws, Root), KidsAt(s, c, keys, 0);
    assert ZonesIn(cur, j, k) <= ZonesIn(cur, j, |cur|);
    assert forall i :: j <= i < k ==> cur[i] == kids[i];
  }

  lemma {:induction false} ClearedRoot(t: Snap, t': Snap, s: Snap, n: nat, nzones: nat, c: seq<nat>, keys: seq<nat>,
                                       j: nat, k: nat)
    requires Partly(t, s, n, nzones, c, keys, 0, j) && j <= k <= INODE_SLOTS && Device(t', n, nzones)
    requires LevelOk(s, c, keys, 0) && |t.ws| == |KidsAt(s, c, keys, 0)| == INODE_SLOTS
    requires Cleared(t.ws, t'.ws, j, k)
    requires t'.used == t.used - ZonesIn(KidsAt(s, c, keys, 0), j, k)
    requires Frame(t.blocks, t'.blocks, ZonesIn(KidsAt(s, c, keys, 0), j, k))
    ensures Partly(t', s, n, nzones, c, keys, 0, k)
  {
    RestReady(t, s, n, nzones, c, keys, 0, j);
    var kids := KidsAt(s, c, keys, 0);
    var cut := CutAll(kids, c[0..]);
    var gone := ZonesIn(kids, j, k);
    assert c[0..] == c;
    RangeCleared(t, t', n, nzones, Root, kids, cut, j, k);
    GoneRange(cut, kids, j, k);
    FrameTrans(s.blocks, t.blocks, t'.blocks, Region(s, c, keys, 0), gone);
    assert Region(s, c, keys, 0) + gone == Region(s, c, keys, 0);
  }

  /** Clearing slots `j` up to `k` carries the cut from `j` to `k`. */
  lemma {:induction false} RangeCleared(t: Snap, t': Snap, n: nat, nzones: nat, lv: Level, kids: seq<Tree>,
                                        cut: seq<Tree>, j: nat, k: nat)
    requires Within(cut, kids) && j <= k <= |kids| == |t.ws| && LoadAll(t.mem, t.ws, lv) == Mixed(cut, kids, j)
    requires (forall i :: j <= i < |cut| ==> cut[i].Empty?) && forall z :: z in ZonesAll(kids) ==> z < nzones
    requires Cleared(t.ws, t'.ws, j, k) && Frame(t.blocks, t'.blocks, ZonesIn(kids, j, k))
    requires WordsOf(t.blocks, t.mem) && Device(t', n, nzones)
    ensures LoadAll(t'.mem, t'.ws, lv) == Mixed(cut, kids, k)
  {
    var ts, r := LoadAll(t.mem, t.ws, lv), Mixed(cut, kids, k);
    forall i | 0 <= i < |kids|
      ensures Load(t'.mem, t'.ws[i], Height(lv, i)) == r[i]
    {
      if i < j || k <= i {
        assert ts[i] == r[i] && Zones(ts[i]) <= Zones(kids[i]);
        InAll(kids, i);
        assert Zones(kids[i]) !! ZonesIn(kids, j, k);
        SameWords(t, t', n, nzones, ZonesIn(kids, j, k), Zones(ts[i]));
        LoadFrame(t.mem, t'.mem, t.ws[i], Height(lv, i));
      }
    }
  }

  // ---------------------------------------------------------------- finding the shared part

  /** Nothing on the path below level `l` survives the cut. */
  ghost predicate PathGone(s: Snap, c: seq<nat>, keys: seq<nat>, l: nat)
    requires LevelOk(s, c, keys, l)
  {
    c[l] < |KidsAt(s, c, keys, l)| && CutAll(KidsAt(s, c, keys, l), c[l..])[c[l]].Empty?
  }

  /** Something in the block of level `l` lies before the path. */
  ghost predicate Before(s: Snap, c: seq<nat>, keys: seq<nat>, l: nat)
    requires LevelOk(s, c, keys, l)
  {
    c[l] <= |KidsAt(s, c, keys, l)| && exists i :: 0 <= i < c[l] && KidsAt(s, c, keys, l)[i].Node?
  }

  /** Where get_branch stops: at a hole, or where the rest of the path is zeros. */
  lemma {:induction false} PathGoneAtEnd(s: Snap, n: nat, nzones: nat, c: seq<nat>, keys: seq<nat>)
    requires SnapOk(s, n, nzones, c, keys) && keys != []
    requires keys[|keys| - 1] == 0 || forall i :: |keys| <= i < |c| ==> c[i] == 0
    ensures LevelOk(s, c, keys, |keys| - 1) && PathGone(s, c, keys, |keys| - 1)
  {
    var l := |keys| - 1;
    LevelSelf(s, n, nzones, c, keys, l);
    var kids := KidsAt(s, c, keys, l);
    assert c[l..][1..] == c[l + 1..];
    assert kids[c[l]] == Load(s.mem, keys[l], Height(LevelOf(|c|, l), c[l]));
    assert CutAll(kids, c[l..])[c[l]] == Cut(kids[c[l]], c[l + 1..]);
    if keys[l] != 0 {
      CutZeros(kids[c[l]], c[l + 1..]);
    }
  }

  /** A block with nothing before the path does not survive either. */
  lemma {:induction false} PathGoneUp(s: Snap, n: nat, nzones: nat, c: seq<nat>, keys: seq<nat>, l: nat)
    requires SnapOk(s, n, nzones, c, keys) && l > 0 && LevelOk(s, c, keys, l) && PathGone(s, c, keys, l)
    requires !Before(s, c, keys, l)
    ensures LevelOk(s, c, keys, l - 1) && PathGone(s, c, keys, l - 1)
  {
    LevelSelf(s, n, nzones, c, keys, l - 1);
    LevelLink(s, n, nzones, c, keys, l);
    var kids, up := KidsAt(s, c, keys, l), KidsAt(s, c, keys, l - 1);
    assert AllEmpty(CutAll(kids, c[l..]));
    assert c[l - 1..][1..] == c[l..];
    assert CutAll(up, c[l - 1..])[c[l - 1]] == Cut(up[c[l - 1]], c[l..]);
  }

  /** What the cut of a list of trees is when its own child does not survive. */
  lemma {:induction false} CutHere(kids: seq<Tree>, c: seq<nat>)
    requires c != [] && c[0] < |kids| && SepAll(kids) && CutAll(kids, c)[c[0]].Empty?
    ensures var cut := CutAll(kids, c);
      && Mixed(cut, kids, c[0]) == kids && Mixed(cut, kids, c[0] + 1) == kids[c[0] := Empty]
      && Gone(cut, kids, c[0]) == {} && Gone(cut, kids, c[0] + 1) == Zones(kids[c[0]])
      && (forall i :: c[0] <= i < |cut| ==> cut[i].Empty?)
      && ((exists i :: 0 <= i < c[0] && kids[i].Node?) ==> !AllEmpty(cut))
  {
    hide Within, Gone, SepAll, Cut;
    var cut := CutAll(kids, c);
    CutWithin(kids, c);
    GoneUp(cut, kids, c[0]);
    if i :| 0 <= i < c[0] && kids[i].Node? {
      assert cut[i].Node?;
    }
  }

  /** Truncation of a level starts with nothing done when the cut falls between two slots. */
  lemma {:induction false} StartBetween(s: Snap, n: nat, nzones: nat, c: seq<nat>, keys: seq<nat>, l: nat)
    requires SnapOk(s, n, nzones, c, keys) && Device(s, n, nzones) && LevelOk(s, c, keys, l) && PathGone(s, c, keys, l)
    requires l > 0 ==> Before(s, c, keys, l)
    ensures Partly(s, s, n, nzones, c, keys, l, c[l])
  {
    hide CutAll, SnapOk, LoadAll, Gone, Mixed, Device;
    LevelSelf(s, n, nzones, c, keys, l);
    var kids := KidsAt(s, c, keys, l);
    assert c[l..][0] == c[l];
    CutHere(kids, c[l..]);
  }

  /** It starts with the child on the path taken out when that child does not survive. */
  lemma {:induction false} StartWithout(t: Snap, s: Snap, n: nat, nzones: nat, c: seq<nat>, keys: seq<nat>, l: nat)
    requires SnapOk(s, n, nzones, c, keys) && Device(t, n, nzones) && LevelOk(s, c, keys, l) && PathGone(s, c, keys, l)
    requires l > 0 ==> Before(s, c, keys, l)
    requires t.used == s.used - Zones(KidsAt(s, c, keys, l)[c[l]])
    requires TopSlotCleared(t, s, c, keys, l)
    ensures Partly(t, s, n, nzones, c, keys, l, c[l] + 1)
  {
    hide CutAll, LoadAll, Gone, Mixed, Device;
    LevelSelf(s, n, nzones, c, keys, l);
    var kids := KidsAt(s, c, keys, l);
    assert c[l..][0] == c[l];
    CutHere(kids, c[l..]);
    TopTakenOut(t, s, n, nzones, c, keys, l);
  }

  /** The slot of level `l` has been cleared and nothing else has changed. */
  ghost predicate TopSlotCleared(t: Snap, s: Snap, c: seq<nat>, keys: seq<nat>, l: nat)
    requires LevelOk(s, c, keys, l)
  {
    if l == 0 then c[0] < |s.ws| && t.ws == s.ws[c[0] := 0] && t.mem == s.mem && t.blocks == s.blocks
    else
      && t.ws == s.ws && keys[l - 1] in t.mem && c[l] < |s.mem[keys[l - 1]]|
      && t.mem[keys[l - 1]] == s.mem[keys[l - 1]][c[l] := 0] && Frame(s.blocks, t.blocks, {keys[l - 1]})
  }

  lemma {:induction false} TopTakenOut(t: Snap, s: Snap, n: nat, nzones: nat, c: seq<nat>, keys: seq<nat>, l: nat)
    requires SnapOk(s, n, nzones, c, keys) && Device(t, n, nzones) && LevelOk(s, c, keys, l)
    requires TopSlotCleared(t, s, c, keys, l)
    ensures c[l] < |KidsAt(s, c, keys, l)| && (l > 0 ==> t.ws == s.ws && keys[l - 1] in t.mem)
    ensures LoadAll(t.mem, LevelWords(t.mem, t.ws, keys, l), LevelOf(|c|, l)) == KidsAt(s, c, keys, l)[c[l] := Empty]
    ensures Frame(s.blocks, t.blocks, Region(s, c, keys, l))
    ensures SameOn(s.mem, t.mem, Zones(KidsAt(s, c, keys, l)[c[l]]))
  {
    LevelSelf(s, n, nzones, c, keys, l);
    LevelUsed(s, n, nzones, c, keys, l);
    if l > 0 { LevelLink(s, n, nzones, c, keys, l); }
    var kids := KidsAt(s, c, keys, l);
    var changed := if l == 0 then {} else {keys[l - 1]};
    var ws, ws' := LevelWords(s.mem, s.ws, keys, l), LevelWords(t.mem, t.ws, keys, l);
    TakenOut(t, s, n, nzones, ws, ws', LevelOf(|c|, l), c[l], changed);
    InAll(kids, c[l]);
    SameWords(s, t, n, nzones, changed, Zones(kids[c[l]]));
  }

  lemma {:induction false} TakenOut(t: Snap, s: Snap, n: nat, nzones: nat, ws: seq<nat>, ws': seq<nat>, lv: Level,
                                    a: nat, changed: set<nat>)
    requires Device(t, n, nzones) && WordsOf(s.blocks, s.mem) && Frame(s.blocks, t.blocks, changed) && a < |ws|
      && ws' == ws[a := 0]
    requires ZonesAll(LoadAll(s.mem, ws, lv)) !! changed
    requires forall z :: z in ZonesAll(LoadAll(s.mem, ws, lv)) ==> z < nzones
    ensures LoadAll(t.mem, ws', lv) == LoadAll(s.mem, ws, lv)[a := Empty]
  {
    var ts := LoadAll(s.mem, ws, lv);
    forall i | 0 <= i < |ws| && i != a
      ensures Load(t.mem, ws[i], Height(lv, i)) == ts[i]
    {
      InAll(ts, i);
      SameWords(s, t, n, nzones, changed, Zones(ts[i]));
      LoadFrame(s.mem, t.mem, ws[i], Height(lv, i));
    }
  }

  predicate AllZero(ws: seq<nat>, upto: nat) {
    upto <= |ws| && forall i :: 0 <= i < upto ==> ws[i] == 0
  }

  /** all_zeroes on the slots of a block before `upto`. */
  method AllZeroes(v: Volume, z: nat, upto: nat) returns (r: bool)
    requires v.Valid() && z < v.bitmap.nzones && upto <= v.bs / 4
    ensures r <==> AllZero(v.mem[z], upto)
  {
    var i := 0;
    while i < upto
      invariant i <= upto && forall j :: 0 <= j < i ==> v.mem[z][j] == 0
    {
      var w := v.GetWord(z, i);
      if w != 0 {
        return false;
      }
      i := i + 1;
    }
    return true;
  }

  /** The trees below the slots of a block are empty exactly where its words are 0. */
  lemma {:induction false} BlockZeroes(s: Snap, n: nat, nzones: nat, c: seq<nat>, keys: seq<nat>, l: nat)
    requires SnapOk(s, n, nzones, c, keys) && l > 0 && LevelOk(s, c, keys, l)
    ensures keys[l - 1] < nzones && |s.mem[keys[l - 1]]| == n == |KidsAt(s, c, keys, l)| && c[l] < n
    ensures AllZero(s.mem[keys[l - 1]], c[l]) <==> !Before(s, c, keys, l)
  {
    LevelSelf(s, n, nzones, c, keys, l);
    LevelUsed(s, n, nzones, c, keys, l);
    var kids := KidsAt(s, c, keys, l);
    var ws := s.mem[keys[l - 1]];
    assert forall i :: 0 <= i < n ==> (ws[i] == 0 <==> kids[i].Empty?);
    assert keys[l - 1] in Region(s, c, keys, l);
  }

  lemma SnapFromTree(v: Volume, inode: Inode, c: seq<nat>, keys: seq<nat>)
    requires TreeOk(v, inode) && PathOk(Root, INODE_SLOTS, v.bs / 4, c) && Linked(v.mem, inode.zones, c, keys)
    ensures SnapOk(Now(v, inode), v.bs / 4, v.bitmap.nzones, c, keys)
      && Device(Now(v, inode), v.bs / 4, v.bitmap.nzones)
  {}

  /** The first part of find_shared: drop trailing zeros, read the chain, and climb as long as the
      block has nothing before the path. */
  method FindLevel(v: Volume, inode: Inode, c: seq<nat>, ghost s: Snap) returns (k: nat, keys: seq<nat>, p: nat)
    requires TreeOk(v, inode) && PathOk(Root, INODE_SLOTS, v.bs / 4, c) && s == Now(v, inode)
    ensures 1 <= k <= |c| && (k > 1 ==> c[k - 1] != 0)
    ensures SnapOk(s, v.bs / 4, v.bitmap.nzones, c, keys) && p < |keys| <= k
    ensures LevelOk(s, c, keys, p) && PathGone(s, c, keys, p)
    ensures p > 0 ==> Before(s, c, keys, p)
  {
    hide SnapOk, PathGone, Before, LevelOk, KidsAt;
    k := |c|;
    while k > 1 && c[k - 1] == 0
      invariant 1 <= k <= |c| && forall i :: k <= i < |c| ==> c[i] == 0
    {
      k := k - 1;
    }
    keys := GetBranch(v, inode, c, k);
    ghost var n, nzones := v.bs / 4, v.bitmap.nzones;
    SnapFromTree(v, inode, c, keys);
    PathGoneAtEnd(s, n, nzones, c, keys);
    p := Climb(v, c, keys, s);
  }

  /** Go up from the end of the chain as long as the block has nothing before the path. */
  method Climb(v: Volume, c: seq<nat>, keys: seq<nat>, ghost s: Snap) returns (p: nat)
    requires v.Valid() && s.mem == v.mem && keys != [] && SnapOk(s, v.bs / 4, v.bitmap.nzones, c, keys)
    requires LevelOk(s, c, keys, |keys| - 1) && PathGone(s, c, keys, |keys| - 1)
    ensures p < |keys| && LevelOk(s, c, keys, p) && PathGone(s, c, keys, p)
    ensures p > 0 ==> Before(s, c, keys, p)
  {
    hide SnapOk, PathGone, Before, KidsAt;
    p := |keys| - 1;
    while p > 0
      invariant p < |keys| && LevelOk(s, c, keys, p) && PathGone(s, c, keys, p)
    {
      BlockZeroes(s, v.bs / 4, v.bitmap.nzones, c, keys, p);
      var zero := AllZeroes(v, keys[p - 1], c[p]);
      if !zero {
        return;
      }
      PathGoneUp(s, v.bs / 4, v.bitmap.nzones, c, keys, p);
      p := p - 1;
    }
  }

  /** find_shared: the level at which the cut begins, the slot after which everything goes, and the
      subtree that was detached there, if any. */
  method FindShared(v: Volume, inode: Inode, c: seq<nat>, ghost s: Snap)
    returns (keys: seq<nat>, partial: nat, next: nat, top: nat)
    requires TreeOk(v, inode) && PathOk(Root, INODE_SLOTS, v.bs / 4, c) && s == Now(v, inode)
    modifies v`disk, v`blocks, v`mem, inode`zones
    ensures v.Valid() && partial < |c|
    ensures Detached(Now(v, inode), s, v.bs / 4, v.bitmap.nzones, c, keys, partial, next, top)
  {
    hide Partly, SnapOk, PathGone, Before, KidsAt, Detached;
    var k;
    k, keys, partial := FindLevel(v, inode, c, s);
    ghost var n, nzones := v.bs / 4, v.bitmap.nzones;
    LevelSelf(s, n, nzones, c, keys, partial);
    if partial == k - 1 && partial > 0 {
      top, next := 0, c[partial];
      NothingDetached(s, n, nzones, c, keys, partial);
      return;
    }
    next := c[partial] + 1;
    if partial == 0 {
      top := inode.zones[c[0]];
      inode.zones := inode.zones[c[0] := 0];
    } else {
      BlockZeroes(s, n, nzones, c, keys, partial);
      top := v.GetWord(keys[partial - 1], c[partial]);
      v.SetWord(keys[partial - 1], c[partial], 0);
    }
    ghost var t := Now(v, inode);
    assert TopSlotCleared(t, s, c, keys, partial) && Device(t, n, nzones);
    TopDetached(t, s, n, nzones, c, keys, partial, top);
  }

  /** What find_shared leaves: once the zones of the detached subtree are given back, the level is
      cut as far as `next`. */
  ghost predicate Detached(t: Snap, s: Snap, n: nat, nzones: nat, c: seq<nat>, keys: seq<nat>, l: nat, next: nat,
                           top: nat) {
    && l < |c| && SnapOk(s, n, nzones, c, keys)
    && var sub := Load(s.mem, top, |c| - 1 - l);
    && Zones(sub) <= s.used && Sep(sub) && WellFormed(s.mem, top, |c| - 1 - l, n)
    && SameOn(s.mem, t.mem, Zones(sub)) && t.used == s.used
    && Partly(t.(used := s.used - Zones(sub)), s, n, nzones, c, keys, l, next)
    && (l > 0 ==> keys[l - 1] !in Zones(sub))
  }

  lemma {:induction false} NothingDetached(s: Snap, n: nat, nzones: nat, c: seq<nat>, keys: seq<nat>, l: nat)
    requires SnapOk(s, n, nzones, c, keys) && Device(s, n, nzones) && LevelOk(s, c, keys, l) && PathGone(s, c, keys, l)
    requires l > 0 ==> Before(s, c, keys, l)
    ensures Detached(s, s, n, nzones, c, keys, l, c[l], 0)
  {
    hide Partly, SnapOk, PathGone, Before, KidsAt;
    StartBetween(s, n, nzones, c, keys, l);
    assert s.(used := s.used - {}) == s;
  }

  lemma {:induction false} TopDetached(t: Snap, s: Snap, n: nat, nzones: nat, c: seq<nat>, keys: seq<nat>, l: nat,
                                       top: nat)
    requires SnapOk(s, n, nzones, c, keys) && Device(t, n, nzones) && LevelOk(s, c, keys, l) && PathGone(s, c, keys, l)
    requires l > 0 ==> Before(s, c, keys, l)
    requires t.used == s.used && TopSlotCleared(t, s, c, keys, l) && top == LevelWords(s.mem, s.ws, keys, l)[c[l]]
    ensures Detached(t, s, n, nzones, c, keys, l, c[l] + 1, top)
  {
    hide Partly, PathGone, Before, Device, SnapOk, Sep, WellFormed, SameOn, Region, Frame;
    TopTree(s, n, nzones, c, keys, l, top);
    var sub := Load(s.mem, top, |c| - 1 - l);
    var t' := t.(used := s.used - Zones(sub));
    SameDevice(t, t', n, nzones);
    TopTakenOut(t, s, n, nzones, c, keys, l);
    StartWithout(t', s, n, nzones, c, keys, l);
  }

  lemma SameDevice(t: Snap, t': Snap, n: nat, nzones: nat)
    requires Device(t, n, nzones) && t' == t.(used := t'.used)
    ensures Device(t', n, nzones)
  {}

  /** The subtree on the path at level `l`. */
  lemma {:induction false} TopTree(s: Snap, n: nat, nzones: nat, c: seq<nat>, keys: seq<nat>, l: nat, top: nat)
    requires SnapOk(s, n, nzones, c, keys) && LevelOk(s, c, keys, l)
    requires c[l] < |LevelWords(s.mem, s.ws, keys, l)| && top == LevelWords(s.mem, s.ws, keys, l)[c[l]]
    ensures c[l] < |KidsAt(s, c, keys, l)| && KidsAt(s, c, keys, l)[c[l]] == Load(s.mem, top, |c| - 1 - l)
    ensures Zones(Load(s.mem, top, |c| - 1 - l)) <= s.used && Sep(Load(s.mem, top, |c| - 1 - l))
    ensures WellFormed(s.mem, top, |c| - 1 - l, n) && (l > 0 ==> keys[l - 1] !in Zones(Load(s.mem, top, |c| - 1 - l)))
  {
    KidsUpTo(s.mem, s.ws, c, keys, l, n);
    LevelUsed(s, n, nzones, c, keys, l);
    if l > 0 { LevelLink(s, n, nzones, c, keys, l); }
    assert Height(LevelOf(|c|, l), c[l]) == |c| - 1 - l;
    InAll(KidsAt(s, c, keys, l), c[l]);
  }

  // ---------------------------------------------------------------- truncate

  /** Give back the subtree that find_shared detached. */
  method FreeTop(v: Volume, inode: Inode, ghost s: Snap, c: seq<nat>, keys: seq<nat>, l: nat, next: nat, top: nat)
    requires v.Valid() && Detached(Now(v, inode), s, v.bs / 4, v.bitmap.nzones, c, keys, l, next, top)
    modifies v`disk, v`blocks, v`mem, v.bitmap, v.bitmap.bits
    ensures v.Valid() && v.bitmap.warnings == old(v.bitmap.warnings)
    ensures Partly(Now(v, inode), s, v.bs / 4, v.bitmap.nzones, c, keys, l, next)
  {
    hide Partly, SnapOk;
    ghost var t, n, nzones := Now(v, inode), v.bs / 4, v.bitmap.nzones;
    ghost var sub := Load(s.mem, top, |c| - 1 - l);
    LoadFrame(s.mem, v.mem, top, |c| - 1 - l);
    WellFormedFrame(s.mem, v.mem, top, |c| - 1 - l, n);
    if top != 0 {
      FreeSubtree(v, top, |c| - 1 - l);
    } else {
      assert t.(used := s.used - {}) == t;
    }
    ghost var t' := Now(v, inode);
    assert t'.used == s.used - Zones(sub) && Device(t', n, nzones);
    StillPartly(t.(used := s.used - Zones(sub)), t', s, n, nzones, c, keys, l, next, Zones(sub));
  }

  /** Writing blocks that the cut has already removed changes nothing. */
  lemma {:induction false} StillPartly(t: Snap, t': Snap, s: Snap, n: nat, nzones: nat, c: seq<nat>, keys: seq<nat>,
                                       l: nat, j: nat, dead: set<nat>)
    requires Partly(t, s, n, nzones, c, keys, l, j) && Device(t', n, nzones) && t'.used == t.used && t'.ws == t.ws
    requires Frame(t.blocks, t'.blocks, dead) && dead !! t.used && dead <= s.used && (l > 0 ==> keys[l - 1] !in dead)
    ensures Partly(t', s, n, nzones, c, keys, l, j)
  {
    hide SnapOk, CutAll, Within, Gone, SepAll, LoadAll, WordsOf, Mixed;
    RestReady(t, s, n, nzones, c, keys, l, j);
    var ws, lv := LevelWords(t.mem, t.ws, keys, l), LevelOf(|c|, l);
    var kids := KidsAt(s, c, keys, l);
    var cut := CutAll(kids, c[l..]);
    GoneInside(cut, kids, j, s.used, t.used, dead);
    SameWords(t, t', n, nzones, dead, ZonesAll(LoadAll(t.mem, ws, lv)));
    ForestFrame(t.mem, t'.mem, ws, lv);
    if l > 0 {
      SameWords(t, t', n, nzones, dead, {keys[l - 1]});
    }
    FrameTrans(s.blocks, t.blocks, t'.blocks, Region(s, c, keys, l), dead);
    assert Region(s, c, keys, l) + dead == Region(s, c, keys, l);
  }

  /** Zones of the start that are no longer in use are not among those that are left. */
  lemma GoneInside(cut: seq<Tree>, kids: seq<Tree>, j: nat, used: set<nat>, used': set<nat>, dead: set<nat>)
    requires Within(cut, kids) && j <= |kids| && used' == used - Gone(cut, kids, j) && dead <= used && dead !! used'
    requires ZonesIn(kids, j, |kids|) <= used'
    ensures dead <= ZonesAll(kids) && dead !! ZonesAll(Mixed(cut, kids, j))
  {
    var r := Mixed(cut, kids, j);
    assert dead <= Gone(cut, kids, j);
    assert ZonesIn(kids, 0, j) <= ZonesAll(kids);
    forall z | z in ZonesAll(r)
      ensures z !in dead
    {
      var i :| 0 <= i < |r| && z in Zones(r[i]);
      if i < j {
        assert z in ZonesIn(cut, 0, j);
      } else {
        assert z in ZonesIn(kids, j, |kids|);
      }
    }
  }

  /** truncate when the cut falls among the direct slots. */
  method CutDirect(v: Volume, inode: Inode, c: seq<nat>, ghost s: Snap) returns (keys: seq<nat>)
    requires TreeOk(v, inode) && PathOk(Root, INODE_SLOTS, v.bs / 4, c) && |c| == 1 && s == Now(v, inode)
    modifies v`disk, v`blocks, v`mem, inode`zones, v.bitmap, v.bitmap.bits
    ensures v.Valid() && v.bitmap.warnings == old(v.bitmap.warnings)
    ensures Partly(Now(v, inode), s, v.bs / 4, v.bitmap.nzones, c, keys, 0, INODE_SLOTS)
  {
    hide Partly;
    keys := [];
    DirectStart(v, inode, c);
    ClearRoots(v, inode, s, c, keys, c[0], DIRECT);
    ClearRoots(v, inode, s, c, keys, DIRECT, INODE_SLOTS);
  }

  /** truncate when the cut falls below an indirect block. */
  method CutIndirect(v: Volume, inode: Inode, c: seq<nat>, ghost s: Snap) returns (keys: seq<nat>)
    requires TreeOk(v, inode) && PathOk(Root, INODE_SLOTS, v.bs / 4, c) && s == Now(v, inode)
    modifies v`disk, v`blocks, v`mem, inode`zones, v.bitmap, v.bitmap.bits
    ensures v.Valid() && v.bitmap.warnings == old(v.bitmap.warnings)
    ensures Partly(Now(v, inode), s, v.bs / 4, v.bitmap.nzones, c, keys, 0, INODE_SLOTS)
  {
    hide Partly, SnapOk, Detached;
    ghost var n, nzones := v.bs / 4, v.bitmap.nzones;
    var partial: nat, next: nat, top: nat;
    keys, partial, next, top := FindShared(v, inode, c, s);
    FreeTop(v, inode, s, c, keys, partial, next, top);
    while partial > 0
      invariant v.Valid() && partial < |c| && v.bitmap.warnings == old(v.bitmap.warnings)
      invariant Partly(Now(v, inode), s, n, nzones, c, keys, partial, next)
    {
      ClearRest(v, inode, s, c, keys, partial, next);
      PartlyUp(Now(v, inode), s, n, nzones, c, keys, partial);
      partial := partial - 1;
      next := c[partial] + 1;
    }
    NextBound(Now(v, inode), s, n, nzones, c, keys, next);
    ClearRoots(v, inode, s, c, keys, next, INODE_SLOTS);
  }

  /** Cut the tree at path `c`: truncate after the path has been computed. */
  method CutTree(v: Volume, inode: Inode, c: seq<nat>)
    requires TreeOk(v, inode) && PathOk(Root, INODE_SLOTS, v.bs / 4, c)
    modifies v`disk, v`blocks, v`mem, inode`zones, v.bitmap, v.bitmap.bits
    ensures TreeOk(v, inode) && v.bitmap.warnings == old(v.bitmap.warnings)
    ensures Forest(v, inode) == CutAll(old(Forest(v, inode)), c)
    ensures v.bitmap.used == old(v.bitmap.used) - (ZonesAll(old(Forest(v, inode))) - ZonesAll(Forest(v, inode)))
    ensures Frame(old(v.blocks), v.blocks, ZonesAll(old(Forest(v, inode))))
  {
    hide Partly;
    ghost var s := Now(v, inode);
    var keys;
    if |c| == 1 {
      keys := CutDirect(v, inode, c, s);
    } else {
      keys := CutIndirect(v, inode, c, s);
    }
    CutDone(Now(v, inode), s, v.bs / 4, v.bitmap.nzones, c, keys);
  }

  lemma {:induction false} DirectStart(v: Volume, inode: Inode, c: seq<nat>)
    requires TreeOk(v, inode) && PathOk(Root, INODE_SLOTS, v.bs / 4, c) && |c| == 1
    ensures Partly(Now(v, inode), Now(v, inode), v.bs / 4, v.bitmap.nzones, c, [], 0, c[0]) && c[0] <= DIRECT
  {
    var s, n, nzones := Now(v, inode), v.bs / 4, v.bitmap.nzones;
    SnapFromTree(v, inode, c, []);
    var kids := KidsAt(s, c, [], 0);
    assert c[0..] == c && c[1..] == [];
    assert CutAll(kids, c)[c[0]] == Cut(kids[c[0]], c[1..]);
    assert PathGone(s, c, [], 0);
    hide Partly, SnapOk, PathGone, KidsAt;
    StartBetween(s, n, nzones, c, [], 0);
  }

  lemma {:induction false} NextBound(t: Snap, s: Snap, n: nat, nzones: nat, c: seq<nat>, keys: seq<nat>, j: nat)
    requires Partly(t, s, n, nzones, c, keys, 0, j)
    ensures j <= INODE_SLOTS
  {
    RestReady(t, s, n, nzones, c, keys, 0, j);
  }

  lemma {:induction false} CutDone(t: Snap, s: Snap, n: nat, nzones: nat, c: seq<nat>, keys: seq<nat>)
    requires Partly(t, s, n, nzones, c, keys, 0, INODE_SLOTS)
    ensures var ts := LoadAll(s.mem, s.ws, Root);
      && c != [] && |t.ws| == INODE_SLOTS && LoadAll(t.mem, t.ws, Root) == CutAll(ts, c)
      && t.used == s.used - (ZonesAll(ts) - ZonesAll(CutAll(ts, c)))
      && Frame(s.blocks, t.blocks, ZonesAll(ts))
      && WellFormedAll(t.mem, t.ws, Root, n) && SepAll(CutAll(ts, c)) && ZonesAll(CutAll(ts, c)) <= t.used
      && (FullAll(ts) ==> FullAll(CutAll(ts, c)))
  {
    var ts := LoadAll(s.mem, s.ws, Root);
    RestReady(t, s, n, nzones, c, keys, 0, INODE_SLOTS);
    assert c[0..] == c;
    var cut := CutAll(ts, c);
    assert KidsAt(s, c, keys, 0) == ts && Mixed(cut, ts, INODE_SLOTS) == cut;
    GoneRest(cut, ts, INODE_SLOTS);
    CutKeeps(ts, c);
  }

  /** The first block that truncation to `size` bytes removes. */
  function FirstGone(size: nat, bs: nat): nat
    requires bs > 0
  {
    Quot(size + bs - 1, bs)
  }

  /** The blocks before it hold the bytes below `size`, the last of them at least one, and no more are needed. */
  lemma FirstGoneIs(size: nat, bs: nat)
    requires bs > 0
    ensures size <= FirstGone(size, bs) * bs < size + bs
    ensures forall b: nat {:trigger b * bs} :: b < FirstGone(size, bs) <==> b * bs < size
  {
    var f := FirstGone(size, bs);
    DivMod(size + bs - 1, bs, 0);
    forall b: nat
      ensures b < f <==> b * bs < size
    {
      if b < f {
        MulMono(b, f - 1, bs, bs);
        assert f * bs == (f - 1) * bs + bs;
      } else {
        MulMono(f, b, bs, bs);
      }
    }
  }

  /** What truncation to `size` bytes means for the mapping: a block stays mapped exactly when it begins
      below that size. */
  lemma KeepsBytes(ts: seq<Tree>, ts': seq<Tree>, bs: nat, size: nat)
    requires bs >= 4 && KeepsBelow(ts, ts', bs / 4, FirstGone(size, bs))
    ensures forall b :: 0 <= b < Capacity(bs / 4) ==>
      Mapped(ts', bs / 4, b) == if b * bs < size then Mapped(ts, bs / 4, b) else 0
  {
    hide Mapped, Capacity, FirstGone;
    forall b | 0 <= b < Capacity(bs / 4)
      ensures Mapped(ts', bs / 4, b) == if b * bs < size then Mapped(ts, bs / 4, b) else 0
    {
      FirstGoneIs(size, bs);
      assert b * bs < size <==> b < FirstGone(size, bs);
    }
  }

  /** No block at or above the size limit is mapped. */
  ghost predicate Limited(ts: seq<Tree>, bs: nat, maxBytes: nat) {
    bs >= 4 && forall b :: 0 <= b < Capacity(bs / 4) && b * bs >= maxBytes ==> Mapped(ts, bs / 4, b) == 0
  }

  /** What truncation to block `first` means for the mapping. */
  ghost predicate KeepsBelow(ts: seq<Tree>, ts': seq<Tree>, n: nat, first: nat) {
    n > 0 && forall b :: 0 <= b < Capacity(n) ==> Mapped(ts', n, b) == if b < first then Mapped(ts, n, b) else 0
  }

  /** What truncation leaves of a tree: all of it when the cut lies beyond the size limit. */
  function Trimmed(ts: seq<Tree>, bs: nat, maxBytes: nat, first: nat): seq<Tree>
    requires bs >= 4
  {
    if first * bs < maxBytes then CutAll(ts, PathOf(first, bs / 4)) else ts
  }

  /** The indirect blocks that truncation leaves are exactly those above a block that stays mapped, and
      they keep their zones. */
  lemma {:induction false} TrimmedSurvivors(ts: seq<Tree>, bs: nat, maxBytes: nat, first: nat, q: seq<nat>)
    requires BlockSizeOk(bs) && first * bs < maxBytes < 0x1_0000_0000 && q != [] && q[0] < |ts| == INODE_SLOTS
    requires |q| <= Height(Root, q[0]) + 1 && FullAll(ts) && Shaped(ts[q[0]], Height(Root, q[0]), bs / 4)
    ensures var now := At(Trimmed(ts, bs, maxBytes, first), q);
      && (now.Node? <==> exists b :: 0 <= b < first && q <= PathOf(b, bs / 4) && Mapped(ts, bs / 4, b) != 0)
      && (now.Node? ==> At(ts, q).Node? && now.zone == At(ts, q).zone)
  {
    hide FullAll, PathOf, Capacity;
    var n, h := bs / 4, Height(Root, q[0]);
    var c := PathOf(first, n);
    LimitFits(first, bs, maxBytes);
    PathRoundTrip(first, n);
    CutSurvivors(ts, c, q, h, n);
    if p :| q <= p && |p| == h + 1 && Below(p, c) && At(ts, p).Node? {
      LeafPath(ts, p, h, n);
      NonzeroAt(ts, p, h, n);
      PathInverse(p, n);
      PathOrder(p, c, n);
      assert Mapped(ts, n, BlockOf(p, n)) != 0;
    }
    forall b | 0 <= b < first && q <= PathOf(b, n) && Mapped(ts, n, b) != 0
      ensures exists p :: q <= p && |p| == h + 1 && Below(p, c) && At(ts, p).Node?
    {
      var p := PathOf(b, n);
      PathRoundTrip(b, n);
      PathOrder(p, c, n);
      assert p[0] == q[0] && |p| == h + 1;
    }
  }

  /** truncate: cut the tree to the size of the inode. */
  method Truncate(v: Volume, inode: Inode)
    requires TreeOk(v, inode) && Limited(Forest(v, inode), v.bs, v.maxBytes) && inode.size < 0x8000_0000_0000_0000
    modifies v`disk, v`blocks, v`mem, inode`zones, v.bitmap, v.bitmap.bits
    ensures TreeOk(v, inode) && Limited(Forest(v, inode), v.bs, v.maxBytes)
    ensures v.bs >= 4 && Forest(v, inode) == Trimmed(old(Forest(v, inode)), v.bs, v.maxBytes,
      FirstGone(inode.size, v.bs))
    ensures KeepsBelow(old(Forest(v, inode)), Forest(v, inode), v.bs / 4, FirstGone(inode.size, v.bs))
    // a block stays mapped exactly when it begins below the size
    ensures forall b :: 0 <= b < Capacity(v.bs / 4) ==>
      Mapped(Forest(v, inode), v.bs / 4, b) ==
        if b * v.bs < inode.size then Mapped(old(Forest(v, inode)), v.bs / 4, b) else 0
    ensures ZonesAll(Forest(v, inode)) <= ZonesAll(old(Forest(v, inode)))
    ensures v.bitmap.used == old(v.bitmap.used) - (ZonesAll(old(Forest(v, inode))) - ZonesAll(Forest(v, inode)))
    ensures v.bitmap.warnings == old(v.bitmap.warnings)
    ensures Frame(old(v.blocks), v.blocks, ZonesAll(old(Forest(v, inode))))
    ensures inode.size == 0 ==> AllZero(inode.zones, INODE_SLOTS)
  {
    hide Limited, KeepsBelow, CutAll, PathOf, Accepted, Target, Stray;
    var iblock := Quot(inode.size + v.bs - 1, v.bs);
    ghost var ts := Forest(v, inode);
    BlocksBound(inode.size, v.bs, iblock);
    AcceptedExactly(iblock, v.bs, v.maxBytes);
    TargetSame(iblock, v.bs);
    var offsets := BlockToPath(iblock, v.bs, v.maxBytes);
    if |offsets| == 0 {
      BeyondLimit(ts, v.bs, v.maxBytes, iblock);
    } else {
      CutTree(v, inode, offsets);
      CutMapping(ts, v.bs, v.maxBytes, iblock);
      CutKeeps(ts, offsets);
    }
    KeepsBytes(ts, Forest(v, inode), v.bs, inode.size);
    if inode.size == 0 {
      NothingLeft(ts, v, inode);
    }
  }

  /** A full tree that maps nothing is empty. */
  lemma {:induction false} NothingLeft(ts: seq<Tree>, v: Volume, inode: Inode)
    requires TreeOk(v, inode) && KeepsBelow(ts, Forest(v, inode), v.bs / 4, 0)
    ensures AllZero(inode.zones, INODE_SLOTS)
  {
    var n, now := v.bs / 4, Forest(v, inode);
    forall i | 0 <= i < INODE_SLOTS
      ensures inode.zones[i] == 0
    {
      if inode.zones[i] != 0 {
        LoadShaped(v.mem, inode.zones[i], Height(Root, i), n);
        var p := SomeLeaf(now, [i], Height(Root, i), n);
        assert p[0] == i;
        LeafMapped(now, p, Height(Root, i), n);
      }
    }
  }

  lemma {:induction false} LeafMapped(ts: seq<Tree>, p: seq<nat>, h: nat, n: nat)
    requires n > 0 && p != [] && p[0] < |ts| == INODE_SLOTS && h == Height(Root, p[0]) && |p| == h + 1
    requires Shaped(ts[p[0]], h, n) && At(ts, p).Node? && At(ts, p).zone != 0
    ensures exists b :: 0 <= b < Capacity(n) && Mapped(ts, n, b) != 0
  {
    LeafPath(ts, p, h, n);
    PathInverse(p, n);
    assert Mapped(ts, n, BlockOf(p, n)) != 0;
  }

  lemma {:induction false} LeafPath(ts: seq<Tree>, p: seq<nat>, h: nat, n: nat)
    requires p != [] && |p| == h + 1 && p[0] < |ts| && Shaped(ts[p[0]], h, n) && At(ts, p).Node?
    ensures forall i :: 1 <= i < |p| ==> p[i] < n
    decreases h
  {
    if h > 0 {
      LeafPath(ts[p[0]].kids, p[1..], h - 1, n);
      assert forall i :: 1 <= i < |p| ==> p[i] == p[1..][i - 1];
    }
  }

  /** A byte count that fits in loff_t has a block count whose product with the block size does not
      overflow. */
  lemma BlocksBound(size: nat, bs: nat, iblock: nat)
    requires BlockSizeOk(bs) && size < 0x8000_0000_0000_0000 && iblock == Quot(size + bs - 1, bs)
    ensures size <= iblock * bs < size + bs && (size == 0 ==> iblock == 0) && iblock * bs < U64
  {
    DivMod(size + bs - 1, bs, 1);
    if size == 0 { assert iblock < 1; }
  }

  /** The cut at the path of block `first` keeps exactly the mappings below `first`. */
  lemma CutMapping(ts: seq<Tree>, bs: nat, maxBytes: nat, first: nat)
    requires BlockSizeOk(bs) && Limited(ts, bs, maxBytes) && first * bs < maxBytes < 0x1_0000_0000
    ensures KeepsBelow(ts, CutAll(ts, PathOf(first, bs / 4)), bs / 4, first)
    ensures Limited(CutAll(ts, PathOf(first, bs / 4)), bs, maxBytes)
  {
    var n := bs / 4;
    var c := PathOf(first, n);
    LimitFits(first, bs, maxBytes);
    PathRoundTrip(first, n);
    forall b | 0 <= b < Capacity(n)
      ensures Mapped(CutAll(ts, c), n, b) == if b < first then Mapped(ts, n, b) else 0
    {
      var p := PathOf(b, n);
      PathRoundTrip(b, n);
      PathOrder(p, c, n);
      CutAt(ts, c, p);
    }
  }

  lemma BeyondLimit(ts: seq<Tree>, bs: nat, maxBytes: nat, first: nat)
    requires BlockSizeOk(bs) && Limited(ts, bs, maxBytes) && first * bs >= maxBytes
    ensures KeepsBelow(ts, ts, bs / 4, first)
  {
    forall b | 0 <= b < Capacity(bs / 4) && b >= first
      ensures Mapped(ts, bs / 4, b) == 0
    {
      MulMono(first, b, bs, bs);
    }
  }
}
