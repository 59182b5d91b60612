/** Reading, growing and cutting the block-mapping tree of an inode in place (itree_common.c). */
module Itree {
  import opened Arith
  import opened Geometry
  import opened Bytes
  import opened ZoneMap
  import opened BlockPath
  import opened Trees
  import opened Volumes

  /** Blocks that have not changed hold the same words. */
  lemma FrameMem(v: Volume, b: Blocks, m: Mem, zs: set<nat>, s: set<nat>)
    requires v.Valid() && WordsOf(b, m) && Frame(b, v.blocks, zs)
    requires s !! zs && forall z :: z in s ==> z < v.bitmap.nzones
    ensures SameOn(m, v.mem, s)
  {
    forall z | z in s
      ensures z in m && m[z] == v.mem[z]
    {
      assert Words(b[z]) == Words(v.blocks[z]);
    }
  }

  /** Zones of children `p` up to `q`. */
  function ZonesIn(ts: seq<Tree>, p: nat, q: nat): set<nat>
    requires p <= q <= |ts|
  {
    set i, z | p <= i < q && z in Zones(ts[i]) :: z
  }

  lemma NoZones(ts: seq<Tree>, p: nat)
    requires p <= |ts|
    ensures ZonesIn(ts, p, p) == {}
  {}

  lemma ZonesInStep(ts: seq<Tree>, p: nat, i: nat)
    requires p <= i < |ts|
    ensures ZonesIn(ts, p, i + 1) == ZonesIn(ts, p, i) + Zones(ts[i])
    ensures SepAll(ts) ==> ZonesIn(ts, p, i) !! Zones(ts[i])
  {}

  /** The zones below slots that are in use, and so in range. */
  ghost predicate Owned(v: Volume, zs: set<nat>)
    requires v.Valid()
    reads v, v.bitmap, v.bitmap.bits
  {
    zs <= v.bitmap.used
  }

  /** free_branches on one slot: give back a whole subtree. */
  method FreeSubtree(v: Volume, nr: nat, depth: nat)
    requires v.Valid() && nr != 0
    requires WellFormed(v.mem, nr, depth, v.bs / 4) && Sep(Load(v.mem, nr, depth))
    requires Owned(v, Zones(Load(v.mem, nr, depth)))
    modifies v`disk, v`blocks, v`mem, v.bitmap, v.bitmap.bits
    ensures v.Valid() && v.bitmap.warnings == old(v.bitmap.warnings)
    ensures v.bitmap.used == old(v.bitmap.used) - Zones(old(Load(v.mem, nr, depth)))
    ensures Frame(old(v.blocks), v.blocks, Zones(old(Load(v.mem, nr, depth))))
    decreases depth, 0
  {
    if depth > 0 {
      ghost var ts := LoadAll(v.mem, v.mem[nr], Indirect(depth - 1));
      assert ZonesIn(ts, 0, |ts|) == ZonesAll(ts);
      FreeSlots(v, nr, 0, v.bs / 4, depth - 1);
    }
    v.bitmap.FreeBlock(nr);
  }

  /** free_branches and free_data on slots `p` up to `q` of an indirect block. */
  method FreeSlots(v: Volume, holder: nat, p: nat, q: nat, depth: nat)
    requires v.Valid() && holder < v.bitmap.nzones && p <= q <= v.bs / 4
    requires WellFormedAll(v.mem, v.mem[holder], Indirect(depth), v.bs / 4)
    requires SepAll(LoadAll(v.mem, v.mem[holder], Indirect(depth)))
    requires holder !in ZonesAll(LoadAll(v.mem, v.mem[holder], Indirect(depth)))
    requires Owned(v, ZonesIn(LoadAll(v.mem, v.mem[holder], Indirect(depth)), p, q))
    modifies v`disk, v`blocks, v`mem, v.bitmap, v.bitmap.bits
    ensures v.Valid() && v.bitmap.warnings == old(v.bitmap.warnings)
    ensures var ts := old(LoadAll(v.mem, v.mem[holder], Indirect(depth)));
      && v.bitmap.used == old(v.bitmap.used) - ZonesIn(ts, p, q)
      && Frame(old(v.blocks), v.blocks, {holder} + ZonesIn(ts, p, q))
    ensures Cleared(old(v.mem[holder]), v.mem[holder], p, q)
    decreases depth, 2
  {
    hide ZonesIn;
    ghost var d, m, used := v.blocks, v.mem, v.bitmap.used;
    ghost var ts := LoadAll(m, m[holder], Indirect(depth));
    NoZones(ts, p);
    var i := p;
    while i < q
      invariant p <= i <= q && v.Valid() && v.bitmap.warnings == old(v.bitmap.warnings)
      invariant v.bitmap.used == used - ZonesIn(ts, p, i)
      invariant Frame(d, v.blocks, {holder} + ZonesIn(ts, p, i))
      invariant Cleared(m[holder], v.mem[holder], p, i)
    {
      ghost var e, z, zs := v.blocks, ZonesIn(ts, p, i), Zones(ts[i]);
      SlotZones(ts, p, q, i, used, holder);
      FrameMem(v, d, m, {holder} + z, zs);
      FreeSlot(v, holder, i, depth, m);
      FrameTrans(d, e, v.blocks, {holder} + z, {holder} + zs);
      i := i + 1;
    }
  }

  /** Slots `p` up to `q` are clear and the others as before. */
  predicate Cleared(ws: seq<nat>, ws': seq<nat>, p: nat, q: nat) {
    |ws'| == |ws| && forall j :: 0 <= j < |ws| ==> ws'[j] == if p <= j < q then 0 else ws[j]
  }

  /** One round of the loops of free_branches and free_data; `m` is the memory in which the subtree
      was last looked at. */
  method FreeSlot(v: Volume, holder: nat, i: nat, depth: nat, ghost m: Mem)
    requires v.Valid() && holder < v.bitmap.nzones && i < v.bs / 4
    requires WellFormed(m, v.mem[holder][i], depth, v.bs / 4) && Sep(Load(m, v.mem[holder][i], depth))
    requires SameOn(m, v.mem, Zones(Load(m, v.mem[holder][i], depth)))
    requires holder !in Zones(Load(m, v.mem[holder][i], depth))
    requires Owned(v, Zones(Load(m, v.mem[holder][i], depth)))
    modifies v`disk, v`blocks, v`mem, v.bitmap, v.bitmap.bits
    ensures v.Valid() && v.bitmap.warnings == old(v.bitmap.warnings)
    ensures var t := Load(m, old(v.mem[holder])[i], depth);
      && v.bitmap.used == old(v.bitmap.used) - Zones(t)
      && Frame(old(v.blocks), v.blocks, {holder} + Zones(t))
    ensures v.mem[holder] == old(v.mem[holder])[i := 0]
    decreases depth, 1
  {
    var nr := v.GetWord(holder, i);
    if nr != 0 {
      v.SetWord(holder, i, 0);
      LoadFrame(m, v.mem, nr, depth);
      WellFormedFrame(m, v.mem, nr, depth, v.bs / 4);
      ghost var e, z := v.blocks, Zones(Load(m, nr, depth));
      FreeSubtree(v, nr, depth);
      FrameTrans(old(v.blocks), e, v.blocks, {holder}, z);
      assert Words(v.blocks[holder]) == Words(e[holder]);
    }
  }

  /** The set algebra of one round. */
  lemma RoundZones(ts: seq<Tree>, p: nat, q: nat, i: nat, used: set<nat>)
    requires p <= i < q <= |ts| && ZonesIn(ts, p, q) <= used && SepAll(ts)
    ensures var z, zs := ZonesIn(ts, p, i), Zones(ts[i]);
      && zs <= used - z && zs !! z
      && used - ZonesIn(ts, p, i + 1) == (used - z) - zs && ZonesIn(ts, p, i + 1) == z + zs
  {
    ZonesInStep(ts, p, i);
    forall z | z in Zones(ts[i])
      ensures z in used
    {
      assert z in ZonesIn(ts, p, q);
    }
  }

  lemma SlotZones(ts: seq<Tree>, p: nat, q: nat, i: nat, used: set<nat>, holder: nat)
    requires p <= i < q <= |ts| && ZonesIn(ts, p, q) <= used && SepAll(ts) && holder !in ZonesAll(ts)
    ensures var z, zs := ZonesIn(ts, p, i), Zones(ts[i]);
      && zs <= used - z && holder !in zs && zs !! {holder} + z
      && used - ZonesIn(ts, p, i + 1) == (used - z) - zs
      && {holder} + ZonesIn(ts, p, i + 1) == ({holder} + z) + ({holder} + zs)
  {
    RoundZones(ts, p, q, i, used);
    InAll(ts, i);
  }

  /** free_data and the killing of whole subtrees, on slots `p` up to `q` of the inode itself. */
  method FreeInodeSlots(v: Volume, inode: Inode, p: nat, q: nat)
    requires v.Valid() && p <= q <= |inode.zones|
    requires WellFormedAll(v.mem, inode.zones, Root, v.bs / 4) && SepAll(LoadAll(v.mem, inode.zones, Root))
    requires Owned(v, ZonesIn(LoadAll(v.mem, inode.zones, Root), p, q))
    modifies v`disk, v`blocks, v`mem, inode`zones, v.bitmap, v.bitmap.bits
    ensures v.Valid() && v.bitmap.warnings == old(v.bitmap.warnings)
    ensures var ts := old(LoadAll(v.mem, inode.zones, Root));
      && v.bitmap.used == old(v.bitmap.used) - ZonesIn(ts, p, q)
      && Frame(old(v.blocks), v.blocks, ZonesIn(ts, p, q))
    ensures Cleared(old(inode.zones), inode.zones, p, q)
  {
    hide ZonesIn;
    ghost var d, m, ws, used := v.blocks, v.mem, inode.zones, v.bitmap.used;
    ghost var ts := LoadAll(m, ws, Root);
    NoZones(ts, p);
    var i := p;
    while i < q
      invariant p <= i <= q && v.Valid() && v.bitmap.warnings == old(v.bitmap.warnings)
      invariant v.bitmap.used == used - ZonesIn(ts, p, i)
      invariant Frame(d, v.blocks, ZonesIn(ts, p, i))
      invariant Cleared(ws, inode.zones, p, i)
    {
      ghost var e, z, zs := v.blocks, ZonesIn(ts, p, i), Zones(ts[i]);
      RoundZones(ts, p, q, i, used);
      FrameMem(v, d, m, z, zs);
      FreeInodeSlot(v, inode, i, m);
      FrameTrans(d, e, v.blocks, z, zs);
      i := i + 1;
    }
  }

  method FreeInodeSlot(v: Volume, inode: Inode, i: nat, ghost m: Mem)
    requires v.Valid() && i < |inode.zones|
    requires WellFormed(m, inode.zones[i], Height(Root, i), v.bs / 4) && Sep(Load(m, inode.zones[i], Height(Root, i)))
    requires SameOn(m, v.mem, Zones(Load(m, inode.zones[i], Height(Root, i))))
    requires Owned(v, Zones(Load(m, inode.zones[i], Height(Root, i))))
    modifies v`disk, v`blocks, v`mem, inode`zones, v.bitmap, v.bitmap.bits
    ensures v.Valid() && v.bitmap.warnings == old(v.bitmap.warnings)
    ensures var t := Load(m, old(inode.zones)[i], Height(Root, i));
      v.bitmap.used == old(v.bitmap.used) - Zones(t) && Frame(old(v.blocks), v.blocks, Zones(t))
    ensures inode.zones == old(inode.zones)[i := 0]
  {
    var nr := inode.zones[i];
    if nr != 0 {
      inode.zones := inode.zones[i := 0];
      LoadFrame(m, v.mem, nr, Height(Root, i));
      WellFormedFrame(m, v.mem, nr, Height(Root, i), v.bs / 4);
      FreeSubtree(v, nr, Height(Root, i));
    }
  }

  // ---------------------------------------------------------------- the tree of an inode

  /** How get_block ends; Wild is an access outside an indirect block, which the source does not guard
      against and no file position leads to. */
  datatype Status = Ok | NoSpace | Invalid | Again | Wild

  /** The trees below the slots of an inode. */
  ghost function Forest(v: Volume, inode: Inode): seq<Tree>
    reads v, inode
  {
    LoadAll(v.mem, inode.zones, Root)
  }

  /** Every zone of the tree is in use and reached once, and no indirect block is empty. */
  ghost predicate TreeOk(v: Volume, inode: Inode)
    reads v, v.bitmap, v.bitmap.bits, inode
  {
    && v.Valid() && |inode.zones| == INODE_SLOTS
    && WellFormedAll(v.mem, inode.zones, Root, v.bs / 4)
    && SepAll(Forest(v, inode)) && FullAll(Forest(v, inode))
    && ZonesAll(Forest(v, inode)) <= v.bitmap.used
  }

  /** The zone that logical block `b` is mapped to, 0 for a hole. */
  function Mapped(ts: seq<Tree>, n: nat, b: nat): nat
    requires n > 0
  {
    ZoneOf(At(ts, PathOf(b, n)))
  }

  /** get_branch: read the keys along the path until `depth` of them are known or a hole is met. */
  method GetBranch(v: Volume, inode: Inode, offsets: seq<nat>, depth: nat) returns (keys: seq<nat>)
    requires TreeOk(v, inode) && PathOk(Root, INODE_SLOTS, v.bs / 4, offsets) && 1 <= depth <= |offsets|
    ensures 1 <= |keys| <= depth && Linked(v.mem, inode.zones, offsets, keys)
    ensures |keys| == depth || keys[|keys| - 1] == 0
  {
    keys := [inode.zones[offsets[0]]];
    while |keys| < depth && keys[|keys| - 1] != 0
      invariant 1 <= |keys| <= depth && Linked(v.mem, inode.zones, offsets, keys)
    {
      var l := |keys| - 1;
      ChainOwned(v.mem, inode.zones, offsets, keys, l, v.bs / 4);
      var w := v.GetWord(keys[l], offsets[l + 1]);
      keys := keys + [w];
    }
  }

  /** verify_chain: whether the first `upto` keys are still what their slots hold. */
  method VerifyChain(v: Volume, inode: Inode, offsets: seq<nat>, keys: seq<nat>, upto: nat) returns (ok: bool)
    requires TreeOk(v, inode) && PathOk(Root, INODE_SLOTS, v.bs / 4, offsets)
    requires upto <= |keys| <= |offsets| && forall l :: 0 <= l < upto ==> keys[l] < v.bitmap.nzones
    ensures ok <==> forall l :: 0 <= l < upto ==> keys[l] == SlotNow(v, inode, offsets, keys, l)
  {
    var from := 0;
    while from < upto
      invariant from <= upto
      invariant forall l :: 0 <= l < from ==> keys[l] == SlotNow(v, inode, offsets, keys, l)
    {
      var now := inode.zones[offsets[0]];
      if from > 0 {
        now := v.GetWord(keys[from - 1], offsets[from]);
      }
      if keys[from] != now {
        assert keys[from] != SlotNow(v, inode, offsets, keys, from);
        return false;
      }
      from := from + 1;
    }
    return true;
  }

  /** What the slot of level `l` of a chain holds now. */
  ghost function SlotNow(v: Volume, inode: Inode, offsets: seq<nat>, keys: seq<nat>, l: nat): nat
    requires v.Valid() && |inode.zones| == INODE_SLOTS && PathOk(Root, INODE_SLOTS, v.bs / 4, offsets)
    requires l <= |keys| && l < |offsets| && (l > 0 ==> keys[l - 1] < v.bitmap.nzones)
    reads v, v.bitmap, v.bitmap.bits, inode
  {
    if l == 0 then inode.zones[offsets[0]] else v.mem[keys[l - 1]][offsets[l]]
  }

  /** Zones that are not in use. */
  function Unused(nzones: nat, used: set<nat>): set<nat> {
    set z | 0 <= z < nzones && z !in used
  }

  /** Zones that can be allocated. */
  function FreeZones(first: nat, nzones: nat, used: set<nat>): set<nat> {
    set z | first <= z < nzones && z !in used
  }

  /** Fewer than `num` zones can be allocated. */
  predicate Scarce(first: nat, nzones: nat, used: set<nat>, num: nat) {
    |FreeZones(first, nzones, used)| < num
  }

  lemma {:induction false} ElemsSize(zs: seq<nat>)
    ensures |Elems(zs)| <= |zs| && (Distinct(zs) ==> |Elems(zs)| == |zs|)
    decreases |zs|
  {
    if zs == [] {
      assert Elems(zs) == {};
    } else {
      var n := |zs| - 1;
      ElemsSize(zs[..n]);
      ElemsSnoc(zs[..n], zs[n]);
      assert zs == zs[..n] + [zs[n]];
      assert Distinct(zs) ==> zs[n] !in Elems(zs[..n]);
    }
  }

  /** Zones `zs` were taken and then there were no more. */
  lemma TookAll(first: nat, nzones: nat, used: set<nat>, zs: seq<nat>, num: nat)
    requires |zs| < num && forall z :: first <= z < nzones ==> z in used + Elems(zs)
    ensures Scarce(first, nzones, used, num)
  {
    ElemsSize(zs);
    forall z | z in FreeZones(first, nzones, used)
      ensures z in Elems(zs)
    {
      assert z in used + Elems(zs);
    }
    SubsetSize(FreeZones(first, nzones, used), Elems(zs));
  }

  /** Zones `zs` were taken, so there were enough. */
  lemma TookEnough(first: nat, nzones: nat, used: set<nat>, zs: seq<nat>)
    requires Distinct(zs) && Elems(zs) !! used && forall z :: z in Elems(zs) ==> first <= z < nzones
    ensures !Scarce(first, nzones, used, |zs|)
  {
    ElemsSize(zs);
    SubsetSize(Elems(zs), FreeZones(first, nzones, used));
  }

  /** alloc_branch: take `num` zones and chain them along `offsets`, or take none; nothing but the
      contents of free zones changes. */
  method AllocBranch(v: Volume, offsets: seq<nat>, num: nat) returns (ok: bool, zs: seq<nat>)
    requires v.Valid() && 1 <= num == |offsets| && forall i :: 1 <= i < num ==> offsets[i] < v.bs / 4
    modifies v`disk, v`blocks, v`mem, v.bitmap, v.bitmap.bits
    ensures v.Valid() && v.bitmap.warnings == old(v.bitmap.warnings)
    ensures ok ==> |zs| == num && Growing(v, old(v.blocks), old(v.bitmap.used), offsets[1..], zs)
    ensures !ok ==> v.bitmap.used == old(v.bitmap.used)
    ensures ok <==> !Scarce(v.bitmap.first, v.bitmap.nzones, old(v.bitmap.used), num)
    ensures Frame(old(v.blocks), v.blocks, Unused(v.bitmap.nzones, old(v.bitmap.used)))
  {
    hide Scarce, SetFirst, BranchSteps;
    ghost var used, d := v.bitmap.used, v.blocks;
    NoSteps(offsets[1..], v.bs / 4);
    var parent := v.bitmap.NewBlock();
    if parent == 0 {
      TookAll(v.bitmap.first, v.bitmap.nzones, used, [], num);
      return false, [];
    }
    zs := [parent];
    while |zs| < num
      invariant 1 <= |zs| <= num
      invariant Growing(v, d, used, offsets[1..], zs) && v.bitmap.warnings == old(v.bitmap.warnings)
    {
      var nr := ExtendBranch(v, offsets[1..], zs, d, used);
      if nr == 0 {
        TookAll(v.bitmap.first, v.bitmap.nzones, used, zs, num);
        break;
      }
      zs := zs + [nr];
    }
    assert Elems(zs) <= Unused(v.bitmap.nzones, used);
    if |zs| == num {
      TookEnough(v.bitmap.first, v.bitmap.nzones, used, zs);
      return true, zs;
    }
    ReleaseAll(v, zs);
    assert (used + Elems(zs)) - Elems(zs) == used;
    return false, [];
  }

  lemma NoSteps(p: seq<nat>, n: nat)
    ensures forall m, z {:trigger BranchSteps(m, p, [z], n)} :: z != 0 ==> BranchSteps(m, p, [z], n)
  {}

  /** One round of the loop of alloc_branch: a new zone, named in the last block of the branch. */
  method ExtendBranch(v: Volume, p: seq<nat>, zs: seq<nat>, ghost d: Blocks, ghost used: set<nat>) returns (nr: nat)
    requires 1 <= |zs| <= |p| && p[|zs| - 1] < v.bs / 4 && Growing(v, d, used, p, zs)
    modifies v`disk, v`blocks, v`mem, v.bitmap, v.bitmap.bits
    ensures Growing(v, d, used, p, if nr == 0 then zs else zs + [nr])
    ensures nr == 0 ==> v.bitmap.Exhausted()
    ensures v.bitmap.warnings == old(v.bitmap.warnings)
  {
    hide BranchSteps, SetFirst;
    nr := v.bitmap.NewBlock();
    if nr == 0 {
      return;
    }
    var parent := zs[|zs| - 1];
    ElemsSnoc(zs, nr);
    assert parent in Elems(zs);
    ghost var m, b := v.mem, v.blocks;
    NameOnly(v, parent, p[|zs| - 1], nr);
    FrameInside(d, b, v.blocks, Elems(zs), parent, Elems(zs + [nr]));
    BranchExtended(m, v.mem, p, zs, nr, v.bs / 4);
  }

  /** Clear a block and store one zone in it. */
  method NameOnly(v: Volume, z: nat, i: nat, nr: nat)
    requires v.Valid() && z < v.bitmap.nzones && i < v.bs / 4 && nr < 0x1_0000_0000
    modifies v`disk, v`blocks, v`mem
    ensures v.Valid() && Frame(old(v.blocks), v.blocks, {z})
    ensures v.mem == old(v.mem)[z := v.mem[z]] && v.mem[z] == ZeroWords(v.bs / 4)[i := nr]
  {
    v.ClearBlock(z);
    v.SetWord(z, i, nr);
  }

  /** A branch under construction: the zones are new, and each but the last names the next. */
  ghost predicate Growing(v: Volume, d: Blocks, used: set<nat>, p: seq<nat>, zs: seq<nat>)
    reads v, v.bitmap, v.bitmap.bits
  {
    && v.Valid() && |zs| <= |p| + 1 && Distinct(zs) && Elems(zs) !! used && v.bitmap.used == used + Elems(zs)
    && BranchSteps(v.mem, p, zs, v.bs / 4)
    && Frame(d, v.blocks, Elems(zs))
  }

  lemma ElemsSnoc(zs: seq<nat>, z: nat)
    ensures Elems(zs + [z]) == Elems(zs) + {z}
    ensures Distinct(zs) && z !in zs ==> Distinct(zs + [z])
  {}

  /** Give back the zones of a branch that is not going to be used. */
  method ReleaseAll(v: Volume, zs: seq<nat>)
    requires v.Valid() && Distinct(zs) && Elems(zs) <= v.bitmap.used
    modifies v.bitmap, v.bitmap.bits
    ensures v.Valid() && v.bitmap.warnings == old(v.bitmap.warnings)
    ensures v.bitmap.used == old(v.bitmap.used) - Elems(zs)
  {
    ghost var used := v.bitmap.used;
    var i := 0;
    while i < |zs|
      invariant i <= |zs| && v.Valid() && v.bitmap.warnings == old(v.bitmap.warnings)
      invariant v.bitmap.used == used - Elems(zs[..i])
    {
      assert zs[..i + 1] == zs[..i] + [zs[i]];
      ElemsSnoc(zs[..i], zs[i]);
      assert zs[i] in Elems(zs) && zs[i] !in zs[..i];
      v.bitmap.FreeBlock(zs[i]);
      i := i + 1;
    }
    assert zs[..|zs|] == zs;
  }

  lemma UsedIsWellFormed(v: Volume, ws: seq<nat>, lv: Level)
    requires v.Valid() && ZonesAll(LoadAll(v.mem, ws, lv)) <= v.bitmap.used
    ensures WellFormedAll(v.mem, ws, lv, v.bs / 4)
  {
    ForestWellFormed(v.mem, ws, lv, v.bs / 4);
  }

  /** The chain is still there and the slot after it is vacant. */
  ghost predicate Vacant(v: Volume, inode: Inode, offsets: seq<nat>, keys: seq<nat>)
    requires v.Valid() && |inode.zones| == INODE_SLOTS && PathOk(Root, INODE_SLOTS, v.bs / 4, offsets)
    requires |keys| < |offsets| && forall l :: 0 <= l < |keys| ==> keys[l] < v.bitmap.nzones
    reads v, v.bitmap, v.bitmap.bits, inode
  {
    && (forall l :: 0 <= l < |keys| ==> keys[l] == SlotNow(v, inode, offsets, keys, l))
    && SlotNow(v, inode, offsets, keys, |keys|) == 0
  }

  /** splice_branch: if the place is still there and vacant, hang the branch into it; otherwise give
      back its zones and leave the tree alone. */
  method SpliceBranch(v: Volume, inode: Inode, offsets: seq<nat>, keys: seq<nat>, zs: seq<nat>) returns (status: Status)
    requires TreeOk(v, inode) && PathOk(Root, INODE_SLOTS, v.bs / 4, offsets)
    requires |keys| < |offsets| && forall l :: 0 <= l < |keys| ==> 0 < keys[l] < v.bitmap.nzones
    requires |zs| == |offsets| - |keys| && Distinct(zs) && Elems(zs) <= v.bitmap.used
    requires Elems(zs) !! ZonesAll(Forest(v, inode)) && BranchIn(v.mem, offsets[|keys| + 1..], zs, v.bs / 4)
    modifies v`disk, v`blocks, v`mem, inode`zones, v.bitmap, v.bitmap.bits
    ensures TreeOk(v, inode) && v.bitmap.warnings == old(v.bitmap.warnings)
    ensures status == if old(Vacant(v, inode, offsets, keys)) then Ok else Again
    ensures status == Again ==>
      Forest(v, inode) == old(Forest(v, inode)) && v.bitmap.used == old(v.bitmap.used) - Elems(zs)
    ensures status == Ok ==>
      && v.bitmap.used == old(v.bitmap.used) && HoleAt(old(Forest(v, inode)), offsets, |keys|)
      && Forest(v, inode) == Graft(old(Forest(v, inode)), offsets, |keys|, zs, v.bs / 4)
    ensures Frame(old(v.blocks), v.blocks, ZonesAll(old(Forest(v, inode))))
  {
    hide SepAll, FullAll, WellFormedAll, Graft, HoleAt, LoadAll, BranchIn;
    var k := |keys|;
    var ok := VerifyChain(v, inode, offsets, keys, k);
    var now := inode.zones[offsets[0]];
    if k > 0 {
      now := v.GetWord(keys[k - 1], offsets[k]);
    }
    if !ok || now != 0 {
      ReleaseAll(v, zs);
      return Again;
    }
    HangBranch(v, inode, offsets, keys, zs);
    return Ok;
  }

  /** The one store of splice_branch. */
  method HangBranch(v: Volume, inode: Inode, offsets: seq<nat>, keys: seq<nat>, zs: seq<nat>)
    requires TreeOk(v, inode) && PathOk(Root, INODE_SLOTS, v.bs / 4, offsets)
    requires |keys| < |offsets| && forall l :: 0 <= l < |keys| ==> 0 < keys[l] < v.bitmap.nzones
    requires Vacant(v, inode, offsets, keys)
    requires |zs| == |offsets| - |keys| && Distinct(zs) && Elems(zs) <= v.bitmap.used
    requires Elems(zs) !! ZonesAll(Forest(v, inode)) && BranchIn(v.mem, offsets[|keys| + 1..], zs, v.bs / 4)
    modifies v`disk, v`blocks, v`mem, inode`zones
    ensures TreeOk(v, inode) && HoleAt(old(Forest(v, inode)), offsets, |keys|)
    ensures Forest(v, inode) == Graft(old(Forest(v, inode)), offsets, |keys|, zs, v.bs / 4)
    ensures Frame(old(v.blocks), v.blocks, ZonesAll(old(Forest(v, inode))))
  {
    hide SepAll, FullAll, WellFormedAll, Graft, HoleAt, At, LoadAll, BranchIn;
    var k := |keys|;
    ghost var n, m, ws, ts := v.bs / 4, v.mem, inode.zones, Forest(v, inode);
    VacantHole(v, inode, offsets, keys);
    assert zs[0] in Elems(zs);
    if k == 0 {
      inode.zones := inode.zones[offsets[0] := zs[0]];
    } else {
      v.SetWord(keys[k - 1], offsets[k], zs[0]);
    }
    assert SlotSet(m, v.mem, ws, inode.zones, ts, offsets, k, zs[0]);
    BranchFrame(m, v.mem, offsets[k + 1..], zs, n);
    GraftLoad(m, v.mem, ws, inode.zones, Root, offsets, k, zs, n);
    GraftKeeps(ts, offsets, k, zs, n);
    UsedIsWellFormed(v, inode.zones, Root);
  }

  lemma VacantHole(v: Volume, inode: Inode, offsets: seq<nat>, keys: seq<nat>)
    requires TreeOk(v, inode) && PathOk(Root, INODE_SLOTS, v.bs / 4, offsets)
    requires |keys| < |offsets| && forall l :: 0 <= l < |keys| ==> 0 < keys[l] < v.bitmap.nzones
    requires Vacant(v, inode, offsets, keys)
    ensures HoleAt(Forest(v, inode), offsets, |keys|)
    ensures |keys| > 0 ==>
      && ZoneOf(At(Forest(v, inode), offsets[..|keys|])) == keys[|keys| - 1]
      && keys[|keys| - 1] in ZonesAll(Forest(v, inode))
  {
    var ks := keys + [0];
    forall l | 0 <= l < |ks|
      ensures offsets[l] < |LevelWords(v.mem, inode.zones, ks, l)|
        && ks[l] == LevelWords(v.mem, inode.zones, ks, l)[offsets[l]]
    {
      assert l < |keys| ==> keys[l] == SlotNow(v, inode, offsets, keys, l);
      assert l > 0 ==> ks[l - 1] == keys[l - 1];
    }
    assert Linked(v.mem, inode.zones, offsets, ks);
    ChainHole(v.mem, inode.zones, offsets, ks, v.bs / 4);
    if |keys| > 0 {
      ChainAt(v.mem, inode.zones, offsets, ks, |keys| - 1, v.bs / 4);
      ChainOwned(v.mem, inode.zones, offsets, ks, |keys| - 1, v.bs / 4);
    }
  }

  /** Zones change hands only by being taken: the tree and the vacant slot are still there. */
  lemma StillVacant(v: Volume, inode: Inode, d: Blocks, m: Mem, used: set<nat>, offsets: seq<nat>, keys: seq<nat>)
    requires v.Valid() && |inode.zones| == INODE_SLOTS && WordsOf(d, m)
    requires WellFormedAll(m, inode.zones, Root, v.bs / 4) && SepAll(LoadAll(m, inode.zones, Root))
    requires ZonesAll(LoadAll(m, inode.zones, Root)) <= used && forall z :: z in used ==> z < v.bitmap.nzones
    requires PathOk(Root, INODE_SLOTS, v.bs / 4, offsets)
    requires keys != [] && Linked(m, inode.zones, offsets, keys) && keys[|keys| - 1] == 0
    requires Frame(d, v.blocks, Unused(v.bitmap.nzones, used))
    ensures Forest(v, inode) == LoadAll(m, inode.zones, Root)
    ensures |keys| - 1 < |offsets| && forall l :: 0 <= l < |keys| - 1 ==> 0 < keys[l] < v.bitmap.nzones
    ensures Vacant(v, inode, offsets, keys[..|keys| - 1])
  {
    var ts := LoadAll(m, inode.zones, Root);
    FrameMem(v, d, m, Unused(v.bitmap.nzones, used), ZonesAll(ts));
    ForestFrame(m, v.mem, inode.zones, Root);
    LinkedFrame(m, v.mem, inode.zones, offsets, keys, v.bs / 4);
    forall l | 0 <= l < |keys| - 1
      ensures 0 < keys[l] < v.bitmap.nzones
    {
      ChainOwned(m, inode.zones, offsets, keys, l, v.bs / 4);
    }
    var ks := keys[..|keys| - 1];
    forall l | 0 <= l <= |ks|
      ensures keys[l] == SlotNow(v, inode, offsets, ks, l)
    {
      assert keys[l] == LevelWords(v.mem, inode.zones, keys, l)[offsets[l]];
    }
  }

  /** The creating half of get_block: allocate a branch for the hole that `keys` ends in and splice
      it in. */
  method Grow(v: Volume, inode: Inode, offsets: seq<nat>, keys: seq<nat>) returns (status: Status, zs: seq<nat>)
    requires TreeOk(v, inode) && PathOk(Root, INODE_SLOTS, v.bs / 4, offsets)
    requires keys != [] && Linked(v.mem, inode.zones, offsets, keys) && keys[|keys| - 1] == 0
    modifies v`disk, v`blocks, v`mem, inode`zones, v.bitmap, v.bitmap.bits
    ensures TreeOk(v, inode) && v.bitmap.warnings == old(v.bitmap.warnings)
    ensures status == if Scarce(v.bitmap.first, v.bitmap.nzones, old(v.bitmap.used), |offsets| - |keys| + 1)
      then NoSpace else Ok
    ensures status == NoSpace ==> Forest(v, inode) == old(Forest(v, inode)) && v.bitmap.used == old(v.bitmap.used)
    ensures status == Ok ==>
      && |zs| == |offsets| - |keys| + 1 && Distinct(zs) && 0 !in zs && Elems(zs) !! old(v.bitmap.used)
      && v.bitmap.used == old(v.bitmap.used) + Elems(zs)
      && HoleAt(old(Forest(v, inode)), offsets, |keys| - 1)
      && Forest(v, inode) == Graft(old(Forest(v, inode)), offsets, |keys| - 1, zs, v.bs / 4)
    ensures Frame(old(v.blocks), v.blocks,
                  ZonesAll(old(Forest(v, inode))) + Unused(v.bitmap.nzones, old(v.bitmap.used)))
  {
    hide Scarce, Graft, SepAll, FullAll, InSync, BlockSizeOk;
    ghost var d, m, used := v.blocks, v.mem, v.bitmap.used;
    var k := |keys| - 1;
    var ok;
    ok, zs := AllocBranch(v, offsets[k..], |offsets| - k);
    StillVacant(v, inode, d, m, used, offsets, keys);
    UsedIsWellFormed(v, inode.zones, Root);
    if !ok {
      return NoSpace, [];
    }
    BranchBuilt(v.mem, offsets[k..][1..], zs, v.bs / 4);
    assert offsets[k..][1..] == offsets[k + 1..];
    ghost var e := v.blocks;
    status := SpliceBranch(v, inode, offsets, keys[..k], zs);
    FrameTrans(d, e, v.blocks, Unused(v.bitmap.nzones, used), ZonesAll(old(Forest(v, inode))));
  }

  /** The lookup half of get_block: the last key read is the zone of the block, or 0. */
  method Lookup(v: Volume, inode: Inode, offsets: seq<nat>) returns (keys: seq<nat>)
    requires TreeOk(v, inode) && PathOk(Root, INODE_SLOTS, v.bs / 4, offsets)
    ensures keys != [] && Linked(v.mem, inode.zones, offsets, keys)
    ensures keys[|keys| - 1] == ZoneOf(At(Forest(v, inode), offsets))
  {
    keys := GetBranch(v, inode, offsets, |offsets|);
    ChainAt(v.mem, inode.zones, offsets, keys, |keys| - 1, v.bs / 4);
    LookupEnds(Forest(v, inode), offsets, keys, v.bs / 4);
  }

  /** `b` is mapped to `zone`, which was free, and no other mapping has changed. */
  ghost predicate AddsOne(ts: seq<Tree>, ts': seq<Tree>, n: nat, block: nat, zone: nat, used: set<nat>,
                          used': set<nat>) {
    && n > 0 && zone != 0 && zone !in used && Mapped(ts, n, block) == 0
    && (forall b :: 0 <= b < Capacity(n) ==> Mapped(ts', n, b) == if b == block then zone else Mapped(ts, n, b))
    && used <= used' && ZonesAll(ts) <= ZonesAll(ts') && used' - used == ZonesAll(ts') - ZonesAll(ts)
  }

  /** There are too few zones for what is missing on the way to a block. */
  ghost predicate Starved(v: Volume, ts: seq<Tree>, used: set<nat>, block: nat) {
    v.bs >= 4 && Scarce(v.bitmap.first, v.bitmap.nzones, used, Missing(ts, PathOf(block, v.bs / 4)))
  }

  /** The block number is below the size limit. */
  predicate BelowLimit(v: Volume, block: int) {
    0 <= block && block * v.bs < v.maxBytes
  }

  /** get_block: look a block up, and map it to a new zone when it is a hole and `create` is set.  After
      Wild nothing is said about the state. */
  method GetBlock(v: Volume, inode: Inode, block: int, create: bool) returns (status: Status, zone: nat, isNew: bool)
    requires TreeOk(v, inode)
    modifies v`disk, v`blocks, v`mem, inode`zones, v.bitmap, v.bitmap.bits
    ensures v.bs >= 4 && status != Again && (isNew ==> status == Ok && create)
    ensures status != Wild ==> TreeOk(v, inode) && v.bitmap.warnings == old(v.bitmap.warnings)
    ensures status == Invalid <==> !Accepted(block, v.bs, v.maxBytes)
    // below the limit, and wherever the product of the size test fits, a block is its own target
    ensures BelowLimit(v, block) ==> status != Invalid && !Stray(block, v.bs) && Target(block, v.bs) == block
    ensures block * v.bs < U64 && status != Invalid ==> BelowLimit(v, block)
    // the offsets lead outside a block, if there is such a block or one is made
    ensures status == Wild <==>
      && Accepted(block, v.bs, v.maxBytes) && Stray(block, v.bs)
      && (old(inode.zones[DIRECT + 2]) != 0
          || (create && !Scarce(v.bitmap.first, v.bitmap.nzones, old(v.bitmap.used), 2)))
    // without creation, or when the target is mapped, this is a lookup
    ensures status == Ok && !isNew ==>
      && zone == (if Stray(block, v.bs) then 0 else Mapped(old(Forest(v, inode)), v.bs / 4, Target(block, v.bs)))
      && (zone == 0 ==> !create)
    ensures status == NoSpace <==>
      && create && Accepted(block, v.bs, v.maxBytes)
      && if Stray(block, v.bs) then
           old(inode.zones[DIRECT + 2]) == 0 && Scarce(v.bitmap.first, v.bitmap.nzones, old(v.bitmap.used), 2)
         else
           Starved(v, old(Forest(v, inode)), old(v.bitmap.used), Target(block, v.bs))
    ensures !isNew && status != Wild ==>
      Forest(v, inode) == old(Forest(v, inode)) && v.bitmap.used == old(v.bitmap.used)
    // otherwise exactly one mapping is added, to a zone that was free
    ensures isNew ==>
      && BelowLimit(v, Target(block, v.bs)) && !Stray(block, v.bs)
      && AddsOne(old(Forest(v, inode)), Forest(v, inode), v.bs / 4, Target(block, v.bs), zone,
                 old(v.bitmap.used), v.bitmap.used)
    ensures status != Wild ==>
      Frame(old(v.blocks), v.blocks, ZonesAll(old(Forest(v, inode))) + Unused(v.bitmap.nzones, old(v.bitmap.used)))
  {
    hide Scarce, Missing, AddsOne, PathOf, Target, Stray, Accepted, SepAll, FullAll, WellFormedAll, InSync, WordsOf;
    LimitTarget(v, block);
    var offsets := BlockToPath(block, v.bs, v.maxBytes);
    if |offsets| == 0 {
      return Invalid, 0, false;
    }
    if |offsets| > 1 && !(0 <= offsets[1] < v.bs / 4) {
      status := GetStray(v, inode, create);
      return status, 0, false;
    }
    status, zone, isNew := GetTarget(v, inode, Target(block, v.bs), offsets, create);
  }

  /** get_block with offsets that lead from the last slot of the inode outside the block there. */
  method GetStray(v: Volume, inode: Inode, create: bool) returns (status: Status)
    requires TreeOk(v, inode)
    modifies v`disk, v`blocks, v`mem, v.bitmap, v.bitmap.bits
    ensures status == if inode.zones[DIRECT + 2] != 0 then Wild
      else if !create then Ok
      else if Scarce(v.bitmap.first, v.bitmap.nzones, old(v.bitmap.used), 2) then NoSpace
      else Wild
    ensures status != Wild ==>
      && TreeOk(v, inode) && v.bitmap.warnings == old(v.bitmap.warnings)
      && Forest(v, inode) == old(Forest(v, inode)) && v.bitmap.used == old(v.bitmap.used)
      && Frame(old(v.blocks), v.blocks, ZonesAll(old(Forest(v, inode))) + Unused(v.bitmap.nzones, old(v.bitmap.used)))
  {
    hide Scarce;
    if inode.zones[DIRECT + 2] != 0 {
      return Wild;
    }
    if !create {
      return Ok;
    }
    ghost var d, m, used := v.blocks, v.mem, v.bitmap.used;
    // the number of the second block would be stored outside the first
    var ok, zs := AllocBranch(v, [DIRECT + 2, 0], 2);
    StillVacant(v, inode, d, m, used, [DIRECT + 2, 0, 0, 0], [0]);
    UsedIsWellFormed(v, inode.zones, Root);
    status := if ok then Wild else NoSpace;
  }

  /** The offsets of an accepted block lead to a block below the limit, itself if its product fits. */
  lemma LimitTarget(v: Volume, block: int)
    requires v.Valid()
    ensures BelowLimit(v, block) ==>
      Accepted(block, v.bs, v.maxBytes) && !Stray(block, v.bs) && Target(block, v.bs) == block
    ensures Accepted(block, v.bs, v.maxBytes) && block * v.bs < U64 ==> BelowLimit(v, block)
    ensures Accepted(block, v.bs, v.maxBytes) ==> BelowLimit(v, Target(block, v.bs))
  {
    hide Target, Stray;
    if block >= 0 {
      AcceptedExactly(block, v.bs, v.maxBytes);
      SevenSizes(v.bs);
      TargetIs(block, v.bs, U64 / v.bs);
      if block * v.bs < U64 {
        TargetSame(block, v.bs);
      }
    }
  }

  /** get_block once it has the path of a block. */
  method GetTarget(v: Volume, inode: Inode, ghost block: nat, offsets: seq<nat>, create: bool)
    returns (status: Status, zone: nat, isNew: bool)
    requires TreeOk(v, inode) && BelowLimit(v, block) && offsets == PathOf(block, v.bs / 4)
    requires PathOk(Root, INODE_SLOTS, v.bs / 4, offsets)
    modifies v`disk, v`blocks, v`mem, inode`zones, v.bitmap, v.bitmap.bits
    ensures TreeOk(v, inode) && v.bitmap.warnings == old(v.bitmap.warnings)
    ensures status == NoSpace <==> create && Starved(v, old(Forest(v, inode)), old(v.bitmap.used), block)
    ensures (status == NoSpace || status == Ok) && (isNew ==> status == Ok && create)
    ensures status == Ok && !isNew ==>
      zone == Mapped(old(Forest(v, inode)), v.bs / 4, block) && (zone == 0 ==> !create)
    ensures !isNew ==> Forest(v, inode) == old(Forest(v, inode)) && v.bitmap.used == old(v.bitmap.used)
    ensures isNew ==>
      AddsOne(old(Forest(v, inode)), Forest(v, inode), v.bs / 4, block, zone, old(v.bitmap.used), v.bitmap.used)
    ensures Frame(old(v.blocks), v.blocks,
                  ZonesAll(old(Forest(v, inode))) + Unused(v.bitmap.nzones, old(v.bitmap.used)))
  {
    hide Scarce, Missing, AddsOne, PathOf;
    SlotsInRange(v, inode, 0);
    SlotsInRange(v, inode, 1);
    assert inode.zones[0] != 1 && inode.zones[1] != 1;  // a BUG_ON
    var keys := Lookup(v, inode, offsets);
    zone := keys[|keys| - 1];
    NothingMissing(v, Forest(v, inode), offsets, zone);
    if zone != 0 || !create {
      return Ok, zone, false;
    }
    status, zone := Create(v, inode, block, offsets, keys);
    isNew := status == Ok;
  }

  lemma NothingMissing(v: Volume, ts: seq<Tree>, p: seq<nat>, zone: nat)
    requires p != [] && zone == ZoneOf(At(ts, p))
    ensures zone != 0 ==> forall used :: !Scarce(v.bitmap.first, v.bitmap.nzones, used, Missing(ts, p))
  {
    if zone != 0 {
      MissingNone(ts, p);
    }
  }

  /** A slot of the inode is a hole or a zone that can be allocated. */
  lemma {:induction false} SlotsInRange(v: Volume, inode: Inode, i: nat)
    requires TreeOk(v, inode) && i < INODE_SLOTS
    ensures inode.zones[i] == 0 || 1 < v.bitmap.first <= inode.zones[i] < v.bitmap.nzones
  {
    hide SepAll, FullAll, WellFormedAll, InSync, WordsOf;
    var z, ts := inode.zones[i], Forest(v, inode);
    if z != 0 {
      InAll(ts, i);
      assert ts[i] == Load(v.mem, z, Height(Root, i));
      assert z in Zones(ts[i]);
    }
  }

  method Create(v: Volume, inode: Inode, ghost block: nat, offsets: seq<nat>, keys: seq<nat>)
    returns (status: Status, zone: nat)
    requires TreeOk(v, inode) && block * v.bs < v.maxBytes && offsets == PathOf(block, v.bs / 4)
    requires PathOk(Root, INODE_SLOTS, v.bs / 4, offsets) && Mapped(Forest(v, inode), v.bs / 4, block) == 0
    requires keys != [] && Linked(v.mem, inode.zones, offsets, keys) && keys[|keys| - 1] == 0
    modifies v`disk, v`blocks, v`mem, inode`zones, v.bitmap, v.bitmap.bits
    ensures TreeOk(v, inode) && v.bitmap.warnings == old(v.bitmap.warnings)
    ensures status == if Starved(v, old(Forest(v, inode)), old(v.bitmap.used), block) then NoSpace else Ok
    ensures status == NoSpace ==> Forest(v, inode) == old(Forest(v, inode)) && v.bitmap.used == old(v.bitmap.used)
    ensures status == Ok ==>
      AddsOne(old(Forest(v, inode)), Forest(v, inode), v.bs / 4, block, zone, old(v.bitmap.used), v.bitmap.used)
    ensures Frame(old(v.blocks), v.blocks,
      ZonesAll(old(Forest(v, inode))) + Unused(v.bitmap.nzones, old(v.bitmap.used)))
  {
    hide Scarce, Starved, Graft, SepAll, FullAll, WellFormedAll, InSync, WordsOf, Mapped;
    ghost var ts, n, used := Forest(v, inode), v.bs / 4, v.bitmap.used;
    LimitFits(block, v.bs, v.maxBytes);
    zone := 0;
    var zs;
    StarvedIs(v, inode, block, offsets, keys, used);
    status, zs := Grow(v, inode, offsets, keys);
    if status == Ok {
      zone := zs[|zs| - 1];
      assert zone in zs && zone in Elems(zs);
      GrownMapping(ts, offsets, |keys| - 1, zs, n, block, used);
    }
  }

  lemma StarvedIs(v: Volume, inode: Inode, block: nat, offsets: seq<nat>, keys: seq<nat>, used: set<nat>)
    requires TreeOk(v, inode) && offsets == PathOf(block, v.bs / 4) && PathOk(Root, INODE_SLOTS, v.bs / 4, offsets)
    requires keys != [] && Linked(v.mem, inode.zones, offsets, keys) && keys[|keys| - 1] == 0
    ensures |keys| <= |offsets| && (Starved(v, Forest(v, inode), used, block) <==>
      Scarce(v.bitmap.first, v.bitmap.nzones, used, |offsets| - |keys| + 1))
  {
    hide Scarce, SepAll, FullAll, WellFormedAll, InSync, WordsOf, HoleAt, Missing, PathOf;
    ChainHole(v.mem, inode.zones, offsets, keys, v.bs / 4);
    MissingBelow(Forest(v, inode), offsets, |keys| - 1);
  }

  /** A chain that stops before the data has met a hole, so the block is not mapped. */
  lemma LookupEnds(ts: seq<Tree>, p: seq<nat>, keys: seq<nat>, n: nat)
    requires p != [] && 1 <= |keys| <= |p|
    requires ZoneOf(At(ts, p[..|keys|])) == keys[|keys| - 1] && (|keys| == |p| || At(ts, p[..|keys|]).Empty?)
    ensures ZoneOf(At(ts, p)) == if |keys| == |p| then keys[|keys| - 1] else 0
  {
    assert p[..|p|] == p;
    if |keys| < |p| && At(ts, p).Node? {
      AtPrefix(ts, p[..|keys|], p);
    }
  }

  lemma GrownMapping(ts: seq<Tree>, p: seq<nat>, k: nat, zs: seq<nat>, n: nat, block: nat, used: set<nat>)
    requires n > 0 && PathOk(Root, INODE_SLOTS, n, p) && HoleAt(ts, p, k) && |zs| == |p| - k
    requires block < Capacity(n) && p == PathOf(block, n) && ZonesAll(ts) <= used && Elems(zs) !! used
    ensures forall b :: 0 <= b < Capacity(n) ==>
      Mapped(Graft(ts, p, k, zs, n), n, b) == if b == block then zs[|zs| - 1] else Mapped(ts, n, b)
    ensures ZonesAll(ts) <= ZonesAll(Graft(ts, p, k, zs, n))
      && ZonesAll(Graft(ts, p, k, zs, n)) - ZonesAll(ts) == Elems(zs)
  {
    GraftKeeps(ts, p, k, zs, n);
    forall b | 0 <= b < Capacity(n)
      ensures Mapped(Graft(ts, p, k, zs, n), n, b) == if b == block then zs[|zs| - 1] else Mapped(ts, n, b)
    {
      var q := PathOf(b, n);
      PathRoundTrip(b, n);
      PathRoundTrip(block, n);
      GraftAt(ts, p, k, zs, n, q);
    }
  }
}
