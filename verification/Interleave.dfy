/**
  Concurrent get_block calls on one inode (itree_common.c), as a state machine.

  Each call walks down its path without holding a lock, allocates a branch for the hole it met, and
  tries to splice it in under the write lock.  One event is one step of one call: reading a slot
  under the read lock, taking one zone from the bitmap, the splice, or giving one zone back.
  Truncation does not run at the same time.
*/
module Interleave {
  import opened Geometry
  import opened Trees

  datatype Call =
    | Walk(path: seq<nat>, keys: seq<nat>, retries: nat)
    | Alloc(path: seq<nat>, keys: seq<nat>, branch: seq<nat>, retries: nat)
    | Undo(path: seq<nat>, rest: seq<nat>, again: bool, retries: nat)
    | Done(path: seq<nat>, zone: nat, retries: nat)

  datatype State = State(mem: Mem, ws: seq<nat>, used: set<nat>, calls: map<nat, Call>)

  datatype Event =
    | Begin(id: nat, path: seq<nat>)
    | Read(id: nat)
    | Take(id: nat, zone: nat)
    | Full(id: nat)
    | Splice(id: nat)
    | Give(id: nat)

  /** Slots per indirect block and the zones of the volume. */
  datatype Geo = Geo(n: nat, zones: set<nat>)

  /** The slots that come after a chain of keys: those of the inode, or of the block last named. */
  function LastWords(s: State, keys: seq<nat>): seq<nat> {
    if keys == [] then s.ws
    else if keys[|keys| - 1] in s.mem then s.mem[keys[|keys| - 1]]
    else []
  }

  /** The chain read so far is still there (verify_chain), and its last block can be read. */
  ghost predicate Intact(s: State, path: seq<nat>, keys: seq<nat>) {
    && |keys| < |path| && path[|keys|] < |LastWords(s, keys)| && 0 !in keys
    && Linked(s.mem, s.ws, path, keys)
  }

  /** What the slot after the last key holds. */
  ghost function Slot(s: State, path: seq<nat>, keys: seq<nat>): nat
    requires Intact(s, path, keys)
  {
    LastWords(s, keys)[path[|keys|]]
  }

  ghost predicate Enabled(g: Geo, s: State, e: Event) {
    match e
    case Begin(id, path) => id !in s.calls && PathOk(Root, INODE_SLOTS, g.n, path)
    case Read(id) => id in s.calls && s.calls[id].Walk?
    case Take(id, z) => id in s.calls && s.calls[id].Alloc? && z in g.zones && z !in s.used
                        && |s.calls[id].branch| < |s.calls[id].path| - |s.calls[id].keys|
    case Full(id) => id in s.calls && s.calls[id].Alloc?
      && |s.calls[id].branch| < |s.calls[id].path| - |s.calls[id].keys|
    case Splice(id) => id in s.calls && s.calls[id].Alloc?
      && |s.calls[id].branch| == |s.calls[id].path| - |s.calls[id].keys| > 0
    case Give(id) => id in s.calls && s.calls[id].Undo?
  }

  ghost function Next(g: Geo, s: State, e: Event): State
    requires Enabled(g, s, e)
  {
    match e
    case Begin(id, path) => s.(calls := s.calls[id := Walk(path, [], 0)])
    case Read(id) => s.(calls := s.calls[id := ReadOne(s, s.calls[id])])
    case Take(id, z) => TakeOne(g, s, id, z)
    case Full(id) =>
      var c := s.calls[id];
      s.(calls := s.calls[id := Undo(c.path, c.branch, false, c.retries)])
    case Splice(id) => SpliceIn(s, id)
    case Give(id) => GiveOne(s, id)
  }

  /** get_branch, one level: start over if the chain has changed. */
  ghost function ReadOne(s: State, c: Call): Call
    requires c.Walk?
  {
    if !Intact(s, c.path, c.keys) then Walk(c.path, [], c.retries)
    else
      var v := Slot(s, c.path, c.keys);
      if v == 0 then Alloc(c.path, c.keys, [], c.retries)
      else if |c.keys| + 1 == |c.path| then Done(c.path, v, c.retries)
      else Walk(c.path, c.keys + [v], c.retries)
  }

  /** alloc_branch, one block: the new zone is stored in the block taken before it. */
  ghost function TakeOne(g: Geo, s: State, id: nat, z: nat): State
    requires id in s.calls && s.calls[id].Alloc? && |s.calls[id].branch| < |s.calls[id].path| - |s.calls[id].keys|
  {
    var c := s.calls[id];
    var k := |c.keys| + |c.branch|;
    var mem := if c.branch == [] || c.path[k] >= g.n then s.mem
               else var ws: seq<nat> := ZeroWords(g.n)[c.path[k] := z]; s.mem[c.branch[|c.branch| - 1] := ws];
    State(mem, s.ws, s.used + {z}, s.calls[id := c.(branch := c.branch + [z])])
  }

  /** splice_branch: store the branch if the chain is intact and the slot vacant, else give it up. */
  ghost function SpliceIn(s: State, id: nat): State
    requires id in s.calls && s.calls[id].Alloc? && s.calls[id].branch != []
  {
    var c := s.calls[id];
    if Intact(s, c.path, c.keys) && Slot(s, c.path, c.keys) == 0 then
      var calls := s.calls[id := Done(c.path, c.branch[|c.branch| - 1], c.retries)];
      if c.keys == [] then
        var ws: seq<nat> := s.ws[c.path[0] := c.branch[0]];
        s.(ws := ws, calls := calls)
      else
        var holder := c.keys[|c.keys| - 1];
        var ws: seq<nat> := LastWords(s, c.keys)[c.path[|c.keys|] := c.branch[0]];
        s.(mem := s.mem[holder := ws], calls := calls)
    else
      s.(calls := s.calls[id := Undo(c.path, c.branch, true, c.retries + 1)])
  }

  ghost function GiveOne(s: State, id: nat): State
    requires id in s.calls && s.calls[id].Undo?
  {
    var c := s.calls[id];
    if c.rest == [] then
      s.(calls := s.calls[id := if c.again then Walk(c.path, [], c.retries) else Done(c.path, 0, c.retries)])
    else
      s.(used := s.used - {c.rest[0]}, calls := s.calls[id := c.(rest := c.rest[1..])])
  }

  // ---------------------------------------------------------------- the invariant

  ghost function Forest(s: State): seq<Tree> {
    LoadAll(s.mem, s.ws, Root)
  }

  /** Zones that a call has taken and not yet spliced in or given back. */
  function Held(c: Call): seq<nat> {
    match c
    case Alloc(_, _, branch, _) => branch
    case Undo(_, rest, _, _) => rest
    case _ => []
  }

  ghost predicate TreeOk(g: Geo, s: State) {
    && g.n > 0 && 0 !in g.zones && |s.ws| == INODE_SLOTS
    && (forall z :: z in g.zones ==> z in s.mem && |s.mem[z]| == g.n)
    && WellFormedAll(s.mem, s.ws, Root, g.n) && SepAll(Forest(s)) && FullAll(Forest(s))
  }

  /** What each call holds. */
  function Holdings(calls: map<nat, Call>): map<nat, seq<nat>> {
    map id | id in calls :: Held(calls[id])
  }

  /** Every zone in use is in the tree or held, once, by exactly one call. */
  ghost predicate Split(zones: set<nat>, tree: set<nat>, used: set<nat>, held: map<nat, seq<nat>>) {
    && used <= zones && tree <= used
    && (forall id :: id in held ==> Distinct(held[id]) && Elems(held[id]) <= used && Elems(held[id]) !! tree)
    && (forall i, j :: i in held && j in held && i != j ==> Elems(held[i]) !! Elems(held[j]))
    && (forall z :: z in used && z !in tree ==> exists id :: id in held && z in Elems(held[id]))
  }

  ghost predicate Owned(g: Geo, s: State) {
    Split(g.zones, ZonesAll(Forest(s)), s.used, Holdings(s.calls))
  }

  /** Taking a free zone. */
  lemma SplitTake(zones: set<nat>, tree: set<nat>, used: set<nat>, held: map<nat, seq<nat>>, id: nat, z: nat)
    requires Split(zones, tree, used, held) && id in held && z in zones && z !in used
    ensures Split(zones, tree, used + {z}, held[id := held[id] + [z]])
  {
    var h := held[id := held[id] + [z]];
    assert Elems(h[id]) == Elems(held[id]) + {z};
    forall y | y in used + {z} && y !in tree
      ensures exists i :: i in h && y in Elems(h[i])
    {
      if y == z {
        assert y in Elems(h[id]);
      } else {
        var i :| i in held && y in Elems(held[i]);
        assert y in Elems(h[i]);
      }
    }
  }

  /** Giving back the first zone of what is left of a branch. */
  lemma SplitGive(zones: set<nat>, tree: set<nat>, used: set<nat>, held: map<nat, seq<nat>>, id: nat)
    requires Split(zones, tree, used, held) && id in held && held[id] != []
    ensures Split(zones, tree, used - {held[id][0]}, held[id := held[id][1..]])
  {
    var z, rest := held[id][0], held[id][1..];
    var h: map<nat, seq<nat>> := held[id := rest];
    assert held[id] == [z] + rest;
    assert Elems(held[id]) == {z} + Elems(rest) && z !in rest;
    forall y | y in used - {z} && y !in tree
      ensures exists i :: i in h && y in Elems(h[i])
    {
      var i :| i in held && y in Elems(held[i]);
      assert y in Elems(h[i]);
    }
    assert forall i :: i in held && i != id ==> z !in Elems(held[i]);
  }

  /** Splicing a branch: what the call held becomes part of the tree. */
  lemma SplitSplice(zones: set<nat>, tree: set<nat>, used: set<nat>, held: map<nat, seq<nat>>, id: nat)
    requires Split(zones, tree, used, held) && id in held
    ensures Split(zones, tree + Elems(held[id]), used, held[id := []])
  {
    var h: map<nat, seq<nat>> := held[id := []];
    forall y | y in used && y !in tree + Elems(held[id])
      ensures exists i :: i in h && y in Elems(h[i])
    {
      var i :| i in held && y in Elems(held[i]);
      assert y in Elems(h[i]);
    }
  }

  /** A call that holds nothing changes nothing by coming or going. */
  lemma SplitNone(zones: set<nat>, tree: set<nat>, used: set<nat>, held: map<nat, seq<nat>>, id: nat)
    requires Split(zones, tree, used, held) && (id in held ==> held[id] == [])
    ensures Split(zones, tree, used, held[id := []])
  {
    var h: map<nat, seq<nat>> := held[id := []];
    forall y | y in used && y !in tree
      ensures exists i :: i in h && y in Elems(h[i])
    {
      var i :| i in held && y in Elems(held[i]);
      assert y in Elems(h[i]);
    }
  }

  /** At least `d` levels of the path are filled. */
  ghost predicate Filled(ts: seq<Tree>, path: seq<nat>, d: nat) {
    d <= |path| && (d > 0 ==> At(ts, path[..d]).Node?)
  }

  ghost predicate CallOk(g: Geo, s: State, c: Call) {
    && PathOk(Root, INODE_SLOTS, g.n, c.path) && Filled(Forest(s), c.path, c.retries)
    && match c
       case Walk(path, keys, _) => Intact(s, path, keys)
       case Alloc(path, keys, branch, retries) =>
         Intact(s, path, keys) && |branch| <= |path| - |keys| && retries <= |keys|
         && BranchSteps(s.mem, path[|keys| + 1..], branch, g.n)
       case Undo(_, _, _, _) => true
       case Done(path, zone, _) => zone == 0 || ZoneOf(At(Forest(s), path)) == zone
  }

  ghost predicate Inv(g: Geo, s: State) {
    TreeOk(g, s) && Owned(g, s) && forall id :: id in s.calls ==> CallOk(g, s, s.calls[id])
  }

  // ---------------------------------------------------------------- steps that leave the tree alone

  /** A chain of keys and the tree it was read from. */
  lemma {:induction false} IntactFacts(g: Geo, s: State, path: seq<nat>, keys: seq<nat>)
    requires TreeOk(g, s) && PathOk(Root, INODE_SLOTS, g.n, path) && Intact(s, path, keys)
    ensures |keys| < |path| && forall l :: 0 <= l < |keys| ==> keys[l] in ZonesAll(Forest(s))
    ensures keys != [] ==> |s.mem[keys[|keys| - 1]]| == g.n && ZoneOf(At(Forest(s), path[..|keys|])) == keys[|keys| - 1]
    ensures At(Forest(s), path[..|keys| + 1]).Node? <==> Slot(s, path, keys) != 0
    ensures Slot(s, path, keys) == ZoneOf(At(Forest(s), path[..|keys| + 1]))
    ensures Slot(s, path, keys) == 0 ==> HoleAt(Forest(s), path, |keys|)
  {
    hide SepAll, FullAll, WellFormedAll, HoleAt, At, LoadAll;
    var v := Slot(s, path, keys);
    var ks := keys + [v];
    LinkedOneMore(s, path, keys);
    forall l | 0 <= l < |keys|
      ensures keys[l] in ZonesAll(Forest(s))
    {
      ChainOwned(s.mem, s.ws, path, keys, l, g.n);
    }
    ChainAt(s.mem, s.ws, path, ks, |keys|, g.n);
    if keys != [] {
      ChainAt(s.mem, s.ws, path, keys, |keys| - 1, g.n);
      ChainOwned(s.mem, s.ws, path, keys, |keys| - 1, g.n);
    }
    if v == 0 {
      ChainHole(s.mem, s.ws, path, ks, g.n);
    }
  }

  /** A chain together with what its next slot holds. */
  lemma {:induction false} LinkedOneMore(s: State, path: seq<nat>, keys: seq<nat>)
    requires Intact(s, path, keys)
    ensures Linked(s.mem, s.ws, path, keys + [Slot(s, path, keys)])
  {
    var ks := keys + [Slot(s, path, keys)];
    forall l | 0 <= l < |ks|
      ensures path[l] < |LevelWords(s.mem, s.ws, ks, l)| && ks[l] == LevelWords(s.mem, s.ws, ks, l)[path[l]]
    {
      assert LevelWords(s.mem, s.ws, ks, l) == LevelWords(s.mem, s.ws, keys, l);
    }
  }

  lemma CallOkSame(g: Geo, s: State, s': State, c: Call)
    requires s'.mem == s.mem && s'.ws == s.ws && CallOk(g, s, c)
    ensures CallOk(g, s', c)
  {
    if c.Walk? || c.Alloc? {
      assert LastWords(s', c.keys) == LastWords(s, c.keys);
    }
  }

  /** The other calls are as they were. */
  lemma {:induction false} CallsSame(g: Geo, s: State, s': State, id: nat, c: Call)
    requires (forall i :: i in s.calls ==> CallOk(g, s, s.calls[i])) && CallOk(g, s, c)
    requires s'.mem == s.mem && s'.ws == s.ws && s'.calls == s.calls[id := c]
    ensures forall i :: i in s'.calls ==> CallOk(g, s', s'.calls[i])
  {
    hide CallOk;
    forall i | i in s'.calls
      ensures CallOk(g, s', s'.calls[i])
    {
      CallOkSame(g, s, s', s'.calls[i]);
    }
  }

  /** A step that changes only what one call knows, not what it holds. */
  lemma {:induction false} QuietStep(g: Geo, s: State, id: nat, c: Call)
    requires Inv(g, s) && CallOk(g, s, c)
    requires Held(c) == if id in s.calls then Held(s.calls[id]) else []
    ensures Inv(g, s.(calls := s.calls[id := c]))
  {
    hide CallOk, Split;
    var s' := s.(calls := s.calls[id := c]);
    CallsSame(g, s, s', id, c);
    if id !in s.calls {
      SplitNone(g.zones, ZonesAll(Forest(s)), s.used, Holdings(s.calls), id);
      assert Holdings(s'.calls) == Holdings(s.calls)[id := []];
    } else {
      assert Holdings(s'.calls) == Holdings(s.calls);
    }
  }

  /** No more levels are filled than have been seen filled before a hole. */
  lemma {:induction false} FilledBelowHole(ts: seq<Tree>, path: seq<nat>, d: nat, k: nat)
    requires k < |path| && Filled(ts, path, d) && At(ts, path[..k + 1]).Empty?
    ensures d <= k
  {
    if d > k {
      assert path[..k + 1] <= path[..d];
      AtPrefix(ts, path[..k + 1], path[..d]);
    }
  }

  lemma {:induction false} ReadStep(g: Geo, s: State, id: nat)
    requires Inv(g, s) && Enabled(g, s, Read(id))
    ensures Inv(g, Next(g, s, Read(id)))
  {
    ReadCall(g, s, s.calls[id]);
    QuietStep(g, s, id, ReadOne(s, s.calls[id]));
  }

  lemma {:induction false} ReadCall(g: Geo, s: State, c: Call)
    requires TreeOk(g, s) && CallOk(g, s, c) && c.Walk?
    ensures CallOk(g, s, ReadOne(s, c)) && Held(ReadOne(s, c)) == []
  {
    hide TreeOk, Intact;
    IntactFacts(g, s, c.path, c.keys);
    var v := Slot(s, c.path, c.keys);
    var k := |c.keys|;
    if v == 0 {
      FilledBelowHole(Forest(s), c.path, c.retries, k);
    } else if k + 1 == |c.path| {
      assert c.path[..k + 1] == c.path;
    } else {
      IntactLonger(g, s, c.path, c.keys, v);
    }
  }

  lemma {:induction false} IntactLonger(g: Geo, s: State, path: seq<nat>, keys: seq<nat>, v: nat)
    requires TreeOk(g, s) && PathOk(Root, INODE_SLOTS, g.n, path) && Intact(s, path, keys)
    requires v == Slot(s, path, keys) != 0 && |keys| + 1 < |path|
    ensures Intact(s, path, keys + [v])
  {
    var ks := keys + [v];
    forall l | 0 <= l < |keys|
      ensures keys[l] in s.mem
    {
      ChainOwned(s.mem, s.ws, path, keys, l, g.n);
    }
    LinkedOneMore(s, path, keys);
    ChainOwned(s.mem, s.ws, path, ks, |keys|, g.n);
  }

  lemma {:induction false} BeginStep(g: Geo, s: State, id: nat, path: seq<nat>)
    requires Inv(g, s) && Enabled(g, s, Begin(id, path))
    ensures Inv(g, Next(g, s, Begin(id, path)))
  {
    QuietStep(g, s, id, Walk(path, [], 0));
  }

  lemma {:induction false} GiveStep(g: Geo, s: State, id: nat)
    requires Inv(g, s) && Enabled(g, s, Give(id))
    ensures Inv(g, Next(g, s, Give(id)))
  {
    hide CallOk, Split;
    var c := s.calls[id];
    UndoOk(g, s, c);
    if c.rest == [] {
      QuietStep(g, s, id, if c.again then Walk(c.path, [], c.retries) else Done(c.path, 0, c.retries));
    } else {
      var s' := GiveOne(s, id);
      var c' := c.(rest := c.rest[1..]);
      CallsSame(g, s, s', id, c');
      SplitGive(g.zones, ZonesAll(Forest(s)), s.used, Holdings(s.calls), id);
      assert Holdings(s'.calls) == Holdings(s.calls)[id := c.rest[1..]];
    }
  }

  lemma {:induction false} UndoOk(g: Geo, s: State, c: Call)
    requires TreeOk(g, s) && CallOk(g, s, c) && c.Undo?
    ensures CallOk(g, s, Walk(c.path, [], c.retries)) && CallOk(g, s, Done(c.path, 0, c.retries))
    ensures c.rest != [] ==> CallOk(g, s, c.(rest := c.rest[1..]))
  {
    assert Linked(s.mem, s.ws, c.path, []);
  }

  lemma {:induction false} FullStep(g: Geo, s: State, id: nat)
    requires Inv(g, s) && Enabled(g, s, Full(id))
    ensures Inv(g, Next(g, s, Full(id)))
  {
    var c := s.calls[id];
    QuietStep(g, s, id, Undo(c.path, c.branch, false, c.retries));
  }

  // ---------------------------------------------------------------- taking a zone

  /** A write to a block outside the tree and outside its own branch does not concern a call. */
  lemma {:induction false} CallOkElsewhere(g: Geo, s: State, s': State, c: Call, y: nat)
    requires TreeOk(g, s) && CallOk(g, s, c) && s'.ws == s.ws && s'.mem.Keys == s.mem.Keys
    requires SameOn(s.mem, s'.mem, s.mem.Keys - {y}) && y !in ZonesAll(Forest(s)) && y !in Held(c)
      && Forest(s') == Forest(s)
    ensures CallOk(g, s', c)
  {
    if c.Walk? || c.Alloc? {
      IntactElsewhere(g, s, s', c.path, c.keys, y);
    }
    if c.Alloc? {
      BranchElsewhere(s.mem, s'.mem, c.path[|c.keys| + 1..], c.branch, g.n, y);
    }
  }

  lemma {:induction false} IntactElsewhere(g: Geo, s: State, s': State, path: seq<nat>, keys: seq<nat>, y: nat)
    requires TreeOk(g, s) && PathOk(Root, INODE_SLOTS, g.n, path) && Intact(s, path, keys)
    requires s'.ws == s.ws && s'.mem.Keys == s.mem.Keys && SameOn(s.mem, s'.mem, s.mem.Keys - {y})
      && y !in ZonesAll(Forest(s))
    ensures Intact(s', path, keys)
  {
    IntactFacts(g, s, path, keys);
    LinkedFrame(s.mem, s'.mem, s.ws, path, keys, g.n);
  }

  lemma BranchElsewhere(m: Mem, m': Mem, p: seq<nat>, zs: seq<nat>, n: nat, y: nat)
    requires |zs| <= |p| + 1 && BranchSteps(m, p, zs, n) && y !in zs && m'.Keys == m.Keys && SameOn(m, m', m.Keys - {y})
    ensures BranchSteps(m', p, zs, n)
  {
    forall j | 0 <= j < |zs| - 1
      ensures zs[j] in m' && p[j] < n && m'[zs[j]] == ZeroWords(n)[p[j] := zs[j + 1]]
    {
      assert zs[j] in m && zs[j] != y;
    }
  }

  /** A tree whose blocks have not been written is still sound. */
  lemma {:induction false} TreeElsewhere(g: Geo, s: State, s': State, y: nat)
    requires TreeOk(g, s) && s'.ws == s.ws && s'.mem.Keys == s.mem.Keys && SameOn(s.mem, s'.mem, s.mem.Keys - {y})
    requires y !in ZonesAll(Forest(s)) && (y in s'.mem ==> |s'.mem[y]| == g.n)
    ensures TreeOk(g, s') && Forest(s') == Forest(s)
  {
    ForestFrame(s.mem, s'.mem, s.ws, Root);
    var ts := Forest(s);
    forall i | 0 <= i < |s.ws|
      ensures WellFormed(s'.mem, s.ws[i], Height(Root, i), g.n)
    {
      InAll(ts, i);
      WellFormedFrame(s.mem, s'.mem, s.ws[i], Height(Root, i), g.n);
    }
  }

  lemma {:induction false} TakeStep(g: Geo, s: State, id: nat, z: nat)
    requires Inv(g, s) && Enabled(g, s, Take(id, z))
    ensures Inv(g, Next(g, s, Take(id, z)))
  {
    hide CallOk, Split, TreeOk;
    var c := s.calls[id];
    var s' := TakeOne(g, s, id, z);
    assert Holdings(s.calls)[id] == c.branch;
    SplitTake(g.zones, ZonesAll(Forest(s)), s.used, Holdings(s.calls), id, z);
    assert Holdings(s'.calls) == Holdings(s.calls)[id := c.branch + [z]];
    TakeDevice(g, s, id, z);
    var y := if c.branch == [] then z else c.branch[|c.branch| - 1];
    TreeElsewhere(g, s, s', y);
    SelfFacts(g, s, id, z);
    TakeCall(g, s, s', c, z);
    forall i | i in s'.calls
      ensures CallOk(g, s', s'.calls[i])
    {
      if i != id {
        NotHeld(g, s, id, i, z);
        CallOkElsewhere(g, s, s', s.calls[i], y);
      }
    }
  }

  /** A zone that is free, or held by one call, is not held by another. */
  lemma NotHeld(g: Geo, s: State, id: nat, i: nat, z: nat)
    requires Owned(g, s) && id in s.calls && i in s.calls && i != id && s.calls[id].Alloc? && z !in s.used
    ensures var b := s.calls[id].branch; (if b == [] then z else b[|b| - 1]) !in Held(s.calls[i])
  {
    var h := Holdings(s.calls);
    var b := s.calls[id].branch;
    assert h[id] == b && h[i] == Held(s.calls[i]);
    if b != [] {
      assert b[|b| - 1] in Elems(h[id]);
    }
    assert forall y :: y in h[i] ==> y in Elems(h[i]);
  }

  lemma SelfFacts(g: Geo, s: State, id: nat, z: nat)
    requires TreeOk(g, s) && Owned(g, s) && id in s.calls && z in g.zones
    ensures Distinct(Held(s.calls[id])) && z != 0
  {
    assert Holdings(s.calls)[id] == Held(s.calls[id]);
  }

  /** What taking a zone does to the device. */
  lemma {:induction false} TakeDevice(g: Geo, s: State, id: nat, z: nat)
    requires Inv(g, s) && Enabled(g, s, Take(id, z))
    ensures var c, s' := s.calls[id], TakeOne(g, s, id, z);
      var y := if c.branch == [] then z else c.branch[|c.branch| - 1];
      && s'.mem.Keys == s.mem.Keys && SameOn(s.mem, s'.mem, s.mem.Keys - {y}) && (y in s'.mem ==> |s'.mem[y]| == g.n)
      && y !in ZonesAll(Forest(s))
      && (c.branch != [] ==>
         c.path[|c.keys| + |c.branch|] < g.n && y in s'.mem
           && s'.mem[y] == ZeroWords(g.n)[c.path[|c.keys| + |c.branch|] := z])
  {
    hide BranchSteps, Intact, Linked, WellFormedAll, SepAll, FullAll, Filled;
    var c, s' := s.calls[id], TakeOne(g, s, id, z);
    var y := if c.branch == [] then z else c.branch[|c.branch| - 1];
    var h := Holdings(s.calls);
    assert h[id] == c.branch;
    assert CallOk(g, s, c);
    if c.branch != [] {
      assert y in Elems(h[id]) && y in g.zones;
    }
  }

  /** The branch of the call itself has grown. */
  lemma {:induction false} TakeCall(g: Geo, s: State, s': State, c: Call, z: nat)
    requires TreeOk(g, s) && CallOk(g, s, c) && c.Alloc? && |c.branch| < |c.path| - |c.keys| && Distinct(c.branch)
      && z != 0
    requires s'.ws == s.ws && s'.mem.Keys == s.mem.Keys && Forest(s') == Forest(s)
    requires var y := if c.branch == [] then z else c.branch[|c.branch| - 1];
      && y !in ZonesAll(Forest(s)) && SameOn(s.mem, s'.mem, s.mem.Keys - {y})
      && (c.branch != [] ==>
         c.path[|c.keys| + |c.branch|] < g.n && y in s'.mem
           && s'.mem[y] == ZeroWords(g.n)[c.path[|c.keys| + |c.branch|] := z])
    ensures CallOk(g, s', c.(branch := c.branch + [z]))
  {
    hide TreeOk, Linked, LastWords, SepAll, LoadAll, At;
    var y := if c.branch == [] then z else c.branch[|c.branch| - 1];
    var p := c.path[|c.keys| + 1..];
    IntactElsewhere(g, s, s', c.path, c.keys, y);
    if c.branch != [] {
      assert c.path[|c.keys| + |c.branch|] == p[|c.branch| - 1];
      BranchExtended(s.mem, s'.mem, p, c.branch, z, g.n);
    }
  }

  // ---------------------------------------------------------------- splicing

  /** A lost splice means that the path has grown one level deeper than the call had seen. */
  lemma {:induction false} SpliceLost(g: Geo, s: State, c: Call)
    requires TreeOk(g, s) && CallOk(g, s, c) && c.Alloc? && Slot(s, c.path, c.keys) != 0
    ensures CallOk(g, s, Undo(c.path, c.branch, true, c.retries + 1))
  {
    IntactFacts(g, s, c.path, c.keys);
    assert c.path[..c.retries + 1] <= c.path[..|c.keys| + 1];
    AtPrefix(Forest(s), c.path[..c.retries + 1], c.path[..|c.keys| + 1]);
  }

  /** One slot, which was vacant, has been written. */
  ghost predicate Stored(s: State, s': State, path: seq<nat>, keys: seq<nat>, v: nat)
    requires Intact(s, path, keys)
  {
    && s'.mem.Keys == s.mem.Keys && Slot(s, path, keys) == 0
    && LastWords(s', keys) == LastWords(s, keys)[path[|keys|] := v]
    && (if keys == [] then s'.mem == s.mem
        else s'.ws == s.ws && SameOn(s.mem, s'.mem, s.mem.Keys - {keys[|keys| - 1]}))
  }

  lemma {:induction false} SpliceTree(g: Geo, s: State, s': State, path: seq<nat>, keys: seq<nat>, zs: seq<nat>)
    requires TreeOk(g, s) && PathOk(Root, INODE_SLOTS, g.n, path) && Intact(s, path, keys) && |zs| == |path| - |keys|
    requires BranchSteps(s.mem, path[|keys| + 1..], zs, g.n) && Distinct(zs) && Elems(zs) !! ZonesAll(Forest(s))
      && Elems(zs) <= g.zones
    requires ZonesAll(Forest(s)) <= g.zones && Stored(s, s', path, keys, zs[0])
    ensures HoleAt(Forest(s), path, |keys|) && Forest(s') == Graft(Forest(s), path, |keys|, zs, g.n) && TreeOk(g, s')
  {
    hide SepAll, FullAll, WellFormedAll, Graft, HoleAt, At, BranchSteps, LoadAll, BranchIn;
    var k, p := |keys|, path[|keys| + 1..];
    IntactFacts(g, s, path, keys);
    BranchBuilt(s.mem, p, zs, g.n);
    BranchFrame(s.mem, s'.mem, p, zs, g.n);
    assert SlotSet(s.mem, s'.mem, s.ws, s'.ws, Forest(s), path, k, zs[0]);
    GraftLoad(s.mem, s'.mem, s.ws, s'.ws, Root, path, k, zs, g.n);
    GraftKeeps(Forest(s), path, k, zs, g.n);
    assert forall z :: z in g.zones ==> z in s'.mem && |s'.mem[z]| == g.n;
    ForestWellFormed(s'.mem, s'.ws, Root, g.n);
  }

  /** A slot that was vacant is not part of any chain. */
  lemma {:induction false} IntactStored(s: State, s': State, path: seq<nat>, keys: seq<nat>, v: nat, path': seq<nat>,
                                        keys': seq<nat>)
    requires Intact(s, path, keys) && Stored(s, s', path, keys, v) && Intact(s, path', keys')
    ensures Intact(s', path', keys')
  {
    forall l | 0 <= l < |keys'|
      ensures path'[l] < |LevelWords(s'.mem, s'.ws, keys', l)|
        && keys'[l] == LevelWords(s'.mem, s'.ws, keys', l)[path'[l]]
    {
      KeyStays(s, s', path, keys, v, path', keys', l);
    }
  }

  lemma {:induction false} KeyStays(s: State, s': State, path: seq<nat>, keys: seq<nat>, v: nat, path': seq<nat>,
                                    keys': seq<nat>, l: nat)
    requires Intact(s, path, keys) && Stored(s, s', path, keys, v) && Intact(s, path', keys') && l < |keys'|
    ensures l > 0 ==> keys'[l - 1] in s.mem && keys'[l - 1] in s'.mem
    ensures path'[l] < |LevelWords(s'.mem, s'.ws, keys', l)|
      && keys'[l] == LevelWords(s'.mem, s'.ws, keys', l)[path'[l]]
  {
    assert keys'[l] in keys' && keys'[l] != 0;
    assert path'[l] < |LevelWords(s.mem, s.ws, keys', l)| && keys'[l] == LevelWords(s.mem, s.ws, keys', l)[path'[l]];
    if l > 0 {
      assert keys'[l - 1] in s.mem;
      if keys != [] && keys'[l - 1] == keys[|keys| - 1] {
        assert s'.mem[keys'[l - 1]] == s.mem[keys'[l - 1]][path[|keys|] := v];
      } else {
        assert s'.mem[keys'[l - 1]] == s.mem[keys'[l - 1]];
      }
    }
  }

  lemma {:induction false} CallStored(g: Geo, s: State, s': State, path: seq<nat>, keys: seq<nat>, zs: seq<nat>,
                                      c: Call)
    requires TreeOk(g, s) && PathOk(Root, INODE_SLOTS, g.n, path) && Intact(s, path, keys) && |zs| == |path| - |keys|
    requires Stored(s, s', path, keys, zs[0]) && HoleAt(Forest(s), path, |keys|)
    requires Forest(s') == Graft(Forest(s), path, |keys|, zs, g.n)
    requires CallOk(g, s, c) && Elems(Held(c)) !! ZonesAll(Forest(s))
    ensures CallOk(g, s', c)
  {
    hide SepAll, FullAll, WellFormedAll, Graft, HoleAt, At, BranchSteps, LoadAll, TreeOk, Linked, LastWords, Stored;
    var ts, k := Forest(s), |keys|;
    if c.retries > 0 {
      GraftStable(ts, path, k, zs, g.n, c.path[..c.retries]);
    }
    if c.Walk? || c.Alloc? {
      IntactStored(s, s', path, keys, zs[0], c.path, c.keys);
    }
    if c.Alloc? {
      BranchStored(g, s, s', path, keys, zs[0], c);
    }
    if c.Done? && c.zone != 0 {
      GraftStable(ts, path, k, zs, g.n, c.path);
    }
  }

  /** The branch that a call holds is not where the store goes. */
  lemma {:induction false} BranchStored(g: Geo, s: State, s': State, path: seq<nat>, keys: seq<nat>, v: nat, c: Call)
    requires TreeOk(g, s) && PathOk(Root, INODE_SLOTS, g.n, path) && Intact(s, path, keys)
      && Stored(s, s', path, keys, v)
    requires c.Alloc? && |c.branch| <= |c.path| - |c.keys| && |c.keys| < |c.path|
    requires BranchSteps(s.mem, c.path[|c.keys| + 1..], c.branch, g.n) && Elems(Held(c)) !! ZonesAll(Forest(s))
    ensures BranchSteps(s'.mem, c.path[|c.keys| + 1..], c.branch, g.n)
  {
    hide SepAll, FullAll, WellFormedAll, At, LoadAll, TreeOk, BranchSteps, Linked;
    if keys != [] {
      IntactFacts(g, s, path, keys);
      var holder := keys[|keys| - 1];
      assert holder !in c.branch by { assert holder in c.branch ==> holder in Elems(Held(c)); }
      BranchElsewhere(s.mem, s'.mem, c.path[|c.keys| + 1..], c.branch, g.n, holder);
    }
  }

  lemma {:induction false} SpliceStep(g: Geo, s: State, id: nat)
    requires Inv(g, s) && Enabled(g, s, Splice(id))
    ensures Inv(g, Next(g, s, Splice(id)))
  {
    hide TreeOk, Split, LoadAll, BranchSteps;
    var c := s.calls[id];
    if Slot(s, c.path, c.keys) != 0 {
      SpliceLost(g, s, c);
      QuietStep(g, s, id, Undo(c.path, c.branch, true, c.retries + 1));
    } else {
      SpliceWon(g, s, id);
    }
  }

  lemma {:induction false} SpliceWon(g: Geo, s: State, id: nat)
    requires Inv(g, s) && Enabled(g, s, Splice(id)) && Intact(s, s.calls[id].path, s.calls[id].keys)
    requires Slot(s, s.calls[id].path, s.calls[id].keys) == 0
    ensures Inv(g, SpliceIn(s, id))
  {
    hide CallOk, Split, TreeOk, Intact, SpliceIn, Stored;
    var c := s.calls[id];
    SpliceResult(g, s, id);
    var ts, h := Forest(s), Holdings(s.calls);
    GraftKeeps(ts, c.path, |c.keys|, c.branch, g.n);
    SplitSplice(g.zones, ZonesAll(ts), s.used, h, id);
    var s' := SpliceIn(s, id);
    forall i | i in s'.calls
      ensures CallOk(g, s', s'.calls[i])
    {
      SpliceCall(g, s, id, i);
    }
  }

  /** What a won splice stores. */
  lemma {:induction false} SpliceStores(s: State, id: nat)
    requires id in s.calls && s.calls[id].Alloc? && s.calls[id].branch != []
      && Intact(s, s.calls[id].path, s.calls[id].keys)
    requires Slot(s, s.calls[id].path, s.calls[id].keys) == 0
    ensures var c, s' := s.calls[id], SpliceIn(s, id);
      && Stored(s, s', c.path, c.keys, c.branch[0])
      && s'.used == s.used && s'.calls == s.calls[id := Done(c.path, c.branch[|c.branch| - 1], c.retries)]
      && Holdings(s'.calls) == Holdings(s.calls)[id := []] && Holdings(s.calls)[id] == c.branch
  {
    hide Linked;
    var c, s' := s.calls[id], SpliceIn(s, id);
    assert Holdings(s'.calls) == Holdings(s.calls)[id := []];
  }

  /** What a won splice does to the tree and to what is held. */
  lemma {:induction false} SpliceResult(g: Geo, s: State, id: nat)
    requires Inv(g, s) && Enabled(g, s, Splice(id)) && Intact(s, s.calls[id].path, s.calls[id].keys)
    requires Slot(s, s.calls[id].path, s.calls[id].keys) == 0
    ensures var c, s' := s.calls[id], SpliceIn(s, id);
      && PathOk(Root, INODE_SLOTS, g.n, c.path) && Stored(s, s', c.path, c.keys, c.branch[0])
         && HoleAt(Forest(s), c.path, |c.keys|)
      && Forest(s') == Graft(Forest(s), c.path, |c.keys|, c.branch, g.n) && TreeOk(g, s')
      && s'.used == s.used && s'.calls == s.calls[id := Done(c.path, c.branch[|c.branch| - 1], c.retries)]
      && Holdings(s'.calls) == Holdings(s.calls)[id := []] && Holdings(s.calls)[id] == c.branch
  {
    hide Stored, SpliceIn, Intact, TreeOk, BranchSteps;
    var c, s' := s.calls[id], SpliceIn(s, id);
    SpliceStores(s, id);
    assert CallOk(g, s, c);
    SpliceTree(g, s, s', c.path, c.keys, c.branch);
  }

  lemma {:induction false} SpliceCall(g: Geo, s: State, id: nat, i: nat)
    requires Inv(g, s) && Enabled(g, s, Splice(id)) && Intact(s, s.calls[id].path, s.calls[id].keys)
    requires Slot(s, s.calls[id].path, s.calls[id].keys) == 0 && i in s.calls
    ensures CallOk(g, SpliceIn(s, id), SpliceIn(s, id).calls[i])
  {
    hide Split, TreeOk, Intact, SpliceIn, Stored;
    var c, s' := s.calls[id], SpliceIn(s, id);
    SpliceResult(g, s, id);
    HeldApart(g, s, i);
    CallStored(g, s, s', c.path, c.keys, c.branch, s.calls[i]);
    if i == id {
      GraftAt(Forest(s), c.path, |c.keys|, c.branch, g.n, c.path);
    }
  }

  lemma HeldApart(g: Geo, s: State, i: nat)
    requires Owned(g, s) && i in s.calls
    ensures Elems(Held(s.calls[i])) !! ZonesAll(Forest(s))
  {
    assert Holdings(s.calls)[i] == Held(s.calls[i]);
  }

  // ---------------------------------------------------------------- runs

  lemma {:induction false} StepKeepsInv(g: Geo, s: State, e: Event)
    requires Inv(g, s) && Enabled(g, s, e)
    ensures Inv(g, Next(g, s, e))
  {
    hide Inv;
    match e
    case Begin(id, path) => BeginStep(g, s, id, path);
    case Read(id) => ReadStep(g, s, id);
    case Take(id, z) => TakeStep(g, s, id, z);
    case Full(id) => FullStep(g, s, id);
    case Splice(id) => SpliceStep(g, s, id);
    case Give(id) => GiveStep(g, s, id);
  }

  /** `t` is reached from `s` by the events `es`. */
  ghost predicate Run(g: Geo, s: State, es: seq<Event>, t: State)
    decreases |es|
  {
    if es == [] then t == s else Enabled(g, s, es[0]) && Run(g, Next(g, s, es[0]), es[1..], t)
  }

  /** A sound tree that owns every zone in use, and no call under way. */
  ghost predicate Init(g: Geo, s: State) {
    TreeOk(g, s) && s.calls == map[] && s.used == ZonesAll(Forest(s)) && s.used <= g.zones
  }

  lemma {:induction false} RunKeepsInv(g: Geo, s: State, es: seq<Event>, t: State)
    requires Inv(g, s) && Run(g, s, es, t)
    ensures Inv(g, t)
    decreases |es|
  {
    hide Inv;
    if es != [] {
      StepKeepsInv(g, s, es[0]);
      RunKeepsInv(g, Next(g, s, es[0]), es[1..], t);
    }
  }

  /** Whatever the interleaving: every zone in use is in the tree exactly once or held by exactly one
      call; no chain that a call has read is ever invalidated; no call is sent back more often than
      its path is long; and a call that has finished has found the zone its block is mapped to. */
  lemma {:induction false} EveryRunIsSafe(g: Geo, s: State, es: seq<Event>, t: State)
    requires Init(g, s) && Run(g, s, es, t)
    ensures SepAll(Forest(t)) && Split(g.zones, ZonesAll(Forest(t)), t.used, Holdings(t.calls))
    ensures forall id :: id in t.calls ==> t.calls[id].retries <= |t.calls[id].path| <= DEPTH
    ensures forall id :: id in t.calls && (t.calls[id].Walk? || t.calls[id].Alloc?) ==>
      Intact(t, t.calls[id].path, t.calls[id].keys)
    ensures forall id :: id in t.calls ==> Begin(id, t.calls[id].path) in es
    // a call fails exactly when it has met a full volume, and otherwise has the zone of its block
    ensures forall id :: id in t.calls && t.calls[id].Done? ==>
      if Full(id) in es then t.calls[id].zone == 0
      else t.calls[id].zone != 0 && t.calls[id].path != []
           && ZoneOf(At(Forest(t), t.calls[id].path)) == t.calls[id].zone
  {
    InitInv(g, s);
    RunKeepsInv(g, s, es, t);
    forall id | id in t.calls
      ensures CallOk(g, t, t.calls[id]) && |t.calls[id].path| <= DEPTH && Begin(id, t.calls[id].path) in es
      ensures GaveUp(t.calls[id]) <==> Full(id) in es
    {
      assert CallOk(g, t, t.calls[id]);
      RunOutcome(g, s, es, t, id);
    }
  }

  /** A call that has given up, or is about to. */
  predicate GaveUp(c: Call) {
    (c.Undo? && !c.again) || (c.Done? && c.zone == 0)
  }

  /** One step makes a call give up exactly when it finds the volume full. */
  lemma {:induction false} StepOutcome(g: Geo, s: State, e: Event, id: nat)
    requires Inv(g, s) && Enabled(g, s, e)
    ensures var t := Next(g, s, e);
      && (id in s.calls ==> id in t.calls && t.calls[id].path == s.calls[id].path)
      && (id in t.calls && id !in s.calls ==> e == Begin(id, t.calls[id].path))
      && (e == Full(id) ==> id in s.calls)
      && (id in t.calls ==> (GaveUp(t.calls[id]) <==> (id in s.calls && GaveUp(s.calls[id])) || e == Full(id)))
  {
    hide TreeOk, Intact, Slot, BranchSteps, Split;
    if e.Splice? {
      var b := s.calls[e.id].branch;
      HeldNotZero(g, s, e.id);
      assert b[|b| - 1] in Held(s.calls[e.id]);
    }
  }

  /** Zone 0 is not held. */
  lemma HeldNotZero(g: Geo, s: State, id: nat)
    requires Inv(g, s) && id in s.calls
    ensures 0 !in Held(s.calls[id])
  {
    hide CallOk, WellFormedAll, SepAll, FullAll;
    var h := Holdings(s.calls);
    assert h[id] == Held(s.calls[id]);
    assert forall z :: z in Held(s.calls[id]) ==> z in Elems(h[id]);
  }

  lemma {:induction false} RunOutcome(g: Geo, s: State, es: seq<Event>, t: State, id: nat)
    requires Inv(g, s) && Run(g, s, es, t)
    ensures id in s.calls ==> id in t.calls && t.calls[id].path == s.calls[id].path
    ensures id in t.calls && id !in s.calls ==> Begin(id, t.calls[id].path) in es
    ensures id in t.calls ==> (GaveUp(t.calls[id]) <==> (id in s.calls && GaveUp(s.calls[id])) || Full(id) in es)
    ensures Full(id) in es ==> id in t.calls
    decreases |es|
  {
    hide Inv, GaveUp, Enabled, Next;
    if es != [] {
      var e, u := es[0], Next(g, s, es[0]);
      StepOutcome(g, s, e, id);
      StepKeepsInv(g, s, e);
      RunOutcome(g, u, es[1..], t, id);
      assert es == [e] + es[1..];
    }
  }

  // ---------------------------------------------------------------- every call ends

  /** The call that takes a step. */
  function Who(e: Event): nat {
    e.id
  }

  function Steps(es: seq<Event>, id: nat): nat {
    if es == [] then 0 else (if Who(es[0]) == id then 1 else 0) + Steps(es[1..], id)
  }

  /** A bound on the steps that a call has still to take: each retry costs at most 15. */
  function Rank(c: Call): int {
    var k, l := 15 * (DEPTH - c.retries), |c.path|;
    match c
    case Walk(_, keys, _) => k + 3 * (l - |keys|) + 3
    case Alloc(_, keys, branch, _) => k + 2 * (l - |keys|) - |branch| + 2
    case Undo(_, rest, again, _) => |rest| + 1 + if again then k + 3 * l + 3 else 0
    case Done(_, _, _) => 0
  }

  lemma RankSign(g: Geo, s: State, c: Call)
    requires CallOk(g, s, c)
    ensures 0 <= Rank(c) && (Rank(c) == 0 <==> c.Done?) && c.retries <= |c.path| <= DEPTH
  {
    hide Intact, BranchSteps, At, Forest;
    if c.Walk? || c.Alloc? {
      IntactShort(s, c.path, c.keys);
    }
  }

  lemma IntactShort(s: State, path: seq<nat>, keys: seq<nat>)
    requires Intact(s, path, keys)
    ensures |keys| < |path|
  {}

  lemma ReadRank(g: Geo, s: State, c: Call)
    requires CallOk(g, s, c) && c.Walk?
    ensures Rank(ReadOne(s, c)) < Rank(c)
  {
    RankSign(g, s, c);
    IntactShort(s, c.path, c.keys);
    hide Intact, Slot, At, Forest, LastWords, Linked;
  }

  lemma UndoRank(c: Call)
    requires c.Undo?
    ensures c.rest != [] ==> Rank(c.(rest := c.rest[1..])) < Rank(c)
    ensures c.rest == [] ==> Rank(if c.again then Walk(c.path, [], c.retries) else Done(c.path, 0, c.retries)) < Rank(c)
  {}

  lemma {:induction false} StepRank(g: Geo, s: State, e: Event, id: nat)
    requires Inv(g, s) && Enabled(g, s, e)
    ensures var t := Next(g, s, e);
      && (id in s.calls ==>
            && id in t.calls
            && if Who(e) == id then Rank(t.calls[id]) < Rank(s.calls[id]) else t.calls[id] == s.calls[id])
      && (id !in s.calls ==> if Who(e) == id then id in t.calls && Rank(t.calls[id]) <= 75 else id !in t.calls)
  {
    hide TreeOk, Intact, Slot, Owned, CallOk;
    if id in s.calls && Who(e) == id {
      var c := s.calls[id];
      StepKeepsInv(g, s, e);
      RankSign(g, s, c);
      RankSign(g, Next(g, s, e), Next(g, s, e).calls[id]);
      match e
      case Read(_) => ReadRank(g, s, c);
      case Give(_) => UndoRank(c);
      case _ => 
    }
  }

  lemma {:induction false} RunSteps(g: Geo, s: State, es: seq<Event>, t: State, id: nat)
    requires Inv(g, s) && Run(g, s, es, t)
    ensures id in s.calls ==> id in t.calls && Steps(es, id) + Rank(t.calls[id]) <= Rank(s.calls[id])
    ensures id !in s.calls ==> if id in t.calls then Steps(es, id) + Rank(t.calls[id]) <= 76 else Steps(es, id) == 0
    decreases |es|
  {
    hide Inv, Rank, Enabled, Next;
    if es != [] {
      StepRank(g, s, es[0], id);
      StepKeepsInv(g, s, es[0]);
      RunSteps(g, Next(g, s, es[0]), es[1..], t, id);
    }
  }

  /** A call that has not finished can take a step, and finds the volume full only if it is. */
  lemma {:induction false} CanStep(g: Geo, s: State, id: nat) returns (e: Event)
    requires Inv(g, s) && id in s.calls && !s.calls[id].Done?
    ensures Who(e) == id && Enabled(g, s, e) && (e.Full? ==> g.zones <= s.used)
  {
    var c := s.calls[id];
    assert CallOk(g, s, c);
    match c
    case Walk(_, _, _) => e := Read(id);
    case Alloc(_, keys, branch, _) =>
      if |branch| == |c.path| - |keys| {
        e := Splice(id);
      } else if z :| z in g.zones && z !in s.used {
        e := Take(id, z);
      } else {
        e := Full(id);
      }
    case Undo(_, _, _, _) => e := Give(id);
  }

  /** However the other calls interfere, no call takes more than 76 steps, and until it has finished it
      can take one. */
  lemma {:induction false} EveryCallEnds(g: Geo, s: State, es: seq<Event>, t: State, id: nat)
    requires Init(g, s) && Run(g, s, es, t)
    ensures Steps(es, id) <= 76
    ensures id in t.calls && !t.calls[id].Done? ==>
      exists e :: Who(e) == id && Enabled(g, t, e) && (e.Full? ==> g.zones <= t.used)
  {
    hide Enabled;
    InitInv(g, s);
    RunKeepsInv(g, s, es, t);
    RunSteps(g, s, es, t, id);
    if id in t.calls {
      assert CallOk(g, t, t.calls[id]);
      RankSign(g, t, t.calls[id]);
      if !t.calls[id].Done? {
        var e := CanStep(g, t, id);
      }
    }
  }

  lemma InitInv(g: Geo, s: State)
    requires Init(g, s)
    ensures Inv(g, s)
  {
    assert Holdings(s.calls) == map[];
  }

  /** Once every call has finished, the zones in use are exactly those of the tree: losers of a splice
      and calls that ran out of space have given everything back. */
  lemma {:induction false} NothingLeaks(g: Geo, s: State, es: seq<Event>, t: State)
    requires Init(g, s) && Run(g, s, es, t) && forall id :: id in t.calls ==> t.calls[id].Done?
    ensures t.used == ZonesAll(Forest(t))
  {
    EveryRunIsSafe(g, s, es, t);
    var h := Holdings(t.calls);
    assert forall id :: id in h ==> h[id] == [];
  }

  /** No step removes or changes a node of the tree. */
  lemma {:induction false} StepKeepsNodes(g: Geo, s: State, e: Event, q: seq<nat>)
    requires Inv(g, s) && Enabled(g, s, e) && q != [] && At(Forest(s), q).Node?
    ensures At(Forest(Next(g, s, e)), q).Node? && At(Forest(Next(g, s, e)), q).zone == At(Forest(s), q).zone
  {
    hide SepAll, FullAll, WellFormedAll, Graft, At, LoadAll, BranchSteps, Split, TreeOk, LastWords, Linked;
    match e
    case Take(id, z) =>
      TakeDevice(g, s, id, z);
      var b := s.calls[id].branch;
      TreeElsewhere(g, s, TakeOne(g, s, id, z), if b == [] then z else b[|b| - 1]);
    case Splice(id) =>
      var c := s.calls[id];
      assert CallOk(g, s, c);
      if Slot(s, c.path, c.keys) == 0 {
        SpliceResult(g, s, id);
        GraftStable(Forest(s), c.path, |c.keys|, c.branch, g.n, q);
      }
    case _ =>
  }

  lemma {:induction false} RunKeepsNodes(g: Geo, s: State, es: seq<Event>, t: State, q: seq<nat>)
    requires Inv(g, s) && Run(g, s, es, t) && q != [] && At(Forest(s), q).Node?
    ensures At(Forest(t), q).Node? && At(Forest(t), q).zone == At(Forest(s), q).zone
    decreases |es|
  {
    hide Inv;
    if es != [] {
      StepKeepsInv(g, s, es[0]);
      StepKeepsNodes(g, s, es[0], q);
      RunKeepsNodes(g, Next(g, s, es[0]), es[1..], t, q);
    }
  }
}
