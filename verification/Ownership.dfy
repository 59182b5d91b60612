/**
  Who owns which zone, over all files and all runs.

  The zones in use are the extra superblock, the trees of ordinary files, the lists of chunked files,
  and the lists that removed chunked files have left behind.  No zone belongs to two of them, and
  every operation of the file system keeps it that way.
*/
module Ownership {
  import opened Geometry
  import opened Bytes
  import opened BlockPath
  import opened Trees
  import opened Volumes
  import opened Itree
  import opened Truncation
  import opened FileData
  import opened Dedup
  import opened ChunkList
  import opened ChunkFile

  /** An ordinary file with its slots, or a chunked one with its list. */
  datatype File =
    | Mapping(ws: seq<nat>, size: nat)
    | Listing(ws: seq<nat>, size: nat, zs: seq<nat>, es: seq<Entry>)

  /** The zones, the files, and the zones that no file leads to any more. */
  datatype World = World(bl: Blocks, m: Mem, used: set<nat>, files: map<nat, File>, lost: set<nat>)

  /** Block size, size limit and extra superblock. */
  datatype Params = Params(bs: nat, maxBytes: nat, esb: nat)

  function ZonesOf(m: Mem, f: File): set<nat> {
    match f
    case Mapping(ws, _) => ZonesAll(LoadAll(m, ws, Root))
    case Listing(_, _, zs, _) => Elems(zs)
  }

  ghost predicate FileOk(bl: Blocks, m: Mem, p: Params, f: File) {
    match f
    case Mapping(ws, _) =>
      && FileTree(m, ws, p.bs / 4, ZonesOf(m, f)) && !IsChunked(ws)
      && Limited(LoadAll(m, ws, Root), p.bs, p.maxBytes)
    case Listing(ws, _, zs, es) =>
      && IsChunked(ws) && Distinct(zs) && ListIn(bl, p.bs, zs, es) && Fit(es)
      && ws[1] == zs[0] && ws[2] == |es| && ws[3] == zs[|zs| - 1]
  }

  function AllOwned(m: Mem, files: map<nat, File>): set<nat> {
    set i, z | i in files && z in ZonesOf(m, files[i]) :: z
  }

  /** The partition. */
  ghost predicate WorldOk(w: World, p: Params) {
    && (forall i :: i in w.files ==> FileOk(w.bl, w.m, p, w.files[i]))
    && (forall i, j :: i in w.files && j in w.files && i != j ==>
          ZonesOf(w.m, w.files[i]) !! ZonesOf(w.m, w.files[j]))
    && (forall i :: i in w.files ==> ZonesOf(w.m, w.files[i]) !! w.lost && p.esb !in ZonesOf(w.m, w.files[i]))
    && p.esb !in w.lost && w.used == {p.esb} + w.lost + AllOwned(w.m, w.files)
    && WordsOf(w.bl, w.m) && forall z :: z in w.used ==> z in w.bl
  }

  lemma OwnedInUse(w: World, p: Params, i: nat)
    requires WorldOk(w, p) && i in w.files
    ensures ZonesOf(w.m, w.files[i]) <= w.used
  {
    hide FileOk, ZonesOf;
    forall z | z in ZonesOf(w.m, w.files[i])
      ensures z in AllOwned(w.m, w.files)
    {}
  }

  /** A file none of whose zones has changed. */
  lemma {:induction false} FileStays(bl: Blocks, m: Mem, bl': Blocks, m': Mem, p: Params, f: File, changed: set<nat>)
    requires FileOk(bl, m, p, f) && Frame(bl, bl', changed) && ZonesOf(m, f) !! changed
    requires WordsOf(bl, m) && WordsOf(bl', m') && forall z :: z in ZonesOf(m, f) ==> z in bl
    ensures FileOk(bl', m', p, f) && ZonesOf(m', f) == ZonesOf(m, f)
  {
    hide ListIn, WellFormedAll, SepAll, FullAll, Limited;
    match f
    case Mapping(ws, _) =>
      forall z | z in ZonesOf(m, f)
        ensures z in m && z in m' && m[z] == m'[z]
      {
        assert Words(bl[z]) == Words(bl'[z]);
      }
      ForestFrame(m, m', ws, Root);
      StillTree(m, m', ws, p.bs / 4, ZonesOf(m, f), ZonesOf(m, f));
    case Listing(ws, _, zs, es) =>
      assert forall z :: z in zs ==> z in Elems(zs);
      ListFrame(bl, bl', p.bs, zs, es);
  }

  /** One file changes, within its own zones and zones that were free. */
  ghost predicate ChangesOne(w: World, w': World, p: Params, i: nat, f: File, changed: set<nat>) {
    && i in w.files && w'.files == w.files[i := f] && w'.lost == w.lost
    && Frame(w.bl, w'.bl, changed)
    && (forall z :: z in changed && z in w.used ==> z in ZonesOf(w.m, w.files[i]) || z == p.esb)
    && (forall z :: z in ZonesOf(w'.m, f) && z in w.used ==> z in ZonesOf(w.m, w.files[i]))
    && w'.used == w.used - ZonesOf(w.m, w.files[i]) + ZonesOf(w'.m, f)
    && FileOk(w'.bl, w'.m, p, f) && WordsOf(w'.bl, w'.m) && forall z :: z in w'.used ==> z in w'.bl
  }

  lemma {:induction false} ChangeOne(w: World, w': World, p: Params, i: nat, f: File, changed: set<nat>)
    requires WorldOk(w, p) && ChangesOne(w, w', p, i, f, changed)
    ensures WorldOk(w', p)
  {
    hide FileOk, ZonesOf, AllOwned, WordsOf, Frame;
    forall j | j in w.files && j != i
      ensures FileOk(w'.bl, w'.m, p, w.files[j]) && ZonesOf(w'.m, w.files[j]) == ZonesOf(w.m, w.files[j]) <= w.used
      ensures ZonesOf(w.m, w.files[j]) !! ZonesOf(w'.m, f)
    {
      OwnedInUse(w, p, j);
      FileStays(w.bl, w.m, w'.bl, w'.m, p, w.files[j], changed);
    }
    OwnedInUse(w, p, i);
    UnionAfter(w, w', p, i, f);
  }

  lemma {:induction false} UnionAfter(w: World, w': World, p: Params, i: nat, f: File)
    requires WorldOk(w, p) && i in w.files && w'.files == w.files[i := f] && w'.lost == w.lost
    requires w'.used == w.used - ZonesOf(w.m, w.files[i]) + ZonesOf(w'.m, f)
    requires forall j :: j in w.files && j != i ==> ZonesOf(w'.m, w.files[j]) == ZonesOf(w.m, w.files[j])
    ensures w'.used == {p.esb} + w'.lost + AllOwned(w'.m, w'.files)
  {
    hide FileOk;
    forall z
      ensures z in w'.used <==> z in {p.esb} + w'.lost + AllOwned(w'.m, w'.files)
    {
      if z in AllOwned(w'.m, w'.files) {
        var j :| j in w'.files && z in ZonesOf(w'.m, w'.files[j]);
        if j != i {
          assert z in ZonesOf(w.m, w.files[j]) && z !in ZonesOf(w.m, w.files[i]);
          OwnedInUse(w, p, j);
        }
      }
      if z in ZonesOf(w'.m, f) {
        assert i in w'.files && z in ZonesOf(w'.m, w'.files[i]);
      }
      if z in w'.used && z !in ZonesOf(w'.m, f) && z in AllOwned(w.m, w.files) {
        var j :| j in w.files && z in ZonesOf(w.m, w.files[j]);
        assert j != i && z in ZonesOf(w'.m, w'.files[j]);
      }
    }
  }

  /** A new file that owns nothing. */
  lemma {:induction false} AddFile(w: World, p: Params, i: nat, ws: seq<nat>)
    requires WorldOk(w, p) && i !in w.files && p.bs >= 1024 && AllZero(ws, INODE_SLOTS) && |ws| == INODE_SLOTS
    ensures WorldOk(w.(files := w.files[i := Mapping(ws, 0)]), p)
  {
    hide FileOk, AllOwned, ZonesOf, WordsOf;
    EmptyTree(w.bl, w.m, p, ws);
    SameUnion(w.m, w.files, i, Mapping(ws, 0));
  }

  lemma SameUnion(m: Mem, files: map<nat, File>, i: nat, f: File)
    requires i !in files && ZonesOf(m, f) == {}
    ensures AllOwned(m, files[i := f]) == AllOwned(m, files)
  {
    hide ZonesOf;
    var files' := files[i := f];
    forall z | z in AllOwned(m, files')
      ensures z in AllOwned(m, files)
    {
      var j :| j in files' && z in ZonesOf(m, files'[j]);
      assert j in files && files[j] == files'[j];
    }
    forall z | z in AllOwned(m, files)
      ensures z in AllOwned(m, files')
    {
      var j :| j in files && z in ZonesOf(m, files[j]);
      assert j in files' && files'[j] == files[j];
    }
  }

  lemma {:induction false} EmptyTree(bl: Blocks, m: Mem, p: Params, ws: seq<nat>)
    requires p.bs >= 1024 && AllZero(ws, INODE_SLOTS) && |ws| == INODE_SLOTS
    ensures FileOk(bl, m, p, Mapping(ws, 0)) && ZonesOf(m, Mapping(ws, 0)) == {}
  {
    var ts := LoadAll(m, ws, Root);
    assert forall i :: 0 <= i < |ts| ==> ts[i] == Empty;
    assert ZonesAll(ts) == {};
    assert WellFormedAll(m, ws, Root, p.bs / 4);
    EmptyMaps(ts, p);
  }

  lemma EmptyMaps(ts: seq<Tree>, p: Params)
    requires p.bs >= 1024 && forall i :: 0 <= i < |ts| ==> ts[i] == Empty
    ensures Limited(ts, p.bs, p.maxBytes)
  {
    hide PathOf;
    forall b | 0 <= b < Capacity(p.bs / 4)
      ensures Mapped(ts, p.bs / 4, b) == 0
    {
      assert At(ts, PathOf(b, p.bs / 4)).Empty?;
    }
  }

  /** A file is removed; what it owned is from then on lost. */
  lemma {:induction false} DropFile(w: World, p: Params, i: nat)
    requires WorldOk(w, p) && i in w.files
    ensures WorldOk(w.(files := w.files - {i}, lost := w.lost + ZonesOf(w.m, w.files[i])), p)
  {
    hide FileOk;
    var w' := w.(files := w.files - {i}, lost := w.lost + ZonesOf(w.m, w.files[i]));
    forall z
      ensures z in w.used <==> z in {p.esb} + w'.lost + AllOwned(w.m, w'.files)
    {
      if z in AllOwned(w.m, w.files) {
        var j :| j in w.files && z in ZonesOf(w.m, w.files[j]);
        assert j != i ==> j in w'.files && w'.files[j] == w.files[j];
      }
      if z in AllOwned(w.m, w'.files) {
        var j :| j in w'.files && z in ZonesOf(w.m, w'.files[j]);
        assert j in w.files && w.files[j] == w'.files[j];
        OwnedInUse(w, p, j);
      }
      OwnedInUse(w, p, i);
    }
  }

  /** A change of one file leaves the tree and the content of every other ordinary file as they are. */
  lemma {:induction false} OthersContent(w: World, w': World, p: Params, i: nat, f: File, changed: set<nat>, j: nat)
    requires WorldOk(w, p) && ChangesOne(w, w', p, i, f, changed) && p.bs >= 4
    requires j in w.files && j != i && w.files[j].Mapping?
    ensures SameContent(w, w'.m, w'.bl, p.bs, w.files[j])
  {
    hide FileOk;
    var ts := LoadAll(w.m, w.files[j].ws, Root);
    OwnedInUse(w, p, i);
    OwnedInUse(w, p, j);
    forall z | z in ZonesAll(ts)
      ensures z in w.m && z in w'.m && w.m[z] == w'.m[z] && z in w.bl && z in w'.bl && w.bl[z] == w'.bl[z]
    {
      assert z in ZonesOf(w.m, w.files[j]) && z !in changed;
      assert Words(w.bl[z]) == Words(w'.bl[z]);
    }
    ForestFrame(w.m, w'.m, w.files[j].ws, Root);
    ContentFrame(w.bl, w'.bl, ts, p.bs, w.files[j].size);
  }

  /** An ordinary file has the same tree and the same bytes as in `w`. */
  ghost predicate SameContent(w: World, m: Mem, bl: Blocks, bs: nat, f: File) {
    var ts := LoadAll(w.m, f.ws, Root);
    bs >= 4 && LoadAll(m, f.ws, Root) == ts && Content(bl, ts, bs, f.size) == Content(w.bl, ts, bs, f.size)
  }

  /** Every ordinary file but `i` has the tree and the bytes that it had in `w`. */
  ghost predicate OthersSame(w: World, m: Mem, bl: Blocks, bs: nat, i: nat) {
    forall j :: j in w.files && j != i && w.files[j].Mapping? ==> SameContent(w, m, bl, bs, w.files[j])
  }

  lemma {:induction false} ChangeOthers(w: World, w': World, p: Params, i: nat, f: File, changed: set<nat>)
    requires WorldOk(w, p) && ChangesOne(w, w', p, i, f, changed) && p.bs >= 4
    ensures OthersSame(w, w'.m, w'.bl, p.bs, i)
  {
    hide WorldOk, ChangesOne, SameContent;
    forall j | j in w.files && j != i && w.files[j].Mapping?
      ensures SameContent(w, w'.m, w'.bl, p.bs, w.files[j])
    {
      OthersContent(w, w', p, i, f, changed, j);
    }
  }

  lemma NothingWritten(w: World, bs: nat, i: nat)
    requires bs >= 4
    ensures OthersSame(w, w.m, w.bl, bs, i)
  {}

  /** The size of a file is not part of what owns its zones. */
  lemma Resized(w: World, p: Params, i: nat, size: nat)
    requires WorldOk(w, p) && i in w.files
    ensures var f := w.files[i].(size := size);
      ChangesOne(w, w.(files := w.files[i := f]), p, i, f, {}) && ZonesOf(w.m, f) == ZonesOf(w.m, w.files[i])
  {
    hide ListIn, FileTree, Limited;
    OwnedInUse(w, p, i);
    assert FileOk(w.bl, w.m, p, w.files[i]);
  }

  /** A new device: the extra superblock, and a root directory of one block. */
  lemma {:induction false} RootWorld(bl: Blocks, m: Mem, p: Params, root: nat, ws: seq<nat>, size: nat)
    requires WordsOf(bl, m) && p.esb in bl && p.bs >= 1024 && p.maxBytes > 0
    requires |ws| == INODE_SLOTS && 0 < ws[0] < MARK && ws[0] in bl && ws[0] != p.esb
      && ws == ZeroWords(INODE_SLOTS)[0 := ws[0]]
    ensures WorldOk(World(bl, m, {p.esb, ws[0]}, map[root := Mapping(ws, size)], {}), p)
  {
    var f := Mapping(ws, size);
    RootTree(m, p, ws);
    assert ZonesOf(m, f) == {ws[0]};
    hide FileTree, Limited;
    assert AllOwned(m, map[root := f]) == {ws[0]} by {
      assert forall z :: z in AllOwned(m, map[root := f]) ==> z in ZonesOf(m, f);
      assert root in map[root := f] && ws[0] in ZonesOf(m, map[root := f][root]);
    }
  }

  lemma {:induction false} RootTree(m: Mem, p: Params, ws: seq<nat>)
    requires p.bs >= 1024 && p.maxBytes > 0 && |ws| == INODE_SLOTS && ws[0] > 0
      && ws == ZeroWords(INODE_SLOTS)[0 := ws[0]]
    ensures FileTree(m, ws, p.bs / 4, {ws[0]}) && Limited(LoadAll(m, ws, Root), p.bs, p.maxBytes)
    ensures ZonesAll(LoadAll(m, ws, Root)) == {ws[0]}
  {
    var ts := LoadAll(m, ws, Root);
    assert forall i :: 1 <= i < |ts| ==> ts[i] == Empty;
    assert ts[0] == Node(ws[0], []);
    assert ZonesAll([]) == {};
    assert Zones(ts[0]) == {ws[0]};
    assert Sep(ts[0]) && Full(ts[0]);
    assert forall i :: 1 <= i < |ts| ==> Sep(ts[i]) && Full(ts[i]) && Zones(ts[i]) == {};
    assert WellFormedAll(m, ws, Root, p.bs / 4);
    RootMaps(ts, p);
  }

  lemma RootMaps(ts: seq<Tree>, p: Params)
    requires p.bs >= 1024 && p.maxBytes > 0 && |ts| > 0 && forall i :: 1 <= i < |ts| ==> ts[i] == Empty
    requires ts[0].Node? ==> ts[0].kids == []
    ensures Limited(ts, p.bs, p.maxBytes)
  {
    forall b | 0 <= b < Capacity(p.bs / 4) && b * p.bs >= p.maxBytes
      ensures Mapped(ts, p.bs / 4, b) == 0
    {
      assert b > 0;
      PathRoundTrip(b, p.bs / 4);
      assert PathOf(b, p.bs / 4)[0] != 0;
    }
  }
}
