/**
  The operations of namei.c on directories as they are stored, slot by slot.

  `ents` is the union of the maps that the directories stand for.  The link counts, and what every
  operation does to them, are those of module Links.
*/
module Namei {
  import opened Arith
  import opened Directory
  import opened Links

  datatype Result = Success | NoEntry | NotEmpty | NoSpace

  // ---------------------------------------------------------------- names and labels

  function NameOf(l: Label): Name {
    match l
    case Self => [DOT]
    case Parent => [DOT, DOT]
    case Named(name) => name
  }

  /** A name that can be stored and is neither "." nor "..". */
  predicate LabelOk(l: Label) {
    l.Named? ==> NameOk(l.name) && l.name != [DOT] && l.name != [DOT, DOT]
  }

  function LabelOf(name: Name): Label {
    if name == [DOT] then Self else if name == [DOT, DOT] then Parent else Named(name)
  }

  lemma LabelName(l: Label)
    requires LabelOk(l)
    ensures NameOk(NameOf(l)) && LabelOf(NameOf(l)) == l
  {
    assert |[DOT]| != |[DOT, DOT]|;
    assert 0 !in [DOT] && 0 !in [DOT, DOT];
  }

  /** The map of one directory is what `ents` holds for it. */
  ghost predicate Tied(m: map<Name, nat>, d: nat, ents: Ents) {
    && (forall n :: n in m ==> NameOk(n) && Place(d, LabelOf(n)) in ents && ents[Place(d, LabelOf(n))] == m[n])
    && (forall p :: p in ents && p.dir == d ==> LabelOk(p.tag) && NameOf(p.tag) in m)
  }

  lemma TiedPut(m: map<Name, nat>, d: nat, ents: Ents, l: Label, x: nat)
    requires Tied(m, d, ents) && LabelOk(l)
    ensures Tied(m[NameOf(l) := x], d, ents[Place(d, l) := x])
  {
    LabelName(l);
    var m', ents' := m[NameOf(l) := x], ents[Place(d, l) := x];
    forall n | n in m'
      ensures NameOk(n) && Place(d, LabelOf(n)) in ents' && ents'[Place(d, LabelOf(n))] == m'[n]
    {
      if n != NameOf(l) {
        assert n in m && LabelOf(n) != l by { NameLabel(n); }
      }
    }
  }

  lemma NameLabel(n: Name)
    ensures NameOf(LabelOf(n)) == n && (NameOk(n) ==> LabelOk(LabelOf(n)))
  {}

  lemma TiedDel(m: map<Name, nat>, d: nat, ents: Ents, l: Label)
    requires Tied(m, d, ents) && LabelOk(l)
    ensures Tied(m - {NameOf(l)}, d, ents - {Place(d, l)})
  {
    LabelName(l);
    var m', ents' := m - {NameOf(l)}, ents - {Place(d, l)};
    forall n | n in m'
      ensures NameOk(n) && Place(d, LabelOf(n)) in ents' && ents'[Place(d, LabelOf(n))] == m'[n]
    {
      NameLabel(n);
    }
    forall p | p in ents' && p.dir == d
      ensures LabelOk(p.tag) && NameOf(p.tag) in m'
    {
      LabelName(p.tag);
    }
  }

  /** Nothing has changed outside directory `d`. */
  predicate OnlyIn(ents: Ents, ents': Ents, d: nat) {
    && (forall p :: p in ents && p.dir != d ==> p in ents' && ents'[p] == ents[p])
    && (forall p :: p in ents' && p.dir != d ==> p in ents)
  }

  lemma TiedOther(m: map<Name, nat>, d: nat, ents: Ents, ents': Ents, c: nat)
    requires Tied(m, d, ents) && OnlyIn(ents, ents', c) && c != d
    ensures Tied(m, d, ents')
  {}

  lemma TiedHas(m: map<Name, nat>, d: nat, ents: Ents, l: Label)
    requires Tied(m, d, ents) && LabelOk(l)
    ensures NameOf(l) in m <==> Place(d, l) in ents
    ensures Place(d, l) in ents ==> ents[Place(d, l)] == m[NameOf(l)]
  {
    LabelName(l);
    if Place(d, l) in ents {
      assert LabelOf(NameOf(l)) == l;
    }
  }

  /** The test of cominix_empty_dir, in terms of the entries. */
  lemma TiedEmpty(m: map<Name, nat>, d: nat, ents: Ents)
    requires Tied(m, d, ents) && Place(d, Self) in ents && ents[Place(d, Self)] == d
    ensures IsEmpty(ents, d) <==> forall n :: n in m ==> (n == [DOT] && m[n] == d) || n == [DOT, DOT]
  {
    if IsEmpty(ents, d) {
      forall n | n in m
        ensures (n == [DOT] && m[n] == d) || n == [DOT, DOT]
      {
        assert !Place(d, LabelOf(n)).tag.Named?;
      }
    }
    if forall n :: n in m ==> (n == [DOT] && m[n] == d) || n == [DOT, DOT] {
      forall p | p in ents && p.dir == d
        ensures !p.tag.Named?
      {
        assert NameOf(p.tag) in m;
      }
    }
  }

  /** A directory whose slots hold its part of `ents`, with "." and ".." in the first two. */
  ghost predicate Filed(cs: seq<Cell>, d: nat, ents: Ents) {
    && Unique(cs) && |cs| >= 2 && cs[0].ino != 0 && cs[0].name == [DOT] && cs[1].ino != 0 && cs[1].name == [DOT, DOT]
    && Tied(Entries(cs), d, ents)
  }

  /** A slot other than the first two has changed, or one was added, or ".." leads elsewhere. */
  lemma FiledPut(cs: seq<Cell>, cs': seq<Cell>, d: nat, ents: Ents, l: Label, x: nat, k: nat)
    requires Filed(cs, d, ents) && LabelOk(l) && Unique(cs') && Entries(cs') == Entries(cs)[NameOf(l) := x] && x != 0
    requires if k < |cs| then (k == 1 ==> l == Parent) && k != 0 && cs' == cs[k := Cell(x, NameOf(l))]
             else cs' == cs + [Cell(x, NameOf(l))]
    ensures Filed(cs', d, ents[Place(d, l) := x])
  {
    hide Entries, Unique, Tied, LabelOk;
    TiedPut(Entries(cs), d, ents, l, x);
  }

  lemma FiledDel(cs: seq<Cell>, d: nat, ents: Ents, l: Label, k: nat)
    requires Filed(cs, d, ents) && LabelOk(l) && 2 <= k < |cs| && cs[k].name == NameOf(l)
    requires var cs' := cs[k := Cell(0, cs[k].name)]; Unique(cs') && Entries(cs') == Entries(cs) - {NameOf(l)}
    ensures Filed(cs[k := Cell(0, cs[k].name)], d, ents - {Place(d, l)})
  {
    hide Entries, Unique, Tied, LabelOk;
    TiedDel(Entries(cs), d, ents, l);
  }

  /** The slot of a normal name is not one of the first two. */
  lemma NormalSlot(cs: seq<Cell>, d: nat, ents: Ents, l: Label, k: nat)
    requires Filed(cs, d, ents) && LabelOk(l) && l.Named? && k < |cs| && cs[k].name == NameOf(l)
    ensures k >= 2
  {}

  lemma FreeSlot(cs: seq<Cell>, d: nat, ents: Ents)
    requires Filed(cs, d, ents)
    ensures FirstFree(cs) >= 2
  {}

  // ---------------------------------------------------------------- the namespace

  /** Inode numbers are not 0 and fit in 32 bits. */
  ghost predicate Numbered(nlink: map<nat, nat>) {
    forall x :: x in nlink ==> 0 < x < U32
  }

  /** An entry, the directory it is in and the inode it names. */
  lemma EntryFacts(s: Space, root: nat, p: Place)
    requires Inv(s, root) && Numbered(s.nlink) && p in s.ents
    ensures p.dir in s.dirs && p.dir in s.nlink && s.nlink[p.dir] > 0 && 0 < p.dir < U32
    ensures var x := s.ents[p];
      && x in s.nlink && s.nlink[x] > 0 && 0 < x < U32
      && (x in s.dirs ==> Place(x, Self) in s.ents && s.ents[Place(x, Self)] == x)
  {
    hide DirOk, AtOk, EntryOk, Count;
    EntryParts(s, p);
    DirParts(s, p.dir);
    if s.ents[p] in s.dirs {
      DirParts(s, s.ents[p]);
    }
  }

  lemma DirFacts(s: Space, root: nat, d: nat)
    requires Inv(s, root) && Numbered(s.nlink) && d in s.dirs
    ensures d in s.nlink && s.nlink[d] > 0 && 0 < d < U32
  {
    hide DirOk, AtOk, EntryOk, Count;
    DirParts(s, d);
  }

  class Namespace {
    const root: nat
    var dirs: map<nat, Dir>
    var nlink: map<nat, nat>
    ghost var ents: Ents
    ghost var at: map<nat, Place>

    ghost function Now(): Space
      reads this
    {
      Space(ents, dirs.Keys, nlink, at)
    }

    ghost predicate Keeps(dir: Dir, d: nat, ents: Ents)
      reads dir
    {
      dir.ino == d && dir.Valid() && Filed(dir.Cells(), d, ents)
    }

    /** Every directory holds its entries. */
    ghost predicate Stored()
      reads this`dirs, this`ents, dirs.Values
    {
      forall d :: d in dirs ==> Keeps(dirs[d], d, ents)
    }

    ghost predicate Valid()
      reads this, dirs.Values
    {
      Inv(Now(), root) && Stored() && Numbered(nlink)
    }

    lemma MakeValid(s: Space, n: map<nat, nat>)
      requires s == Space(ents, dirs.Keys, nlink, at) && Inv(s, root) && Stored() && Numbered(n) && nlink.Keys <= n.Keys
      ensures Valid() && Now() == s
    {}

    /** One directory has changed, and `ents` with it; the others hold what they held. */
    lemma OneChanged(d: nat, before: Ents)
      requires d in dirs && Keeps(dirs[d], d, ents) && OnlyIn(before, ents, d)
      requires forall j :: j in dirs && j != d ==> Keeps(dirs[j], j, before)
      ensures Stored()
    {
      forall j | j in dirs && j != d
        ensures Keeps(dirs[j], j, ents)
      {
        hide Entries, Unique, Tied;
        TiedOther(Entries(dirs[j].Cells()), j, before, ents, d);
      }
    }

    // ------------------------------------------------------------ entries

    lemma KeepsParts(dir: Dir, p: Place)
      requires Keeps(dir, p.dir, ents) && LabelOk(p.tag)
      ensures dir.Valid() && dir.ino == p.dir && Filed(dir.Cells(), p.dir, ents) && Unique(dir.Cells())
      ensures NameOk(NameOf(p.tag)) && (p.tag.Named? ==> NameOf(p.tag) == p.tag.name)
      ensures NameOf(p.tag) in Entries(dir.Cells()) <==> p in ents
      ensures p in ents ==> Entries(dir.Cells())[NameOf(p.tag)] == ents[p]
      ensures |dir.Cells()| == dir.size / DIRSIZE && DIRSIZE == 64
    {
      hide Entries, Unique, Tied;
      LabelName(p.tag);
      TiedHas(Entries(dir.Cells()), p.dir, ents, p.tag);
    }

    lemma SameElsewhere(ents: Ents, d: nat)
      ensures OnlyIn(ents, ents, d)
      ensures forall l, x: nat {:trigger ents[Place(d, l) := x]} :: OnlyIn(ents, ents[Place(d, l) := x], d)
      ensures forall l {:trigger ents - {Place(d, l)}} :: OnlyIn(ents, ents - {Place(d, l)}, d)
    {}

    /** The slots of the directories hold `ents`: a name is in a directory exactly when the place is in it. */
    lemma {:induction false} SlotsHold(d: nat, l: Label)
      requires Valid() && d in dirs && LabelOk(l)
      ensures dirs[d].Valid()
      ensures var m, n := Entries(dirs[d].Cells()), if l.Self? then [DOT] else if l.Parent? then [DOT, DOT] else l.name;
        (n in m <==> Place(d, l) in ents) && (n in m ==> m[n] == ents[Place(d, l)])
    {
      hide Entries, Unique, Filed, LabelOk;
      KeepsParts(dirs[d], Place(d, l));
    }

    /** cominix_add_link for a name that is not there: it fails only for lack of space, and the test for
        an existing name, which looks no further than the first free slot, does not fail. */
    method Enter(p: Place, x: nat, room: bool) returns (r: Result)
      requires Stored() && p.dir in dirs && LabelOk(p.tag) && p.tag.Named? && p !in ents && 0 < x < U32
      modifies dirs[p.dir], this`ents
      ensures Stored() && r == if room then Success else NoSpace
      ensures ents == if room then old(ents)[p := x] else old(ents)
    {
      hide Filed, OnlyIn, Entries, Unique, LabelOk, IsEmpty, Dir.Cells, Dir.Valid;
      var dir := dirs[p.dir];
      KeepsParts(dir, p);
      ghost var cs, before := dir.Cells(), ents;
      FreeSlot(cs, p.dir, ents);
      SameElsewhere(ents, p.dir);
      var err := dir.AddLink(p.tag.name, x, room);
      if err != Zero {
        OneChanged(p.dir, before);
        return NoSpace;
      }
      FiledPut(cs, dir.Cells(), p.dir, ents, p.tag, x, FirstFree(cs));
      ents := ents[Place(p.dir, p.tag) := x];
      OneChanged(p.dir, before);
      r := Success;
    }

    /** cominix_find_entry and cominix_set_link: the name now leads to `x`. */
    method Point(p: Place, x: nat)
      requires Stored() && p.dir in dirs && LabelOk(p.tag) && p.tag.Named? && p in ents && 0 < x < U32
      modifies dirs[p.dir], this`ents
      ensures Stored() && ents == old(ents)[p := x]
    {
      hide Filed, OnlyIn, Entries, Unique, LabelOk, IsEmpty, Dir.Cells, Dir.Valid;
      var dir := dirs[p.dir];
      KeepsParts(dir, p);
      ghost var cs, before := dir.Cells(), ents;
      ghost var k;
      var found, off;
      found, off, k := dir.FindEntry(p.tag.name);
      NormalSlot(cs, p.dir, ents, p.tag, k);
      dir.SetLink(off, k, x);
      FiledPut(cs, dir.Cells(), p.dir, ents, p.tag, x, k);
      SameElsewhere(ents, p.dir);
      ents := ents[Place(p.dir, p.tag) := x];
      OneChanged(p.dir, before);
    }

    /** cominix_dotdot and cominix_set_link: the second slot of a directory is its "..". */
    method PointParent(d: nat, x: nat)
      requires Stored() && d in dirs && 0 < x < U32
      modifies dirs[d], this`ents
      ensures Stored() && ents == old(ents)[Place(d, Parent) := x]
    {
      hide OnlyIn, Tied, Entries, Unique, LabelOk, IsEmpty, Dir.Cells, Dir.Valid;
      var dir := dirs[d];
      ghost var p := Place(d, Parent);
      Labels();
      KeepsParts(dir, p);
      ghost var cs, before := dir.Cells(), ents;
      dir.SetLink(DIRSIZE, 1, x);
      FiledPut(cs, dir.Cells(), d, ents, Parent, x, 1);
      SameElsewhere(ents, d);
      ents := ents[Place(d, Parent) := x];
      OneChanged(d, before);
    }

    lemma Labels()
      ensures LabelOk(Self) && LabelOk(Parent) && NameOf(Self) == [DOT] && NameOf(Parent) == [DOT, DOT]
    {}

    /** cominix_find_entry and cominix_delete_entry. */
    method Erase(p: Place)
      requires Stored() && p.dir in dirs && LabelOk(p.tag) && p.tag.Named? && p in ents
      modifies dirs[p.dir], this`ents
      ensures Stored() && ents == old(ents) - {p}
    {
      hide Filed, OnlyIn, Entries, Unique, LabelOk, IsEmpty, Dir.Cells, Dir.Valid;
      var dir := dirs[p.dir];
      KeepsParts(dir, p);
      ghost var cs, before := dir.Cells(), ents;
      ghost var k;
      var found, off;
      found, off, k := dir.FindEntry(p.tag.name);
      NormalSlot(cs, p.dir, ents, p.tag, k);
      dir.DeleteEntry(off, k);
      FiledDel(cs, p.dir, ents, p.tag, k);
      SameElsewhere(ents, p.dir);
      ents := ents - {Place(p.dir, p.tag)};
      OneChanged(p.dir, before);
    }

    /** cominix_empty_dir */
    method CheckEmpty(d: nat) returns (empty: bool)
      requires Stored() && d in dirs && Place(d, Self) in ents && ents[Place(d, Self)] == d
      modifies dirs[d]
      ensures Stored() && (empty <==> IsEmpty(ents, d))
    {
      hide Filed, OnlyIn, Entries, Unique, LabelOk, IsEmpty, Dir.Cells, Dir.Valid;
      var dir := dirs[d];
      Labels();
      KeepsParts(dir, Place(d, Self));
      EmptyIs(dir.Cells(), d, ents);
      empty := dir.EmptyDir();
      SameElsewhere(ents, d);
      OneChanged(d, ents);
    }

    lemma EmptyIs(cs: seq<Cell>, d: nat, ents: Ents)
      requires Filed(cs, d, ents) && Place(d, Self) in ents && ents[Place(d, Self)] == d
      ensures IsEmpty(ents, d) <==>
        forall n :: n in Entries(cs) ==> (n == [DOT] && Entries(cs)[n] == d) || n == [DOT, DOT]
    {
      hide Entries;
      TiedEmpty(Entries(cs), d, ents);
    }

    /** cominix_make_empty: a directory with its two entries. */
    method MakeDir(c: nat, parent: nat)
      requires Stored() && c !in dirs && 0 < c < U32 && 0 < parent < U32 && forall p :: p in ents ==> p.dir != c
      modifies this`dirs, this`ents
      ensures Stored() && dirs.Keys == old(dirs).Keys + {c} && c in dirs && fresh(dirs[c])
      ensures dirs == old(dirs)[c := dirs[c]]
      ensures ents == old(ents)[Place(c, Self) := c][Place(c, Parent) := parent]
    {
      hide Filed, OnlyIn, Entries, Unique, LabelOk, IsEmpty, Dir.Cells, Dir.Valid;
      ghost var before := ents;
      var dir := new Dir(c);
      dir.MakeEmpty(parent);
      NewFiled(dir.Cells(), c, parent, ents);
      dirs := dirs[c := dir];
      ents := ents[Place(c, Self) := c][Place(c, Parent) := parent];
      OneChanged(c, before);
    }

    lemma NewFiled(cs: seq<Cell>, c: nat, parent: nat, ents: Ents)
      requires cs == [Cell(c, [DOT]), Cell(parent, [DOT, DOT])] && c != 0 && parent != 0
      requires Unique(cs) && Entries(cs) == map[[DOT] := c, [DOT, DOT] := parent]
      requires forall p :: p in ents ==> p.dir != c
      ensures Filed(cs, c, ents[Place(c, Self) := c][Place(c, Parent) := parent])
      ensures OnlyIn(ents, ents[Place(c, Self) := c][Place(c, Parent) := parent], c)
    {
      hide Entries, Unique, Tied;
      NewTied(c, parent, ents);
    }

    lemma NewTied(c: nat, parent: nat, ents: Ents)
      requires forall p :: p in ents ==> p.dir != c
      ensures Tied(map[[DOT] := c, [DOT, DOT] := parent], c, ents[Place(c, Self) := c][Place(c, Parent) := parent])
    {
      Labels();
      LabelName(Self);
      LabelName(Parent);
      TiedPut(map[], c, ents, Self, c);
      TiedPut(map[NameOf(Self) := c], c, ents[Place(c, Self) := c], Parent, parent);
      assert map[NameOf(Self) := c][NameOf(Parent) := parent] == map[[DOT] := c, [DOT, DOT] := parent];
    }

    // ------------------------------------------------------------ links

    /** inode_inc_link_count */
    method IncLink(x: nat)
      requires x in nlink
      modifies this`nlink
      ensures nlink == old(nlink)[x := old(nlink)[x] + 1]
    {
      nlink := nlink[x := nlink[x] + 1];
    }

    /** inode_dec_link_count and drop_nlink */
    method DecLink(x: nat)
      requires x in nlink && nlink[x] > 0
      modifies this`nlink
      ensures nlink == old(nlink)[x := old(nlink)[x] - 1]
    {
      nlink := nlink[x := nlink[x] - 1];
    }

    /** iput: an inode without links goes, and with it the entries that it holds. */
    method Iput(x: nat)
      requires x in nlink && Stored()
      modifies this`nlink, this`ents, this`dirs
      ensures Stored()
      ensures old(nlink)[x] > 0 ==> nlink == old(nlink) && ents == old(ents) && dirs == old(dirs)
      ensures old(nlink)[x] == 0 ==>
        && nlink == old(nlink) - {x}
        && (x in old(dirs) ==> dirs.Keys == old(dirs).Keys - {x} && ents == Without(old(ents), x))
        && (x !in old(dirs) ==> dirs == old(dirs) && ents == old(ents))
      ensures dirs == old(dirs) - {x} || dirs == old(dirs)
    {
      hide Filed, OnlyIn, Entries, Unique, LabelOk, IsEmpty, Dir.Cells, Dir.Valid;
      if nlink[x] == 0 {
        nlink := nlink - {x};
        if x in dirs {
          ghost var before := ents;
          GoneElsewhere(ents, x);
          ents, dirs := Without(ents, x), dirs - {x};
          OthersLeft(x, before);
        }
      }
    }

    lemma GoneElsewhere(ents: Ents, x: nat)
      ensures OnlyIn(ents, Without(ents, x), x)
    {}

    lemma OthersLeft(x: nat, before: Ents)
      requires x !in dirs && OnlyIn(before, ents, x) && forall j :: j in dirs ==> Keeps(dirs[j], j, before)
      ensures Stored()
    {
      forall j | j in dirs
        ensures Keeps(dirs[j], j, ents)
      {
        hide Entries, Unique, Tied;
        TiedOther(Entries(dirs[j].Cells()), j, before, ents, x);
      }
    }

    /** A file system that has only a root directory. */
    constructor (root: nat)
      requires 0 < root < U32
      ensures Valid() && this.root == root && dirs.Keys == {root} && fresh(dirs.Values)
    {
      hide Inv, Keeps;
      this.root := root;
      dirs, nlink, ents, at := map[], map[root := 2], map[], map[];
      new;
      MakeDir(root, root);
      OnlyRoot(root);
      assert ents == map[Place(root, Self) := root, Place(root, Parent) := root] && dirs.Keys == {root};
    }

    lemma OnlyRoot(root: nat)
      ensures Inv(
        Space(map[Place(root, Self) := root, Place(root, Parent) := root], {root}, map[root := 2], map[]), root)
    {
      var ents: Ents := map[Place(root, Self) := root, Place(root, Parent) := root];
      var s := Space(ents, {root}, map[root := 2], map[]);
      assert DirOk(s, root);
      assert Refs(ents, root) == {Place(root, Self), Place(root, Parent)};
    }

    /** add_nondir: enter an inode whose link is already counted, or take the count back. */
    method AddNondir(p: Place, x: nat, room: bool) returns (r: Result)
      requires Stored() && p.dir in dirs && LabelOk(p.tag) && p.tag.Named? && p !in ents && 0 < x < U32
      requires x in nlink && nlink[x] > 0 && x !in dirs
      modifies dirs[p.dir], this`ents, this`nlink, this`dirs
      ensures Stored() && r == (if room then Success else NoSpace) && dirs == old(dirs)
      ensures room ==> ents == old(ents)[p := x] && nlink == old(nlink)
      ensures !room ==> ents == old(ents) && nlink == Lost(old(nlink), x)
    {
      hide Inv, Stored, IsEmpty, LabelOk, Without;
      r := Enter(p, x, room);
      if r != Success {
        DecLink(x);
        Iput(x);
        assert nlink == Lost(old(nlink), x);
      }
    }

    /** A place for a new entry, with a name that can be stored. */
    ghost predicate Free(p: Place)
      reads this
    {
      LabelOk(p.tag) && Vacant(Now(), p)
    }

    /** cominix_link: count the new link, then enter it, and take the count back on failure. */
    method Link(p: Place, x: nat, room: bool) returns (r: Result)
      requires Valid() && Free(p) && x in nlink && x !in dirs && p.dir in dirs
      modifies this, dirs[p.dir]
      ensures Valid() && (r == Success <==> room)
      ensures Now() == if room then Linked(old(Now()), p, x) else old(Now())
      ensures r == Success ==>
        dirs.Keys == old(dirs).Keys && ents == old(ents)[p := x] && nlink == old(nlink)[x := old(nlink)[x] + 1]
    {
      hide Inv, Stored, IsEmpty, LabelOk, Without;
      ghost var s := Now();
      LinkedKeeps(s, root, p, x);
      LinkFacts(s, x);
      IncLink(x);
      r := AddNondir(p, x, room);
      assert !room ==> nlink == s.nlink;
    }

    lemma LinkFacts(s: Space, x: nat)
      requires Inv(s, root) && Numbered(s.nlink) && x in s.nlink
      ensures 0 < x < U32 && s.nlink[x] > 0
    {
      hide Shape, Count;
    }

    /** cominix_mknod: a new inode with one link. */
    method Mknod(p: Place, x: nat, room: bool) returns (r: Result)
      requires Valid() && Free(p) && x !in nlink && 0 < x < U32 && p.dir in dirs
      modifies this, dirs[p.dir]
      ensures Valid() && (r == Success <==> room)
      ensures Now() == if room then Created(old(Now()), p, x) else old(Now())
      ensures r == Success ==>
        dirs.Keys == old(dirs).Keys && ents == old(ents)[p := x] && nlink == old(nlink)[x := 1]
    {
      hide Inv, Stored, IsEmpty, LabelOk, Without;
      ghost var s := Now();
      NewNumber(s, x);
      CreatedKeeps(s, root, p, x);
      nlink := nlink[x := 1];
      r := AddNondir(p, x, room);
      assert !room ==> nlink == s.nlink;
    }

    /** cominix_unlink */
    method Unlink(p: Place) returns (r: Result)
      requires Valid() && LabelOk(p.tag) && p.tag.Named? && p.dir in dirs && (p in ents ==> ents[p] !in dirs)
      modifies this, dirs[p.dir]
      ensures Valid() && (r == Success <==> p in old(ents)) && (r != Success ==> r == NoEntry && Now() == old(Now()))
      ensures r == Success ==> old(ents)[p] in old(nlink) && Now() == Unlinked(old(Now()), p)
      ensures r == Success ==>
        var x := old(ents)[p];
        && dirs.Keys == old(dirs).Keys && ents == old(ents) - {p}
        && nlink == if old(nlink)[x] == 1 then old(nlink) - {x} else old(nlink)[x := old(nlink)[x] - 1]
    {
      hide Inv, Stored, IsEmpty, LabelOk, Without;
      ghost var s := Now();
      var x, found := Lookup(p);
      if !found {
        return NoEntry;
      }
      EntryFacts(s, root, p);
      UnlinkedKeeps(s, root, p);
      Erase(p);
      DecLink(x);
      Iput(x);
      assert nlink == Lost(s.nlink, x);
      r := Success;
    }

    /** cominix_find_entry, with the inode that the caller has from its lookup of the same name. */
    method Lookup(p: Place) returns (x: nat, found: bool)
      requires Stored() && p.dir in dirs && LabelOk(p.tag) && p.tag.Named?
      modifies dirs[p.dir]
      ensures Stored() && (found <==> p in ents) && (found ==> x == ents[p])
    {
      hide Filed, OnlyIn, Entries, Unique, LabelOk, IsEmpty, Dir.Cells, Dir.Valid;
      var dir := dirs[p.dir];
      KeepsParts(dir, p);
      x := 0;
      ghost var k;
      var off;
      found, off, k := dir.FindEntry(p.tag.name);
      if found {
        var raw;
        x, raw := dir.ReadSlot(off, k);
      }
      SameElsewhere(ents, p.dir);
      OneChanged(p.dir, ents);
    }

    /** cominix_mkdir: with the failures of cominix_make_empty and of cominix_add_link, after which
        everything is as it was. */
    method Mkdir(p: Place, c: nat, made: bool, room: bool) returns (r: Result)
      requires Valid() && Free(p) && c !in nlink && 0 < c < U32 && p.dir in dirs
      modifies this, dirs[p.dir]
      ensures Valid() && (r == Success <==> made && room) && p.dir in old(nlink)
      ensures Now() == if made && room then Grown(old(Now()), p, c) else old(Now())
      ensures r == Success ==>
        && dirs.Keys == old(dirs).Keys + {c}
        && ents == old(ents)[Place(c, Self) := c][Place(c, Parent) := p.dir][p := c]
        && nlink == old(nlink)[p.dir := old(nlink)[p.dir] + 1][c := 2]
    {
      hide Inv, Stored, IsEmpty, LabelOk, Without;
      ghost var s := Now();
      NewNumber(s, c);
      DirFacts(s, root, p.dir);
      NewInode(p.dir, c);
      r := MakeAndEnter(p, c, made, room);
      if r != Success {
        GiveUp(p.dir, c, s);
        return;
      }
      GrownKeeps(s, root, p, c);
      at := at[c := p];
      assert nlink == s.nlink[p.dir := s.nlink[p.dir] + 1][c := 2];
    }

    /** The counts that cominix_mkdir starts with. */
    method NewInode(d: nat, c: nat)
      requires d in nlink && c !in nlink
      modifies this`nlink
      ensures nlink == old(nlink)[c := 2][d := old(nlink)[d] + 1]
    {
      nlink := nlink[c := 1];
      IncLink(d);
      IncLink(c);
    }

    /** The two steps of cominix_mkdir that can fail. */
    method MakeAndEnter(p: Place, c: nat, made: bool, room: bool) returns (r: Result)
      requires Stored() && p.dir in dirs && LabelOk(p.tag) && p.tag.Named? && p !in ents && 0 < p.dir < U32
      requires c !in dirs && 0 < c < U32 && forall p :: p in ents ==> p.dir != c
      modifies this`dirs, this`ents, dirs[p.dir]
      ensures Stored() && r == if made && room then Success else NoSpace
      ensures !made ==> ents == old(ents) && dirs.Keys == old(dirs).Keys
      ensures made ==>
        var e := old(ents)[Place(c, Self) := c][Place(c, Parent) := p.dir];
        dirs.Keys == old(dirs).Keys + {c} && ents == if room then e[p := c] else e
    {
      hide Inv, Stored, IsEmpty, LabelOk, Without;
      if !made {
        return NoSpace;
      }
      MakeDir(c, p.dir);
      r := Enter(p, c, room);
    }

    lemma NewNumber(s: Space, c: nat)
      requires Inv(s, root) && c !in s.nlink
      ensures c !in s.dirs && forall p :: p in s.ents ==> p.dir != c
    {
      hide Counted;
      NoRefs(s, root, c);
    }

    /** out_fail of cominix_mkdir. */
    method GiveUp(d: nat, c: nat, ghost s: Space)
      requires d in s.nlink && d in s.dirs && c !in s.nlink && c !in s.dirs && Stored()
      requires nlink == s.nlink[c := 2][d := s.nlink[d] + 1] && (forall p :: p in s.ents ==> p.dir != c)
      requires (ents == s.ents && dirs.Keys == s.dirs)
        || (ents == s.ents[Place(c, Self) := c][Place(c, Parent) := d] && dirs.Keys == s.dirs + {c})
      modifies this`ents, this`nlink, this`dirs
      ensures Stored() && ents == s.ents && dirs.Keys == s.dirs && nlink == s.nlink
    {
      hide Inv, Stored, IsEmpty, LabelOk, Without;
      WithoutNew(s.ents, d, c);
      DecLink(c);
      DecLink(c);
      Iput(c);
      assert nlink == s.nlink[d := s.nlink[d] + 1];
      DecLink(d);
      assert nlink == s.nlink;
    }

    lemma WithoutNew(ents: Ents, d: nat, c: nat)
      requires forall p :: p in ents ==> p.dir != c
      ensures Without(ents[Place(c, Self) := c][Place(c, Parent) := d], c) == ents
    {}

    /** cominix_rmdir */
    method Rmdir(p: Place) returns (r: Result)
      requires Valid() && p in ents && LabelOk(p.tag) && p.tag.Named? && ents[p] in dirs && p.dir in dirs
      modifies this, dirs[p.dir], dirs[ents[p]]
      ensures Valid() && (r == Success <==> IsEmpty(old(ents), old(ents)[p]))
      ensures r != Success ==> r == NotEmpty && Now() == old(Now())
      ensures r == Success ==> p.dir in old(nlink) && old(nlink)[p.dir] > 0 && Now() == Removed(old(Now()), p)
      ensures r == Success ==>
        var x := old(ents)[p];
        && dirs.Keys == old(dirs).Keys - {x} && ents == old(ents) - {p, Place(x, Self), Place(x, Parent)}
        && nlink == old(nlink)[p.dir := old(nlink)[p.dir] - 1] - {x}
    {
      hide Inv, Stored, IsEmpty, LabelOk, Without;
      ghost var s := Now();
      EntryFacts(s, root, p);
      var x, found := Lookup(p);
      var empty := CheckEmpty(x);
      if !empty {
        return NotEmpty;
      }
      TakeOut(p, x, s);
      r := Success;
    }

    /** cominix_unlink on an empty directory, and the other two links that it had. */
    method TakeOut(p: Place, x: nat, ghost s: Space)
      requires s == Space(ents, dirs.Keys, nlink, at) && Inv(s, root) && Stored() && Numbered(nlink)
      requires p in ents && p.dir in dirs && LabelOk(p.tag) && p.tag.Named? && x == ents[p] && x in dirs
        && IsEmpty(ents, x)
      modifies this, dirs[p.dir]
      ensures Valid() && p.dir in s.nlink && s.nlink[p.dir] > 0 && Now() == Removed(s, p)
    {
      hide Inv, Stored, Numbered, IsEmpty, LabelOk, Without;
      Apart(s, p, x);
      Erase(p);
      DecLink(x);
      DecLink(p.dir);
      DecLink(x);
      Iput(x);
      at := at - {x};
      assert nlink == s.nlink[p.dir := s.nlink[p.dir] - 1] - {x};
      assert ents == s.ents - {p, Place(x, Self), Place(x, Parent)};
      MakeValid(Removed(s, p), s.nlink);
    }

    /** What is known of an empty directory that is about to go. */
    lemma Apart(s: Space, p: Place, x: nat)
      requires Inv(s, root) && p in s.ents && p.tag.Named? && s.ents[p] == x && x in s.dirs && IsEmpty(s.ents, x)
      ensures p.dir in s.nlink && s.nlink[p.dir] > 0 && x in s.nlink && s.nlink[x] == 2 && p.dir != x
      ensures Inv(Removed(s, p), root)
      ensures Without(s.ents - {p}, x) == s.ents - {p} - {Place(x, Self), Place(x, Parent)}
    {
      hide Inv, Shape, Counted, DirOk, AtOk, EntryOk, Count;
      LiveEntries(s, root);
      RemovedKeeps(s, root, p);
      Outside(s, root, p);
      WithoutEmpty(s, root, x, s.ents - {p});
    }

    // ------------------------------------------------------------ cominix_rename

    /** cominix_rename: a file or a directory, to a free name or over a file or an empty directory. */
    method Rename(p: Place, q: Place, room: bool) returns (r: Result)
      requires Valid() && LabelOk(p.tag) && p.tag.Named? && p.dir in dirs && LabelOk(q.tag) && q.tag.Named?
        && q.dir in dirs
      requires p in ents && q in ents ==> ents[p] != ents[q] && (ents[p] in dirs <==> ents[q] in dirs)
      modifies this, dirs.Values
      ensures Valid() && (r != Success ==> Now() == old(Now()))
      ensures r == NoEntry <==> p !in old(ents)
      ensures r == NotEmpty <==>
        p in old(ents) && q in old(ents) && old(ents)[p] in old(dirs) && !IsEmpty(old(ents), old(ents)[q])
      ensures r == NoSpace <==> p in old(ents) && q !in old(ents) && !room
      ensures r == Success ==> Renamed(old(Now()), Now(), p, q)
      // the inode of p is now at q, and no entry is at p
      ensures r == Success ==> q in ents && ents[q] == old(ents)[p] && p !in ents
      // a directory that was moved has a new "..", one that was replaced is gone with its entries
      ensures r == Success && old(ents)[p] in old(dirs) ==>
        Place(old(ents)[p], Parent) in ents && ents[Place(old(ents)[p], Parent)] == q.dir
      ensures r == Success && q in old(ents) && old(ents)[q] in old(dirs) ==>
        forall e :: e in ents ==> e.dir != old(ents)[q]
      ensures r == Success ==> dirs.Keys == if q in old(ents) then old(dirs).Keys - {old(ents)[q]} else old(dirs).Keys
      // no other entry has changed
      ensures r == Success ==>
        forall e :: e in ents && e != q && !(e == Place(old(ents)[p], Parent) && old(ents)[p] in old(dirs)) ==>
          e in old(ents) && ents[e] == old(ents)[e]
      ensures r == Success ==>
        forall e :: e in old(ents) && e != p && e !in ents ==>
          q in old(ents) && old(ents)[q] in old(dirs) && e.dir == old(ents)[q]
    {
      hide Inv, Stored, IsEmpty, LabelOk, Without, Renamed, Vacant;
      ghost var s := Now();
      r := RenameStored(p, q, room);
      if r == Success {
        RenamedIs(s, Now(), root, p, q);
      }
    }

    /** cominix_rename, as a function of the namespace. */
    method RenameStored(p: Place, q: Place, room: bool) returns (r: Result)
      requires Valid() && LabelOk(p.tag) && p.tag.Named? && p.dir in dirs && LabelOk(q.tag) && q.tag.Named?
        && q.dir in dirs
      requires p in ents && q in ents ==> ents[p] != ents[q] && (ents[p] in dirs <==> ents[q] in dirs)
      modifies this, dirs.Values
      ensures Valid() && (r != Success ==> Now() == old(Now()))
      ensures r == NoEntry <==> p !in old(ents)
      ensures r == NotEmpty <==>
        p in old(ents) && q in old(ents) && old(ents)[p] in old(dirs) && !IsEmpty(old(ents), old(ents)[q])
      ensures r == NoSpace <==> p in old(ents) && q !in old(ents) && !room
      ensures r == Success ==> Renamed(old(Now()), Now(), p, q)
    {
      hide Inv, Stored, IsEmpty, LabelOk, Without;
      ghost var s := Now();
      var x, found := Lookup(p);
      if !found {
        return NoEntry;
      }
      var y, taken := Lookup(q);
      if taken {
        if x in dirs {
          r := ReplaceDir(p, q, x, y);
        } else {
          ReplaceFile(p, q, x, y);
          r := Success;
        }
      } else if x in dirs {
        r := MoveDir(p, q, x, room);
      } else {
        r := MoveFile(p, q, x, room);
      }
    }

    method MoveFile(p: Place, q: Place, x: nat, room: bool) returns (r: Result)
      requires Valid() && p in ents && LabelOk(p.tag) && p.tag.Named? && x == ents[p] && x !in dirs
      requires LabelOk(q.tag) && Vacant(Now(), q) && p.dir in dirs && q.dir in dirs
      modifies this, dirs[p.dir], dirs[q.dir]
      ensures Valid() && r == if room then Success else NoSpace
      ensures Now() == if room then Moved(old(Now()), p, q) else old(Now())
    {
      hide Inv, Stored, IsEmpty, LabelOk, Without;
      ghost var s := Now();
      EntryFacts(s, root, p);
      MovedKeeps(s, root, p, q);
      r := Enter(q, x, room);
      if r == Success {
        Erase(p);
      } else {
      }
    }

    method ReplaceFile(p: Place, q: Place, x: nat, y: nat)
      requires Valid() && p in ents && LabelOk(p.tag) && p.tag.Named? && x == ents[p] && x !in dirs
      requires q in ents && LabelOk(q.tag) && q.tag.Named? && y == ents[q] && y !in dirs && x != y
      requires p.dir in dirs && q.dir in dirs
      modifies this, dirs[p.dir], dirs[q.dir]
      ensures Valid() && y in old(nlink) && p in Unlinked(old(Now()), q).ents
        && Now() == Moved(Unlinked(old(Now()), q), p, q)
    {
      hide Inv, Stored, IsEmpty, LabelOk, Without;
      ghost var s := Now();
      EntryFacts(s, root, p);
      EntryFacts(s, root, q);
      UnlinkedKeeps(s, root, q);
      ghost var u := Unlinked(s, q);
      Freed(s, u, p, q);
      MovedKeeps(u, root, p, q);
      Point(q, x);
      DecLink(y);
      Erase(p);
      Iput(y);
      assert nlink == Lost(s.nlink, y);
      assert ents == u.ents[q := x] - {p};
    }

    /** The place of an entry that is gone. */
    lemma Freed(s: Space, u: Space, p: Place, q: Place)
      requires Inv(s, root) && q in s.ents && q.tag.Named? && p in s.ents && p != q && u.ents == s.ents - {q}
        && u.dirs == s.dirs
      ensures Vacant(u, q) && p in u.ents && u.ents[p] == s.ents[p]
    {
      hide Counted, DirOk, AtOk;
      EntryParts(s, q);
    }

    method MoveDir(p: Place, q: Place, x: nat, room: bool) returns (r: Result)
      requires Valid() && p in ents && LabelOk(p.tag) && p.tag.Named? && x == ents[p] && x in dirs
      requires LabelOk(q.tag) && Vacant(Now(), q) && p.dir in dirs && q.dir in dirs
      modifies this, dirs[p.dir], dirs[q.dir], dirs[x]
      ensures Valid() && r == (if room then Success else NoSpace) && p.dir in old(nlink) && q.dir in old(nlink)
      ensures Now() == if room then MovedDir(old(Now()), p, q) else old(Now())
    {
      hide Inv, Stored, Numbered, IsEmpty, LabelOk, Without;
      ghost var s := Now();
      EntryFacts(s, root, p);
      DirFacts(s, root, q.dir);
      r := Enter(q, x, room);
      if r != Success {
        return;
      }
      MovedDirKeeps(s, root, p, q);
      IncLink(q.dir);
      Erase(p);
      PointParent(x, q.dir);
      DecLink(p.dir);
      at := at[x := q];
      assert ents == s.ents[q := x][Place(x, Parent) := q.dir] - {p};
      MakeValid(MovedDir(s, p, q), s.nlink);
    }

    method ReplaceDir(p: Place, q: Place, x: nat, y: nat) returns (r: Result)
      requires Valid() && p in ents && LabelOk(p.tag) && p.tag.Named? && x == ents[p] && x in dirs
      requires q in ents && LabelOk(q.tag) && q.tag.Named? && y == ents[q] && y in dirs && x != y
      requires p.dir in dirs && q.dir in dirs
      modifies this, dirs[p.dir], dirs[q.dir], dirs[x], dirs[y]
      ensures Valid() && r == if IsEmpty(old(ents), y) then Success else NotEmpty
      ensures r == NotEmpty ==> Now() == old(Now())
      ensures r == Success ==> Replaced(old(Now()), Now(), p, q)
    {
      hide Inv, Stored, IsEmpty, LabelOk, Without;
      ghost var s := Now();
      EntryFacts(s, root, p);
      EntryFacts(s, root, q);
      var empty := CheckEmpty(y);
      if !empty {
        return NotEmpty;
      }
      PutInPlace(p, q, x, y, s);
      r := Success;
    }

    /** The stores of cominix_rename for a directory over an empty one. */
    method PutInPlace(p: Place, q: Place, x: nat, y: nat, ghost s: Space)
      requires s == Space(ents, dirs.Keys, nlink, at) && Inv(s, root) && Stored() && Numbered(nlink)
      requires 0 < x < U32 && 0 < q.dir < U32
      requires p in ents && LabelOk(p.tag) && p.tag.Named? && x == ents[p] && x in dirs && p.dir in dirs && x in nlink
      requires q in ents && LabelOk(q.tag) && q.tag.Named? && y == ents[q] && y in dirs && x != y && q.dir in dirs
      requires IsEmpty(ents, y) && p.dir in nlink && nlink[p.dir] > 0 && q.dir in nlink
      modifies this, dirs[p.dir], dirs[q.dir], dirs[x]
      ensures Valid() && Replaced(s, Now(), p, q)
    {
      hide *;
      Instead(s, p, q);
      Point(q, x);
      DecLink(y);
      DecLink(y);
      Erase(p);
      PointParent(x, q.dir);
      DecLink(p.dir);
      Iput(y);
      at := at[x := q] - {y};
      assert nlink == s.nlink[p.dir := s.nlink[p.dir] - 1] - {y};
      assert Space(ents, dirs.Keys, nlink, at) == Swapped(s, p, q);
      MakeValid(Swapped(s, p, q), s.nlink);
    }

    /** What those stores amount to. */
    ghost function Swapped(s: Space, p: Place, q: Place): Space
      requires p in s.ents && q in s.ents && p.dir in s.nlink && s.nlink[p.dir] > 0
    {
      var x, y := s.ents[p], s.ents[q];
      Space((s.ents[q := x] - {p})[Place(x, Parent) := q.dir] - {Place(y, Self), Place(y, Parent)}, s.dirs - {y},
            s.nlink[p.dir := s.nlink[p.dir] - 1] - {y}, s.at[x := q] - {y})
    }

    lemma {:induction false} Instead(s: Space, p: Place, q: Place)
      requires Inv(s, root) && p in s.ents && p.tag.Named? && q in s.ents && q.tag.Named? && s.ents[p] != s.ents[q]
      requires s.ents[p] in s.dirs && s.ents[q] in s.dirs && IsEmpty(s.ents, s.ents[q])
      requires p.dir in s.nlink && s.nlink[p.dir] > 0
      ensures var x, y := s.ents[p], s.ents[q];
        && y in s.nlink && s.nlink[y] == 2 && p.dir != y && q.dir != y && p != q
        && Swapped(s, p, q) == Space(Without((s.ents[q := x] - {p})[Place(x, Parent) := q.dir], y), s.dirs - {y},
                                     s.nlink[p.dir := s.nlink[p.dir] - 1] - {y}, s.at[x := q] - {y})
        && Replaced(s, Swapped(s, p, q), p, q) && Inv(Swapped(s, p, q), root)
    {
      hide Inv, Shape, Counted, DirOk, AtOk, EntryOk, Count, Without, IsEmpty;
      LiveEntries(s, root);
      ReplacedKeeps(s, root, p, q);
      WithoutEmpty(s, root, s.ents[q], (s.ents[q := s.ents[p]] - {p})[Place(s.ents[p], Parent) := q.dir]);
      SameReplaced(s, Swapped(s, p, q), p, q);
    }
  }
}
