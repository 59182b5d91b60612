/**
  Link counts: every live inode has as many links as there are entries of live directories that name it.

  The entries of all directories are kept in one map from (directory, name) to inode; that a directory
  is such a map, and that its operations insert, update and remove, is proved in module Directory.
*/
module Links {
  import opened Arith
  import opened Directory

  /** The name of an entry: ".", ".." or any other. */
  datatype Label = Self | Parent | Named(name: Name)

  datatype Place = Place(dir: nat, tag: Label)

  type Ents = map<Place, nat>

  /** The entries that name an inode. */
  function Refs(ents: Ents, x: nat): set<Place> {
    set p | p in ents && ents[p] == x
  }

  function Count(ents: Ents, x: nat): nat {
    |Refs(ents, x)|
  }

  function One(b: bool): nat {
    if b then 1 else 0
  }

  // ---------------------------------------------------------------- counting

  lemma CountIns(ents: Ents, p: Place, x: nat, y: nat)
    requires p !in ents
    ensures Count(ents[p := x], y) == Count(ents, y) + One(x == y)
  {
    var r, r' := Refs(ents, y), Refs(ents[p := x], y);
    assert r' == if x == y then r + {p} else r;
  }

  lemma CountDel(ents: Ents, p: Place, y: nat)
    requires p in ents
    ensures Count(ents - {p}, y) == Count(ents, y) - One(ents[p] == y)
  {
    var r, r' := Refs(ents, y), Refs(ents - {p}, y);
    assert ents[p] == y ==> p in r;
    assert r' == if ents[p] == y then r - {p} else r;
  }

  lemma CountSet(ents: Ents, p: Place, x: nat, y: nat)
    requires p in ents
    ensures Count(ents[p := x], y) == Count(ents, y) - One(ents[p] == y) + One(x == y)
  {
    CountDel(ents, p, y);
    CountIns(ents - {p}, p, x, y);
    assert (ents - {p})[p := x] == ents[p := x];
  }

  // ---------------------------------------------------------------- the invariant

  /** Entries, directories, link counts, and where the one normal entry of each directory is. */
  datatype Space = Space(ents: Ents, dirs: set<nat>, nlink: map<nat, nat>, at: map<nat, Place>)

  ghost predicate DirOk(s: Space, d: nat) {
    && d in s.nlink && Place(d, Self) in s.ents && s.ents[Place(d, Self)] == d
    && Place(d, Parent) in s.ents && s.ents[Place(d, Parent)] in s.dirs
  }

  ghost predicate EntryOk(s: Space, p: Place)
    requires p in s.ents
  {
    && p.dir in s.dirs && s.ents[p] in s.nlink
    && (p.tag.Named? && s.ents[p] in s.dirs ==> s.ents[p] in s.at && s.at[s.ents[p]] == p)
  }

  /** A directory other than the root is named by one normal entry, in the directory that is its "..". */
  ghost predicate AtOk(s: Space, c: nat)
    requires c in s.at
  {
    && s.at[c].tag.Named? && s.at[c] in s.ents && s.ents[s.at[c]] == c
    && Place(c, Parent) in s.ents && s.ents[Place(c, Parent)] == s.at[c].dir
  }

  ghost predicate Shape(s: Space, root: nat) {
    && (forall d {:trigger DirOk(s, d)} :: d in s.dirs ==> DirOk(s, d))
    && root in s.dirs && Place(root, Parent) in s.ents && s.ents[Place(root, Parent)] == root
    && s.at.Keys == s.dirs - {root}
    && (forall c {:trigger AtOk(s, c)} :: c in s.at ==> AtOk(s, c))
    && (forall p {:trigger EntryOk(s, p)} :: p in s.ents ==> EntryOk(s, p))
  }

  /** Every live inode has as many links as entries name it, and at least one. */
  ghost predicate Counted(s: Space) {
    forall x :: x in s.nlink ==> s.nlink[x] == Count(s.ents, x) && s.nlink[x] > 0
  }

  ghost predicate Inv(s: Space, root: nat) {
    Shape(s, root) && Counted(s)
  }

  /** Nothing but "." and "..". */
  predicate IsEmpty(ents: Ents, x: nat) {
    forall p :: p in ents && p.dir == x ==> !p.tag.Named?
  }

  /** An empty directory has two links: its own "." and its entry. */
  lemma {:induction false} EmptyHasTwo(s: Space, root: nat, x: nat)
    requires Shape(s, root) && x in s.at && IsEmpty(s.ents, x)
    ensures Refs(s.ents, x) == {Place(x, Self), s.at[x]} && Count(s.ents, x) == 2
    ensures forall d :: d in s.dirs ==> Place(d, Parent) in s.ents && s.ents[Place(d, Parent)] != x
  {
    assert AtOk(s, x) && DirOk(s, x);
    forall d | d in s.dirs
      ensures Place(d, Parent) in s.ents && s.ents[Place(d, Parent)] != x
    {
      assert DirOk(s, d);
      assert d != root ==> AtOk(s, d);
    }
    forall p | p in Refs(s.ents, x)
      ensures p == Place(x, Self) || p == s.at[x]
    {
      assert EntryOk(s, p);
      assert p.tag == Self ==> DirOk(s, p.dir);
      assert p.tag == Parent ==> p == Place(p.dir, Parent);
    }
    assert Refs(s.ents, x) == {Place(x, Self), s.at[x]};
  }

  // ---------------------------------------------------------------- what an operation leaves alone

  lemma DirParts(s: Space, d: nat)
    requires DirOk(s, d)
    ensures d in s.nlink && Place(d, Self) in s.ents && s.ents[Place(d, Self)] == d && Place(d, Parent) in s.ents
      && s.ents[Place(d, Parent)] in s.dirs
  {}

  lemma AtParts(s: Space, c: nat)
    requires c in s.at && AtOk(s, c)
    ensures s.at[c].tag.Named? && s.at[c] in s.ents && s.ents[s.at[c]] == c && Place(c, Parent) in s.ents
      && s.ents[Place(c, Parent)] == s.at[c].dir
  {}

  lemma EntryParts(s: Space, p: Place)
    requires p in s.ents && EntryOk(s, p)
    ensures p.dir in s.dirs && s.ents[p] in s.nlink
      && (p.tag.Named? && s.ents[p] in s.dirs ==> s.ents[p] in s.at && s.at[s.ents[p]] == p)
  {}

  predicate Same(s: Space, t: Space, p: Place) {
    p in s.ents && p in t.ents && s.ents[p] == t.ents[p]
  }

  lemma DirStays(s: Space, t: Space, d: nat)
    requires DirOk(s, d) && d in t.nlink && Same(s, t, Place(d, Self)) && Same(s, t, Place(d, Parent))
      && s.ents[Place(d, Parent)] in t.dirs
    ensures DirOk(t, d)
  {}

  lemma AtStays(s: Space, t: Space, c: nat)
    requires c in s.at && AtOk(s, c) && c in t.at && t.at[c] == s.at[c] && Same(s, t, s.at[c])
      && Same(s, t, Place(c, Parent))
    ensures AtOk(t, c)
  {}

  lemma EntryStays(s: Space, t: Space, p: Place)
    requires p in s.ents && EntryOk(s, p) && Same(s, t, p) && p.dir in t.dirs && s.ents[p] in t.nlink
    requires p.tag.Named? && s.ents[p] in t.dirs ==> s.ents[p] in s.dirs && s.ents[p] in t.at && t.at[s.ents[p]] == p
    ensures EntryOk(t, p)
  {}

  lemma NewDir(t: Space, c: nat, p: nat)
    requires c in t.nlink && Place(c, Self) in t.ents && t.ents[Place(c, Self)] == c && Place(c, Parent) in t.ents
      && t.ents[Place(c, Parent)] == p && p in t.dirs
    ensures DirOk(t, c)
  {}

  lemma NewAt(t: Space, c: nat)
    requires c in t.at && t.at[c].tag.Named? && t.at[c] in t.ents && t.ents[t.at[c]] == c
    requires Place(c, Parent) in t.ents && t.ents[Place(c, Parent)] == t.at[c].dir
    ensures AtOk(t, c)
  {}

  lemma NewEntry(t: Space, p: Place)
    requires p in t.ents && p.dir in t.dirs && t.ents[p] in t.nlink
    requires p.tag.Named? && t.ents[p] in t.dirs ==> t.ents[p] in t.at && t.at[t.ents[p]] == p
    ensures EntryOk(t, p)
  {}

  // ---------------------------------------------------------------- the operations on values

  /** One entry more for an inode that is not a directory. */
  function Linked(s: Space, p: Place, x: nat): Space
    requires x in s.nlink
  {
    s.(ents := s.ents[p := x], nlink := s.nlink[x := s.nlink[x] + 1])
  }

  /** A place for a new entry. */
  predicate Vacant(s: Space, p: Place) {
    p !in s.ents && p.dir in s.dirs && p.tag.Named?
  }

  lemma {:induction false} LinkedKeeps(s: Space, root: nat, p: Place, x: nat)
    requires Inv(s, root) && Vacant(s, p) && x in s.nlink && x !in s.dirs
    ensures Inv(Linked(s, p, x), root)
  {
    hide DirOk, AtOk, EntryOk, Count;
    var t := Linked(s, p, x);
    forall d | d in t.dirs
      ensures DirOk(t, d)
    {
      DirParts(s, d);
      DirStays(s, t, d);
    }
    forall c | c in t.at
      ensures AtOk(t, c)
    {
      AtParts(s, c);
      AtStays(s, t, c);
    }
    forall q | q in t.ents
      ensures EntryOk(t, q)
    {
      if q == p {
        NewEntry(t, p);
      } else {
        EntryParts(s, q);
        EntryStays(s, t, q);
      }
    }
    forall y | y in t.nlink
      ensures t.nlink[y] == Count(t.ents, y) && t.nlink[y] > 0
    {
      CountIns(s.ents, p, x, y);
    }
  }

  /** A new inode with one entry. */
  function Created(s: Space, p: Place, x: nat): Space {
    s.(ents := s.ents[p := x], nlink := s.nlink[x := 1])
  }

  lemma {:induction false} NoRefs(s: Space, root: nat, x: nat)
    requires Shape(s, root) && x !in s.nlink
    ensures Count(s.ents, x) == 0 && x !in s.dirs && forall p :: p in s.ents ==> p.dir != x
  {
    forall p | p in s.ents
      ensures s.ents[p] != x && p.dir != x
    {
      assert EntryOk(s, p) && DirOk(s, p.dir);
    }
    assert Refs(s.ents, x) == {};
    assert x in s.dirs ==> DirOk(s, x);
  }

  lemma {:induction false} CreatedKeeps(s: Space, root: nat, p: Place, x: nat)
    requires Inv(s, root) && Vacant(s, p) && x !in s.nlink
    ensures Inv(Created(s, p, x), root)
  {
    hide DirOk, AtOk, EntryOk, Count;
    var t := Created(s, p, x);
    NoRefs(s, root, x);
    forall d | d in t.dirs
      ensures DirOk(t, d)
    {
      DirParts(s, d);
      DirStays(s, t, d);
    }
    forall c | c in t.at
      ensures AtOk(t, c)
    {
      AtParts(s, c);
      AtStays(s, t, c);
    }
    forall q | q in t.ents
      ensures EntryOk(t, q)
    {
      if q == p {
        NewEntry(t, p);
      } else {
        EntryParts(s, q);
        EntryStays(s, t, q);
      }
    }
    forall y | y in t.nlink
      ensures t.nlink[y] == Count(t.ents, y) && t.nlink[y] > 0
    {
      CountIns(s.ents, p, x, y);
    }
  }

  /** A new directory below `p.dir`. */
  function Grown(s: Space, p: Place, c: nat): Space
    requires p.dir in s.nlink
  {
    Space(s.ents[Place(c, Self) := c][Place(c, Parent) := p.dir][p := c], s.dirs + {c},
          s.nlink[p.dir := s.nlink[p.dir] + 1][c := 2], s.at[c := p])
  }

  lemma {:induction false} GrownKeeps(s: Space, root: nat, p: Place, c: nat)
    requires Inv(s, root) && Vacant(s, p) && c !in s.nlink && p.dir in s.nlink
    ensures Inv(Grown(s, p, c), root)
  {
    hide DirOk, AtOk, EntryOk, Count;
    var t := Grown(s, p, c);
    NoRefs(s, root, c);
    DirParts(s, p.dir);
    NewDir(t, c, p.dir);
    forall d | d in t.dirs && d != c
      ensures DirOk(t, d)
    {
      DirParts(s, d);
      DirStays(s, t, d);
    }
    NewAt(t, c);
    forall d | d in t.at && d != c
      ensures AtOk(t, d)
    {
      AtParts(s, d);
      EntryParts(s, s.at[d]);
      AtStays(s, t, d);
    }
    forall q | q in t.ents
      ensures EntryOk(t, q)
    {
      if q in s.ents {
        EntryParts(s, q);
        EntryStays(s, t, q);
      } else {
        NewEntry(t, q);
      }
    }
    forall y | y in t.nlink
      ensures t.nlink[y] == Count(t.ents, y) && t.nlink[y] > 0
    {
      var e1 := s.ents[Place(c, Self) := c];
      CountIns(s.ents, Place(c, Self), c, y);
      CountIns(e1, Place(c, Parent), p.dir, y);
      CountIns(e1[Place(c, Parent) := p.dir], p, c, y);
    }
  }

  /** The link counts after one link to `x` is gone; the last one takes the inode with it. */
  function Lost(nlink: map<nat, nat>, x: nat): map<nat, nat>
    requires x in nlink
  {
    if nlink[x] <= 1 then nlink - {x} else nlink[x := nlink[x] - 1]
  }

  /** One entry less for an inode that is not a directory. */
  function Unlinked(s: Space, p: Place): Space
    requires p in s.ents && s.ents[p] in s.nlink
  {
    s.(ents := s.ents - {p}, nlink := Lost(s.nlink, s.ents[p]))
  }

  lemma LastRef(ents: Ents, p: Place)
    requires p in ents && Count(ents, ents[p]) == 1
    ensures forall q :: q in ents && q != p ==> ents[q] != ents[p]
  {
    var r := Refs(ents, ents[p]);
    assert p in r;
    forall q | q in ents && q != p
      ensures ents[q] != ents[p]
    {
      if ents[q] == ents[p] {
        assert {p, q} <= r;
        SubsetSize({p, q}, r);
        assert false;
      }
    }
  }

  lemma {:induction false} UnlinkedKeeps(s: Space, root: nat, p: Place)
    requires Inv(s, root) && p in s.ents && p.tag.Named? && s.ents[p] !in s.dirs && s.ents[p] in s.nlink
    ensures Inv(Unlinked(s, p), root)
  {
    hide DirOk, AtOk, EntryOk, Count;
    var t, x := Unlinked(s, p), s.ents[p];
    DirParts(s, root);
    if s.nlink[x] == 1 {
      LastRef(s.ents, p);
    }
    forall d | d in t.dirs
      ensures DirOk(t, d)
    {
      DirParts(s, d);
      DirStays(s, t, d);
    }
    forall c | c in t.at
      ensures AtOk(t, c)
    {
      AtParts(s, c);
      AtStays(s, t, c);
    }
    forall q | q in t.ents
      ensures EntryOk(t, q)
    {
      EntryParts(s, q);
      EntryStays(s, t, q);
    }
    forall y | y in t.nlink
      ensures t.nlink[y] == Count(t.ents, y) && t.nlink[y] > 0
    {
      CountDel(s.ents, p, y);
    }
  }

  /** An empty directory is removed. */
  function Removed(s: Space, p: Place): Space
    requires p in s.ents && p.dir in s.nlink && s.nlink[p.dir] > 0
  {
    var x := s.ents[p];
    Space(s.ents - {p, Place(x, Self), Place(x, Parent)}, s.dirs - {x}, s.nlink[p.dir := s.nlink[p.dir] - 1] - {x},
      s.at - {x})
  }

  lemma {:induction false} RemovedKeeps(s: Space, root: nat, p: Place)
    requires Inv(s, root) && p in s.ents && p.tag.Named? && s.ents[p] in s.dirs && IsEmpty(s.ents, s.ents[p])
    requires p.dir in s.nlink && s.nlink[p.dir] > 0
    ensures Inv(Removed(s, p), root) && s.ents[p] in s.nlink && s.nlink[s.ents[p]] == 2
  {
    hide DirOk, AtOk, EntryOk, Count;
    var t, x := Removed(s, p), s.ents[p];
    EntryParts(s, p);
    DirParts(s, x);
    DirParts(s, root);
    AtParts(s, x);
    EmptyHasTwo(s, root, x);
    forall d | d in t.dirs
      ensures DirOk(t, d)
    {
      DirParts(s, d);
      DirStays(s, t, d);
    }
    forall c | c in t.at
      ensures AtOk(t, c)
    {
      AtParts(s, c);
      AtStays(s, t, c);
    }
    forall q | q in t.ents
      ensures EntryOk(t, q)
    {
      EntryParts(s, q);
      assert s.ents[q] == x ==> q in Refs(s.ents, x);
      EntryStays(s, t, q);
    }
    forall y | y in t.nlink
      ensures t.nlink[y] == Count(t.ents, y) && t.nlink[y] > 0
    {
      DropCount(s.ents, p, x, y);
      if y == p.dir {
        DirParts(s, y);
        SomeRef(t.ents, Place(y, Self));
      }
    }
  }

  lemma SomeRef(ents: Ents, p: Place)
    requires p in ents
    ensures Count(ents, ents[p]) > 0
  {
    assert p in Refs(ents, ents[p]);
  }

  lemma DropCount(ents: Ents, p: Place, x: nat, y: nat)
    requires p in ents && Place(x, Self) in ents && Place(x, Parent) in ents && p.dir != x
    ensures Count(ents - {p, Place(x, Self), Place(x, Parent)}, y) ==
      Count(ents, y) - One(ents[p] == y) - One(ents[Place(x, Self)] == y) - One(ents[Place(x, Parent)] == y)
  {
    var a := ents - {p};
    var b := a - {Place(x, Self)};
    CountDel(ents, p, y);
    CountDel(a, Place(x, Self), y);
    CountDel(b, Place(x, Parent), y);
    assert b - {Place(x, Parent)} == ents - {p, Place(x, Self), Place(x, Parent)};
  }

  /** An entry moves from `p` to `q`. */
  function Moved(s: Space, p: Place, q: Place): Space
    requires p in s.ents
  {
    s.(ents := s.ents[q := s.ents[p]] - {p})
  }

  lemma {:induction false} MovedKeeps(s: Space, root: nat, p: Place, q: Place)
    requires Inv(s, root) && p in s.ents && p.tag.Named? && s.ents[p] !in s.dirs && Vacant(s, q)
    ensures Inv(Moved(s, p, q), root)
  {
    hide DirOk, AtOk, EntryOk, Count;
    var t, x := Moved(s, p, q), s.ents[p];
    EntryParts(s, p);
    DirParts(s, root);
    forall d | d in t.dirs
      ensures DirOk(t, d)
    {
      DirParts(s, d);
      DirStays(s, t, d);
    }
    forall c | c in t.at
      ensures AtOk(t, c)
    {
      AtParts(s, c);
      AtStays(s, t, c);
    }
    forall r | r in t.ents
      ensures EntryOk(t, r)
    {
      if r == q {
        NewEntry(t, q);
      } else {
        EntryParts(s, r);
        EntryStays(s, t, r);
      }
    }
    forall y | y in t.nlink
      ensures t.nlink[y] == Count(t.ents, y) && t.nlink[y] > 0
    {
      CountIns(s.ents, q, x, y);
      CountDel(s.ents[q := x], p, y);
    }
  }

  /** A directory moves from `p` to `q`, and its ".." with it. */
  function MovedDir(s: Space, p: Place, q: Place): Space
    requires p in s.ents && p.dir in s.nlink && q.dir in s.nlink
  {
    var x, up := s.ents[p], s.nlink[q.dir := s.nlink[q.dir] + 1];
    Space(s.ents[q := x][Place(x, Parent) := q.dir] - {p}, s.dirs, up[p.dir := Minus(up[p.dir])], s.at[x := q])
  }

  function Minus(n: nat): nat {
    if n == 0 then 0 else n - 1
  }

  lemma {:induction false} MovedDirKeeps(s: Space, root: nat, p: Place, q: Place)
    requires Inv(s, root) && p in s.ents && p.tag.Named? && s.ents[p] in s.dirs && Vacant(s, q) && p.dir in s.nlink
      && q.dir in s.nlink
    ensures Inv(MovedDir(s, p, q), root)
  {
    hide DirOk, AtOk, EntryOk, Count;
    var t, x := MovedDir(s, p, q), s.ents[p];
    EntryParts(s, p);
    DirParts(s, root);
    DirParts(s, x);
    DirParts(s, p.dir);
    AtParts(s, x);
    assert s.at[x] == p && x != root;
    forall d | d in t.dirs
      ensures DirOk(t, d)
    {
      DirParts(s, d);
      if d == x {
        NewDir(t, x, q.dir);
      } else {
        DirStays(s, t, d);
      }
    }
    forall c | c in t.at
      ensures AtOk(t, c)
    {
      if c == x {
        NewAt(t, x);
      } else {
        AtParts(s, c);
        AtStays(s, t, c);
      }
    }
    forall r | r in t.ents
      ensures EntryOk(t, r)
    {
      if r == q || r == Place(x, Parent) {
        NewEntry(t, r);
      } else {
        EntryParts(s, r);
        EntryStays(s, t, r);
      }
    }
    forall y | y in t.nlink
      ensures t.nlink[y] == Count(t.ents, y) && t.nlink[y] > 0
    {
      var e1 := s.ents[q := x];
      CountIns(s.ents, q, x, y);
      CountSet(e1, Place(x, Parent), q.dir, y);
      CountDel(e1[Place(x, Parent) := q.dir], p, y);
      if y == p.dir {
        SomeRef(t.ents, Place(y, Self));
      }
    }
  }

  /** What is left when the directory `x` goes with its entries. */
  function Without(ents: Ents, x: nat): Ents {
    map p | p in ents && p.dir != x :: ents[p]
  }

  lemma {:induction false} WithoutEmpty(s: Space, root: nat, x: nat, ents: Ents)
    requires Shape(s, root) && x in s.dirs && IsEmpty(s.ents, x)
    requires forall l :: Place(x, l) in ents <==> Place(x, l) in s.ents
    ensures Without(ents, x) == ents - {Place(x, Self), Place(x, Parent)}
  {
    assert DirOk(s, x);
    forall p | p in ents && p.dir == x
      ensures p == Place(x, Self) || p == Place(x, Parent)
    {
      assert p == Place(x, p.tag) && p in s.ents;
    }
  }

  /** Entries lead from live directories to live inodes, which have links. */
  lemma {:induction false} LiveEntries(s: Space, root: nat)
    requires Inv(s, root)
    ensures Shape(s, root) && forall p :: p in s.ents ==> p.dir in s.dirs && s.ents[p] in s.nlink
    ensures forall d :: d in s.dirs ==> d in s.nlink
    ensures forall x :: x in s.nlink ==> s.nlink[x] > 0
  {
    hide DirOk, AtOk, EntryOk;
    forall p | p in s.ents
      ensures p.dir in s.dirs && s.ents[p] in s.nlink
    {
      EntryParts(s, p);
    }
    forall d | d in s.dirs
      ensures d in s.nlink
    {
      DirParts(s, d);
    }
  }

  /** The entry of an empty directory is not inside it. */
  lemma {:induction false} Outside(s: Space, root: nat, p: Place)
    requires p in s.ents && p.tag.Named? && IsEmpty(s.ents, s.ents[p])
    ensures p.dir != s.ents[p]
  {}

  /** What a successful rename has done. */
  ghost predicate Renamed(s: Space, t: Space, p: Place, q: Place) {
    p in s.ents &&
    if s.ents[p] !in s.dirs then
      if q !in s.ents then t == Moved(s, p, q)
      else s.ents[q] in s.nlink && p != q && t == Moved(Unlinked(s, q), p, q)
    else
      if q !in s.ents then p.dir in s.nlink && q.dir in s.nlink && t == MovedDir(s, p, q)
      else Replaced(s, t, p, q)
  }

  /** The empty directory at `q` is removed and the directory at `p` moved there. */
  ghost predicate Replaced(s: Space, t: Space, p: Place, q: Place) {
    && q in s.ents && q.dir in s.nlink && s.nlink[q.dir] > 0
    && var u := Removed(s, q);
    && p in u.ents && p.dir in u.nlink && q.dir in u.nlink && t == MovedDir(u, p, q)
  }

  lemma {:induction false} ReplacedKeeps(s: Space, root: nat, p: Place, q: Place)
    requires Inv(s, root) && p in s.ents && p.tag.Named? && q in s.ents && q.tag.Named? && s.ents[p] != s.ents[q]
    requires s.ents[p] in s.dirs && s.ents[q] in s.dirs && IsEmpty(s.ents, s.ents[q])
    ensures q.dir in s.nlink && s.nlink[q.dir] > 0 && s.ents[q] in s.nlink && s.nlink[s.ents[q]] == 2
    ensures var u := Removed(s, q);
      p in u.ents && p.dir in u.nlink && q.dir in u.nlink && Inv(MovedDir(u, p, q), root)
    ensures p.dir != s.ents[q] && q.dir != s.ents[q]
    ensures Place(s.ents[q], Parent) in s.ents && s.ents[Place(s.ents[q], Parent)] == q.dir
  {
    hide Inv, Shape, Counted, DirOk, AtOk, EntryOk, Count;
    LiveEntries(s, root);
    RemovedKeeps(s, root, q);
    ParentIs(s, root, q);
    var u := Removed(s, q);
    LiveEntries(u, root);
    MovedDirKeeps(u, root, p, q);
  }

  lemma ParentIs(s: Space, root: nat, q: Place)
    requires Inv(s, root) && q in s.ents && q.tag.Named? && s.ents[q] in s.dirs
    ensures Place(s.ents[q], Parent) in s.ents && s.ents[Place(s.ents[q], Parent)] == q.dir
  {
    hide DirOk;
    assert EntryOk(s, q) && AtOk(s, s.ents[q]);
  }

  lemma SameReplaced(s: Space, t: Space, p: Place, q: Place)
    requires p in s.ents && q in s.ents && q.dir in s.nlink && s.nlink[q.dir] > 0 && s.ents[q] in s.nlink
    requires p.dir in s.nlink && s.nlink[p.dir] > 0 && p != q && p.tag.Named? && q.tag.Named? && p.dir != s.ents[q]
      && q.dir != s.ents[q] && s.ents[p] != s.ents[q]
    requires var x, y := s.ents[p], s.ents[q];
      && t.ents == (s.ents[q := x] - {p})[Place(x, Parent) := q.dir] - {Place(y, Self), Place(y, Parent)}
      && t.dirs == s.dirs - {y} && t.at == s.at[x := q] - {y} && t.nlink == s.nlink[p.dir := s.nlink[p.dir] - 1] - {y}
    ensures Replaced(s, t, p, q)
  {
    var u := Removed(s, q);
    var w := MovedDir(u, p, q);
    assert t.ents == w.ents;
    assert t.nlink == w.nlink;
    assert t.at == w.at;
  }

  // ---------------------------------------------------------------- runs

  /** One operation that succeeds; the others leave everything as it was. */
  ghost predicate Step(s: Space, t: Space) {
    || (exists p, x :: Vacant(s, p) && x in s.nlink && x !in s.dirs && t == Linked(s, p, x))
    || (exists p, x :: Vacant(s, p) && x !in s.nlink && t == Created(s, p, x))
    || (exists p, c :: Vacant(s, p) && c !in s.nlink && p.dir in s.nlink && t == Grown(s, p, c))
    || (exists p :: p in s.ents && p.tag.Named? && s.ents[p] !in s.dirs && s.ents[p] in s.nlink && t == Unlinked(s, p))
    || (exists p :: p in s.ents && p.tag.Named? && s.ents[p] in s.dirs && IsEmpty(s.ents, s.ents[p])
                    && p.dir in s.nlink && s.nlink[p.dir] > 0 && t == Removed(s, p))
    || (exists p, q :: Renames(s, p, q) && Renamed(s, t, p, q))
  }

  /** What the callers of cominix_rename see to, and its own test for an empty directory. */
  ghost predicate Renames(s: Space, p: Place, q: Place) {
    && p in s.ents && p.tag.Named? && q.tag.Named? && q.dir in s.dirs
    && (q in s.ents ==> s.ents[p] != s.ents[q] && (s.ents[p] in s.dirs <==> s.ents[q] in s.dirs))
    && (q in s.ents && s.ents[p] in s.dirs ==> IsEmpty(s.ents, s.ents[q]))
  }

  lemma {:induction false} RenamedKeeps(s: Space, t: Space, root: nat, p: Place, q: Place)
    requires Inv(s, root) && Renames(s, p, q) && Renamed(s, t, p, q)
    ensures Inv(t, root)
  {
    hide Inv, Shape, Counted, DirOk, AtOk, EntryOk, Count, IsEmpty;
    LiveEntries(s, root);
    if s.ents[p] !in s.dirs {
      if q !in s.ents {
        MovedKeeps(s, root, p, q);
      } else {
        UnlinkedKeeps(s, root, q);
        MovedKeeps(Unlinked(s, q), root, p, q);
      }
    } else if q !in s.ents {
      MovedDirKeeps(s, root, p, q);
    } else {
      ReplacedKeeps(s, root, p, q);
    }
  }

  /** A rename in plain terms: the inode of `p` is now at `q`, no entry is at `p`, a directory that was
      moved has a new "..", one that was replaced is gone with its entries, and no other entry has changed. */
  lemma {:induction false} RenamedIs(s: Space, t: Space, root: nat, p: Place, q: Place)
    requires Inv(s, root) && Renames(s, p, q) && Renamed(s, t, p, q)
    ensures q in t.ents && t.ents[q] == s.ents[p] && p !in t.ents
    ensures var x := s.ents[p];
      x in s.dirs ==> Place(x, Parent) in t.ents && t.ents[Place(x, Parent)] == q.dir
    ensures forall r :: r in t.ents && r != q && !(r == Place(s.ents[p], Parent) && s.ents[p] in s.dirs) ==>
      r in s.ents && t.ents[r] == s.ents[r]
    ensures forall r :: r in s.ents && r != p && r !in t.ents ==>
      q in s.ents && s.ents[q] in s.dirs && r.dir == s.ents[q]
    ensures q in s.ents && s.ents[q] in s.dirs ==> forall r :: r in t.ents ==> r.dir != s.ents[q]
    ensures t.dirs == if q in s.ents then s.dirs - {s.ents[q]} else s.dirs
  {
    hide Inv, Counted, Count;
    LiveEntries(s, root);
    var x := s.ents[p];
    if x in s.dirs {
      ParentIs(s, root, p);
      if q in s.ents {
        ReplacedKeeps(s, root, p, q);
        EmptyPlaces(s, root, s.ents[q]);
      }
    }
  }

  /** The entries that an empty directory holds. */
  lemma EmptyPlaces(s: Space, root: nat, y: nat)
    requires Shape(s, root) && y in s.dirs && IsEmpty(s.ents, y)
    ensures forall r :: r in s.ents && r.dir == y ==> r == Place(y, Self) || r == Place(y, Parent)
  {
    assert DirOk(s, y);
    forall r | r in s.ents && r.dir == y
      ensures r == Place(y, Self) || r == Place(y, Parent)
    {
      assert r == Place(y, r.tag);
    }
  }

  /** The link counts after a rename: a file that was replaced has one link less, or none and is gone; a
      directory that was moved counts for its new parent, and one that was replaced is gone. */
  lemma {:induction false} RenamedCounts(s: Space, t: Space, root: nat, p: Place, q: Place)
    requires Inv(s, root) && Renames(s, p, q) && Renamed(s, t, p, q)
    ensures s.ents[p] !in s.dirs && q !in s.ents ==> t.nlink == s.nlink
    ensures s.ents[p] !in s.dirs && q in s.ents ==>
      && s.ents[q] in s.nlink
      && t.nlink == if s.nlink[s.ents[q]] == 1 then s.nlink - {s.ents[q]}
                    else s.nlink[s.ents[q] := s.nlink[s.ents[q]] - 1]
    ensures s.ents[p] in s.dirs ==> p.dir in s.nlink && s.nlink[p.dir] > 0 && q.dir in s.nlink
    ensures s.ents[p] in s.dirs && q !in s.ents ==>
      t.nlink == if p.dir == q.dir then s.nlink
                 else s.nlink[p.dir := s.nlink[p.dir] - 1][q.dir := s.nlink[q.dir] + 1]
    ensures s.ents[p] in s.dirs && q in s.ents ==>
      t.nlink == s.nlink[p.dir := s.nlink[p.dir] - 1] - {s.ents[q]}
  {
    hide Inv, Shape, Counted, Count, IsEmpty;
    LiveEntries(s, root);
    if s.ents[p] in s.dirs && q in s.ents {
      ReplacedKeeps(s, root, p, q);
    }
  }

  lemma {:induction false} StepKeeps(s: Space, t: Space, root: nat)
    requires Inv(s, root) && Step(s, t)
    ensures Inv(t, root)
  {
    hide Inv, Linked, Created, Grown, Unlinked, Removed, Renamed, Renames, IsEmpty;
    if p, x :| Vacant(s, p) && x in s.nlink && x !in s.dirs && t == Linked(s, p, x) {
      LinkedKeeps(s, root, p, x);
    } else if p, x :| Vacant(s, p) && x !in s.nlink && t == Created(s, p, x) {
      CreatedKeeps(s, root, p, x);
    } else if p, c :| Vacant(s, p) && c !in s.nlink && p.dir in s.nlink && t == Grown(s, p, c) {
      GrownKeeps(s, root, p, c);
    } else if p :| p in s.ents && p.tag.Named? && s.ents[p] !in s.dirs && s.ents[p] in s.nlink && t == Unlinked(s, p) {
      UnlinkedKeeps(s, root, p);
    } else if p :| p in s.ents && p.tag.Named? && s.ents[p] in s.dirs && IsEmpty(s.ents, s.ents[p])
                   && p.dir in s.nlink && s.nlink[p.dir] > 0 && t == Removed(s, p) {
      RemovedKeeps(s, root, p);
    } else {
      var p, q :| Renames(s, p, q) && Renamed(s, t, p, q);
      RenamedKeeps(s, t, root, p, q);
    }
  }

  /** In every state of every run each live inode has exactly as many links as entries name it. */
  lemma {:induction false} EveryRun(run: seq<Space>, root: nat, k: nat)
    requires run != [] && Inv(run[0], root) && k < |run|
    requires forall i :: 0 <= i < |run| - 1 ==> Step(run[i], run[i + 1])
    ensures Inv(run[k], root) && forall x :: x in run[k].nlink ==> run[k].nlink[x] == |Refs(run[k].ents, x)|
    decreases k
  {
    if k > 0 {
      EveryRun(run, root, k - 1);
      assert Step(run[k - 1], run[k - 1 + 1]);
      StepKeeps(run[k - 1], run[k], root);
    }
  }
}
