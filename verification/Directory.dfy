/** Directories (dir.c): an array of 64-byte slots that stands for a map from names to inodes. */
module Directory {
  import opened Arith
  import opened Bytes

  const PAGE: nat := 4096
  const DIRSIZE: nat := 64
  const NAMELEN: nat := 60
  const DOT: Byte := 46

  type Name = seq<Byte>

  predicate NameOk(name: Name) {
    0 < |name| <= NAMELEN && 0 !in name
  }

  // ---------------------------------------------------------------- names in slots

  /** The bytes before the first NUL, like strnlen. */
  function UpToNul(raw: seq<Byte>): (s: Name)
    ensures |s| <= |raw| && s == raw[..|s|] && 0 !in s && (|s| < |raw| ==> raw[|s|] == 0)
  {
    if raw == [] || raw[0] == 0 then [] else [raw[0]] + UpToNul(raw[1..])
  }

  /** namecompare: nothing longer than `name` in the buffer, and the same bytes. */
  predicate NameCompare(name: Name, buffer: seq<Byte>)
    requires |name| <= |buffer|
  {
    !(|name| < |buffer| && buffer[|name|] != 0) && buffer[..|name|] == name
  }

  /** The comparison is exact for names without NUL. */
  lemma {:induction false} NameCompareExact(name: Name, buffer: seq<Byte>)
    requires |name| <= |buffer| && 0 !in name
    ensures NameCompare(name, buffer) <==> UpToNul(buffer) == name
    decreases |name|
  {
    if name != [] {
      var b := buffer[1..];
      NameCompareExact(name[1..], b);
      assert name == [name[0]] + name[1..] && buffer == [buffer[0]] + b;
      assert buffer[..|name|] == [buffer[0]] + b[..|name| - 1];
      assert name[0] in name;
      assert |name| < |buffer| ==> buffer[|name|] == b[|name| - 1];
    }
  }

  /** A name padded with NULs is read back. */
  lemma PaddedName(name: Name, n: nat)
    requires 0 !in name && |name| <= n
    ensures UpToNul(name + Zeros(n - |name|)) == name
  {
    var raw := name + Zeros(n - |name|);
    assert NameCompare(name, raw);
    NameCompareExact(name, raw);
  }

  // ---------------------------------------------------------------- slots

  datatype Cell = Cell(ino: nat, name: Name)

  function SlotBytes(data: seq<Byte>, k: nat): (s: seq<Byte>)
    requires DIRSIZE * k + DIRSIZE <= |data|
    ensures |s| == DIRSIZE
  {
    Sub(data, DIRSIZE * k, DIRSIZE)
  }

  function CellOf(s: seq<Byte>): Cell
    requires |s| == DIRSIZE
  {
    Cell(Dec(s[..4]), UpToNul(s[4..]))
  }

  /** The first `n` slots. */
  function View(data: seq<Byte>, n: nat): (cs: seq<Cell>)
    requires DIRSIZE * n <= |data|
    ensures |cs| == n
  {
    seq(n, k requires 0 <= k < n => CellOf(SlotBytes(data, k)))
  }

  /** Overwriting one slot changes one cell. */
  lemma ViewPut(data: seq<Byte>, n: nat, k: nat, s: seq<Byte>)
    requires DIRSIZE * n <= |data| && DIRSIZE * k + DIRSIZE <= |data| && |s| == DIRSIZE
    ensures k < n ==> View(Put(data, DIRSIZE * k, s), n) == View(data, n)[k := CellOf(s)]
    ensures k >= n ==> View(Put(data, DIRSIZE * k, s), n) == View(data, n)
    ensures SlotBytes(Put(data, DIRSIZE * k, s), k) == s
  {
    hide *;
    SlotPut(data, k, s, k);
    forall j | 0 <= j < n && j != k
      ensures CellOf(SlotBytes(Put(data, DIRSIZE * k, s), j)) == CellOf(SlotBytes(data, j))
    {
      SlotPut(data, k, s, j);
    }
    ViewIs(Put(data, DIRSIZE * k, s), data, n, k, s);
  }

  lemma SlotPut(data: seq<Byte>, k: nat, s: seq<Byte>, j: nat)
    requires DIRSIZE * k + DIRSIZE <= |data| && DIRSIZE * j + DIRSIZE <= |data| && |s| == DIRSIZE
    ensures DIRSIZE == 64 && SlotBytes(Put(data, DIRSIZE * k, s), j) == if j == k then s else SlotBytes(data, j)
  {
    hide Put;
    SubPut(data, DIRSIZE * k, s, DIRSIZE * j, DIRSIZE);
    assert s[0..DIRSIZE] == s;
  }

  lemma ViewIs(d: seq<Byte>, data: seq<Byte>, n: nat, k: nat, s: seq<Byte>)
    requires DIRSIZE * n <= |data| == |d| && |s| == DIRSIZE && DIRSIZE * k + DIRSIZE <= |data| && SlotBytes(d, k) == s
    requires forall j :: 0 <= j < n && j != k ==> CellOf(SlotBytes(d, j)) == CellOf(SlotBytes(data, j))
    ensures View(d, n) == if k < n then View(data, n)[k := CellOf(s)] else View(data, n)
  {
    hide CellOf, SlotBytes;
  }

  lemma ViewMore(data: seq<Byte>, n: nat)
    requires DIRSIZE * (n + 1) <= |data|
    ensures View(data, n + 1) == View(data, n) + [CellOf(SlotBytes(data, n))]
  {}

  /** The bytes of a slot: the inode number, the name and NULs. */
  function Fill(ino: nat, name: Name): (s: seq<Byte>)
    requires |name| <= NAMELEN
    ensures |s| == DIRSIZE
  {
    Enc(ino, 4) + (name + Zeros(NAMELEN - |name|))
  }

  lemma FillCell(ino: nat, name: Name)
    requires |name| <= NAMELEN && 0 !in name && ino < U32
    ensures CellOf(Fill(ino, name)) == Cell(ino, name)
  {
    var s := Fill(ino, name);
    assert Pow256(4) == U32;
    DecEnc(ino, 4);
    assert s[..4] == Enc(ino, 4) && s[4..] == name + Zeros(NAMELEN - |name|);
    PaddedName(name, NAMELEN);
  }

  /** In the 64 bytes of a slot the inode number comes first, low byte first, then the name, then NULs. */
  lemma SlotLayout(ino: nat, name: Name)
    requires |name| <= 60 && ino < U32
    ensures |Fill(ino, name)| == 64 && Dec(Fill(ino, name)[..4]) == ino && Fill(ino, name)[4..4 + |name|] == name
    ensures forall i :: 4 + |name| <= i < 64 ==> Fill(ino, name)[i] == 0
  {
    assert Pow256(4) == U32;
    DecEnc(ino, 4);
    assert Fill(ino, name)[..4] == Enc(ino, 4);
  }

  /** A store to the inode field alone. */
  lemma InoCell(s: seq<Byte>, ino: nat)
    requires |s| == DIRSIZE && ino < U32
    ensures CellOf(Put(s, 0, Enc(ino, 4))) == Cell(ino, CellOf(s).name)
  {
    var t := Put(s, 0, Enc(ino, 4));
    assert Pow256(4) == U32;
    DecEnc(ino, 4);
    assert t[..4] == Enc(ino, 4) && t[4..] == s[4..];
  }

  // ---------------------------------------------------------------- slots as a map

  /** The first live slot with a name. */
  function Lookup(cs: seq<Cell>, name: Name): nat {
    if cs == [] then 0
    else if cs[0].ino != 0 && cs[0].name == name then cs[0].ino
    else Lookup(cs[1..], name)
  }

  function NamesIn(cs: seq<Cell>): set<Name> {
    set k | 0 <= k < |cs| && cs[k].ino != 0 :: cs[k].name
  }

  /** The map that the slots stand for. */
  function Entries(cs: seq<Cell>): map<Name, nat> {
    map name | name in NamesIn(cs) :: Lookup(cs, name)
  }

  /** No name twice. */
  predicate Unique(cs: seq<Cell>) {
    forall j, k :: 0 <= j < k < |cs| && cs[j].ino != 0 && cs[k].ino != 0 ==> cs[j].name != cs[k].name
  }

  lemma {:induction false} LookupIs(cs: seq<Cell>, name: Name)
    ensures Lookup(cs, name) != 0 <==> name in NamesIn(cs)
    ensures Unique(cs) ==> forall k :: 0 <= k < |cs| && cs[k].ino != 0 && cs[k].name == name ==>
      Lookup(cs, name) == cs[k].ino
    decreases |cs|
  {
    if cs != [] {
      LookupIs(cs[1..], name);
      if cs[0].ino == 0 || cs[0].name != name {
        forall k | 0 <= k < |cs| && cs[k].ino != 0 && cs[k].name == name
          ensures name in NamesIn(cs[1..]) && (Unique(cs) ==> Lookup(cs, name) == cs[k].ino)
        {
          assert cs[1..][k - 1] == cs[k];
        }
        assert name in NamesIn(cs[1..]) ==> name in NamesIn(cs) by {
          if name in NamesIn(cs[1..]) {
            var k :| 0 <= k < |cs[1..]| && cs[1..][k].ino != 0 && cs[1..][k].name == name;
            assert cs[k + 1].name == name;
          }
        }
      }
    }
  }

  /** What the map holds, slot by slot. */
  lemma EntriesAt(cs: seq<Cell>, k: nat)
    requires Unique(cs) && k < |cs| && cs[k].ino != 0
    ensures cs[k].name in Entries(cs) && Entries(cs)[cs[k].name] == cs[k].ino
  {
    LookupIs(cs, cs[k].name);
  }

  /** Two lists of slots with the same live (name, inode) pairs are the same map. */
  lemma SameEntries(cs: seq<Cell>, m: map<Name, nat>)
    requires Unique(cs)
    requires forall k :: 0 <= k < |cs| && cs[k].ino != 0 ==> cs[k].name in m && m[cs[k].name] == cs[k].ino
    requires forall name :: name in m ==> exists k :: 0 <= k < |cs| && cs[k].ino != 0 && cs[k].name == name
    ensures Entries(cs) == m
  {
    forall name | name in NamesIn(cs)
      ensures name in m && Lookup(cs, name) == m[name]
    {
      LookupIs(cs, name);
      var k :| 0 <= k < |cs| && cs[k].ino != 0 && cs[k].name == name;
    }
  }

  predicate Has(cs: seq<Cell>, name: Name) {
    exists k :: 0 <= k < |cs| && cs[k].ino != 0 && cs[k].name == name
  }

  lemma InEntries(cs: seq<Cell>, name: Name)
    ensures name in Entries(cs) <==> Has(cs, name)
  {}

  /** A live slot stored where there was none. */
  lemma EntriesInsert(cs: seq<Cell>, k: nat, ino: nat, name: Name)
    requires Unique(cs) && k <= |cs| && (k < |cs| ==> cs[k].ino == 0) && ino != 0 && name !in Entries(cs)
    ensures var cs' := if k < |cs| then cs[k := Cell(ino, name)] else cs + [Cell(ino, name)];
      Unique(cs') && Entries(cs') == Entries(cs)[name := ino]
  {
    hide Entries;
    var cs' := if k < |cs| then cs[k := Cell(ino, name)] else cs + [Cell(ino, name)];
    var m := Entries(cs)[name := ino];
    forall j | 0 <= j < |cs| && cs[j].ino != 0
      ensures cs[j].name != name && cs'[j] == cs[j] && cs[j].name in m && m[cs[j].name] == cs[j].ino
    {
      EntriesAt(cs, j);
    }
    forall x | x in m
      ensures exists j :: 0 <= j < |cs'| && cs'[j].ino != 0 && cs'[j].name == x
    {
      if x == name {
        assert cs'[k].name == x;
      } else {
        InEntries(cs, x);
        var j :| 0 <= j < |cs| && cs[j].ino != 0 && cs[j].name == x;
        assert cs'[j].name == x;
      }
    }
    SameEntries(cs', m);
  }

  /** A live slot whose inode field is overwritten. */
  lemma EntriesSet(cs: seq<Cell>, k: nat, ino: nat)
    requires Unique(cs) && k < |cs| && cs[k].ino != 0
    ensures var cs' := cs[k := Cell(ino, cs[k].name)];
      Unique(cs') && Entries(cs') == if ino == 0 then Entries(cs) - {cs[k].name} else Entries(cs)[cs[k].name := ino]
  {
    hide Entries;
    var cs', name := cs[k := Cell(ino, cs[k].name)], cs[k].name;
    var m := if ino == 0 then Entries(cs) - {name} else Entries(cs)[name := ino];
    forall j | 0 <= j < |cs| && j != k && cs[j].ino != 0
      ensures cs[j].name != name && cs'[j] == cs[j] && cs[j].name in m && m[cs[j].name] == cs[j].ino
    {
      EntriesAt(cs, j);
    }
    forall x | x in m
      ensures exists j :: 0 <= j < |cs'| && cs'[j].ino != 0 && cs'[j].name == x
    {
      if x == name {
        assert cs'[k].name == x;
      } else {
        InEntries(cs, x);
        var j :| 0 <= j < |cs| && cs[j].ino != 0 && cs[j].name == x;
        assert cs'[j].name == x;
      }
    }
    SameEntries(cs', m);
  }

  // ---------------------------------------------------------------- directories

  /** The first slot that is free, or the number of slots. */
  function FirstFree(cs: seq<Cell>): (k: nat)
    ensures k <= |cs| && (k < |cs| ==> cs[k].ino == 0) && forall j :: 0 <= j < k ==> cs[j].ino != 0
  {
    if cs == [] || cs[0].ino == 0 then 0 else 1 + FirstFree(cs[1..])
  }

  /** The slots after an entry has been stored in the first free one. */
  function Stored(cs: seq<Cell>, ino: nat, name: Name): seq<Cell> {
    var k := FirstFree(cs);
    if k < |cs| then cs[k := Cell(ino, name)] else cs + [Cell(ino, name)]
  }

  /** Whether cominix_add_link notices that the name is taken: only before the first free slot. */
  predicate Noticed(cs: seq<Cell>, name: Name) {
    exists k :: 0 <= k < FirstFree(cs) && cs[k].name == name
  }

  /** No live slot before `k` has the name. */
  predicate Absent(cs: seq<Cell>, k: nat, name: Name) {
    forall j :: 0 <= j < k && j < |cs| && cs[j].ino != 0 ==> cs[j].name != name
  }

  lemma AbsentMore(cs: seq<Cell>, k: nat, name: Name)
    requires k < |cs| && Absent(cs, k, name) && !(cs[k].ino != 0 && cs[k].name == name)
    ensures Absent(cs, k + 1, name)
  {}

  /** Every slot before `k` is live and has another name. */
  predicate Passed(cs: seq<Cell>, k: nat, name: Name) {
    forall j :: 0 <= j < k && j < |cs| ==> cs[j].ino != 0 && cs[j].name != name
  }

  lemma NonePassed(cs: seq<Cell>, name: Name)
    ensures Passed(cs, 0, name)
  {}

  lemma {:induction false} FreeAt(cs: seq<Cell>, k: nat)
    requires k <= |cs| && (k < |cs| ==> cs[k].ino == 0) && forall j :: 0 <= j < k ==> cs[j].ino != 0
    ensures FirstFree(cs) == k
    decreases k
  {
    if k > 0 {
      FreeAt(cs[1..], k - 1);
    }
  }

  lemma {:induction false} SeenAt(cs: seq<Cell>, k: nat)
    requires k < |cs| && forall j :: 0 <= j <= k ==> cs[j].ino != 0
    ensures k < FirstFree(cs)
    decreases k
  {
    if k > 0 {
      SeenAt(cs[1..], k - 1);
    }
  }

  lemma PassedTo(cs: seq<Cell>, k: nat, name: Name)
    requires k <= |cs| && Passed(cs, k, name) && (k < |cs| ==> cs[k].ino == 0)
    ensures FirstFree(cs) == k && !Noticed(cs, name)
  {
    FreeAt(cs, k);
  }

  lemma PassedMore(cs: seq<Cell>, k: nat, name: Name)
    requires k < |cs| && Passed(cs, k, name) && cs[k].ino != 0
    ensures if cs[k].name == name then Noticed(cs, name) else Passed(cs, k + 1, name)
  {
    SeenAt(cs, k);
  }

  datatype Errno = Zero | EEXIST | ENOSPC

  class Dir {
    const ino: nat
    var data: seq<Byte>  // the page cache: whole pages, the last perhaps only in part below i_size
    var size: nat        // i_size

    predicate Valid()
      reads this
    {
      size % DIRSIZE == 0 && |data| % PAGE == 0 && size <= |data|
    }

    ghost function Cells(): (cs: seq<Cell>)
      requires Valid()
      reads this
      ensures |cs| == size / DIRSIZE
    {
      View(data, size / DIRSIZE)
    }

    /** dir_pages */
    function Pages(): nat
      reads this
    {
      (size + PAGE - 1) / PAGE
    }

    /** cominix_last_byte */
    function LastByte(page: nat): nat
      reads this
    {
      if page == size / PAGE then size % PAGE else PAGE
    }

    /** A directory that has no pages yet. */
    constructor (ino: nat)
      ensures Valid() && this.ino == ino && size == 0 && data == []
    {
      this.ino, data, size := ino, [], 0;
    }

    /** dir_get_folio: a page beyond the end is a hole, and comes up as zeros. */
    method GetPage(n: nat)
      requires Valid() && PAGE * n <= |data|
      modifies this`data
      ensures Valid() && PAGE * n + PAGE <= |data| && old(data) <= data
      ensures Cells() == old(Cells())
    {
      ghost var d := data;
      if PAGE * n == |data| {
        data := data + Zeros(PAGE);
      }
      ViewSame(d, data, size / DIRSIZE);
    }

    lemma ViewSame(d: seq<Byte>, d': seq<Byte>, n: nat)
      requires d <= d' && DIRSIZE * n <= |d|
      ensures View(d', n) == View(d, n)
    {
      forall k | 0 <= k < n
        ensures SlotBytes(d', k) == SlotBytes(d, k)
      {
        assert d'[DIRSIZE * k..DIRSIZE * k + DIRSIZE] == d[DIRSIZE * k..DIRSIZE * k + DIRSIZE];
      }
    }

    /** The part of a page that is below i_size. */
    lemma LastByteIs(n: nat)
      requires Valid() && n < Pages()
      ensures PAGE * n + LastByte(n) == (if size < PAGE * n + PAGE then size else PAGE * n + PAGE)
      ensures LastByte(n) % DIRSIZE == 0 && LastByte(n) <= PAGE
    {
      var q, r := size / PAGE, size % PAGE;
      assert size == PAGE * q + r;
      assert Pages() == if r == 0 then q else q + 1;
    }

    /** Where a new entry goes in a page that is full up to i_size. */
    lemma DirEndIs(n: nat)
      requires Valid() && n <= Pages() && PAGE * n <= size
      ensures PAGE * n + LastByte(n) == (if size < PAGE * n + PAGE then size else PAGE * n + PAGE)
      ensures LastByte(n) % DIRSIZE == 0 && LastByte(n) <= PAGE && (n == Pages() ==> LastByte(n) == 0)
    {
      var q, r := size / PAGE, size % PAGE;
      assert size == PAGE * q + r && n <= q;
      assert Pages() == if r == 0 then q else q + 1;
    }

    /** The inode number and the name field of slot `k`. */
    method ReadSlot(at: nat, ghost k: nat) returns (inumber: nat, raw: seq<Byte>)
      requires Valid() && at == DIRSIZE * k && k < size / DIRSIZE
      ensures |raw| == NAMELEN && Cells()[k] == Cell(inumber, UpToNul(raw))
    {
      inumber := Dec(Sub(data, at, 4));
      raw := Sub(data, at + 4, NAMELEN);
      ghost var s := SlotBytes(data, k);
      assert s[..4] == Sub(data, at, 4) && s[4..] == raw;
    }

    /** The inner loop of cominix_find_entry. */
    method FindInPage(n: nat, name: Name, ghost cs: seq<Cell>, ghost lo: nat)
      returns (found: bool, at: nat, ghost k: nat)
      requires Valid() && NameOk(name) && n < Pages() && cs == Cells() && lo == DIRSIZE * n && Absent(cs, lo, name)
      ensures found ==> at == DIRSIZE * k && k < |cs| && cs[k].ino != 0 && cs[k].name == name && Absent(cs, k, name)
      ensures !found ==> k <= |cs| && Absent(cs, k, name) && (k == lo + DIRSIZE || k == |cs|)
    {
      hide Cells, Absent;
      LastByteIs(n);
      k := lo;
      var p := 0;
      while p + DIRSIZE <= LastByte(n)
        invariant p <= LastByte(n) && PAGE * n + p == DIRSIZE * k && k <= |cs| && Absent(cs, k, name)
      {
        var inumber, raw := ReadSlot(PAGE * n + p, k);
        NameCompareExact(name, raw);
        if inumber != 0 && NameCompare(name, raw) {
          return true, PAGE * n + p, k;
        }
        AbsentMore(cs, k, name);
        p, k := p + DIRSIZE, k + 1;
      }
      found, at := false, 0;
    }

    /** cominix_find_entry: the byte offset of the first live slot with the name, or none. */
    method FindEntry(name: Name) returns (found: bool, at: nat, ghost k: nat)
      requires Valid() && NameOk(name)
      modifies this`data
      ensures Valid() && Cells() == old(Cells())
      ensures found <==> Has(Cells(), name)
      ensures found ==>
        at == DIRSIZE * k && k < |Cells()| && Cells()[k].ino != 0 && Cells()[k].name == name && Absent(Cells(), k, name)
      ensures (found <==> name in Entries(Cells())) && (found ==> Entries(Cells())[name] == Cells()[k].ino)
    {
      hide Cells, Entries;
      FoundIs(Cells(), name);
      ghost var cs := Cells();
      var n := 0;
      k := 0;
      while n < Pages()
        invariant Valid() && Cells() == cs && PAGE * n <= |data| && n <= Pages()
        invariant k <= |cs| && Absent(cs, k, name) && (k == DIRSIZE * n || k == |cs|)
      {
        GetPage(n);
        found, at, k := FindInPage(n, name, cs, DIRSIZE * n);
        if found {
          return;
        }
        n := n + 1;
      }
      found, at := false, 0;
    }

    /** cominix_add_link: store the entry in the first free slot, which may be the one after the last;
        the name counts as taken only if it is seen before that.  Without `room` for the slot
        cominix_prepare_chunk fails, and no slot has changed. */
    method AddLink(name: Name, inode: nat, room: bool) returns (err: Errno)
      requires Valid() && NameOk(name) && inode < U32
      modifies this`data, this`size
      ensures Valid()
      ensures err == EEXIST <==> Noticed(old(Cells()), name)
      ensures err == ENOSPC <==> !Noticed(old(Cells()), name) && !room
      ensures Cells() == if err == Zero then Stored(old(Cells()), inode, name) else old(Cells())
      ensures old(Unique(Cells()) && name !in Entries(Cells())) && inode != 0 && room ==>
        err == Zero && Unique(Cells()) && Entries(Cells()) == old(Entries(Cells()))[name := inode]
    {
      hide Cells, Passed, LastByte, Entries, Unique, Noticed;
      AddAbsent(Cells(), inode, name);
      ghost var cs := Cells();
      var n, npages := 0, Pages();
      ghost var k := 0;
      NonePassed(cs, name);
      while n <= npages
        invariant Valid() && Cells() == cs && size == old(size) && n <= npages == Pages() && PAGE * n == DIRSIZE * k
        invariant k <= |cs| && Passed(cs, k, name)
        decreases npages + 1 - n
      {
        GetPage(n);
        var got, at;
        err, got, at, k := AddInPage(n, name, cs, k);
        if err == EEXIST {
          return;
        }
        if got {
          if !room {
            return ENOSPC;
          }
          StoreEntry(at, k, name, inode);
          return;
        }
        n := n + 1;
      }
      assert false;  // the BUG() after the loop
    }

    /** The inner loop of cominix_add_link; the slot at i_size is marked as free. */
    method AddInPage(n: nat, name: Name, ghost cs: seq<Cell>, ghost lo: nat)
      returns (err: Errno, got: bool, at: nat, ghost k: nat)
      requires Valid() && NameOk(name) && n <= Pages() && PAGE * n + PAGE <= |data| && cs == Cells()
        && PAGE * n == DIRSIZE * lo && lo <= |cs| && Passed(cs, lo, name)
      modifies this`data
      ensures Valid() && Cells() == cs && |data| == |old(data)| && err != ENOSPC
      ensures err == EEXIST ==> Noticed(cs, name)
      ensures err == Zero && got ==>
        at == DIRSIZE * k && k == FirstFree(cs) && !Noticed(cs, name) && at + DIRSIZE <= |data|
      ensures err == Zero && !got ==> n < Pages() && DIRSIZE * k == PAGE * n + PAGE && k <= |cs| && Passed(cs, k, name)
    {
      hide Cells, Passed, Noticed, FirstFree, LastByte;
      DirEndIs(n);
      var dirEnd := LastByte(n);
      k, at := lo, 0;
      var p := 0;
      while p + DIRSIZE <= PAGE
        invariant p <= PAGE && PAGE * n + p == DIRSIZE * k && k <= |cs| && p <= dirEnd && Passed(cs, k, name)
        invariant data == old(data)
      {
        at := PAGE * n + p;
        if p == dirEnd {
          FreeAtEnd(at, k);
          PassedTo(cs, k, name);
          return Zero, true, at, k;
        }
        var inumber, raw := ReadSlot(at, k);
        if inumber == 0 {
          PassedTo(cs, k, name);
          return Zero, true, at, k;
        }
        NameCompareExact(name, raw);
        PassedMore(cs, k, name);
        if NameCompare(name, raw) {
          return EEXIST, false, at, k;
        }
        p, k := p + DIRSIZE, k + 1;
      }
      err, got := Zero, false;
    }

    /** The inode field of the slot at i_size is cleared. */
    method FreeAtEnd(at: nat, ghost k: nat)
      requires Valid() && at == DIRSIZE * k && size / DIRSIZE <= k && at + DIRSIZE <= |data|
      modifies this`data
      ensures Valid() && Cells() == old(Cells()) && |data| == |old(data)|
    {
      hide CellOf;
      ghost var d := data;
      var s := Put(Sub(data, at, DIRSIZE), 0, Enc(0, 4));
      ViewPut(d, size / DIRSIZE, k, s);
      data := Put(data, at, Enc(0, 4));
      assert data == Put(d, at, s);
    }

    /** The stores at got_it, and the growth of i_size by dir_commit_chunk. */
    method StoreEntry(at: nat, ghost k: nat, name: Name, inode: nat)
      requires Valid() && NameOk(name) && inode < U32 && at == DIRSIZE * k && at + DIRSIZE <= |data|
        && k <= size / DIRSIZE
      modifies this`data, this`size
      ensures Valid() && size == (if at + DIRSIZE > old(size) then at + DIRSIZE else old(size))
      ensures Cells() == if k < |old(Cells())| then old(Cells())[k := Cell(inode, name)]
        else old(Cells()) + [Cell(inode, name)]
    {
      hide CellOf, SlotBytes;
      ghost var d := data;
      FillCell(inode, name);
      ViewPut(d, size / DIRSIZE, k, Fill(inode, name));
      data := Put(data, at, Fill(inode, name));
      if at + DIRSIZE > size {
        ViewMore(data, k);
        size := at + DIRSIZE;
      }
    }

    /** The store to the inode field of slot `k` that cominix_set_link and cominix_delete_entry make. */
    method WriteIno(at: nat, ghost k: nat, inode: nat)
      requires Valid() && at == DIRSIZE * k && k < size / DIRSIZE && inode < U32
      modifies this`data
      ensures Valid() && Cells() == old(Cells())[k := Cell(inode, old(Cells())[k].name)]
    {
      hide CellOf;
      ghost var d := data;
      var s := Put(Sub(data, at, DIRSIZE), 0, Enc(inode, 4));
      InoCell(SlotBytes(data, k), inode);
      ViewPut(d, size / DIRSIZE, k, s);
      SubPut(data, at, Enc(inode, 4), at, DIRSIZE);
      data := Put(data, at, Enc(inode, 4));
      assert data == Put(d, at, s);
    }

    /** cominix_set_link: the name of slot `k` now leads to `inode`. */
    method SetLink(at: nat, ghost k: nat, inode: nat)
      requires Valid() && at == DIRSIZE * k && k < size / DIRSIZE && 0 < inode < U32 && Unique(Cells())
        && Cells()[k].ino != 0
      modifies this`data
      ensures Valid() && Unique(Cells()) && Entries(Cells()) == old(Entries(Cells()))[old(Cells())[k].name := inode]
      ensures Cells() == old(Cells())[k := Cell(inode, old(Cells())[k].name)]
    {
      hide Cells, Entries, Unique;
      EntriesSet(Cells(), k, inode);
      WriteIno(at, k, inode);
    }

    /** cominix_delete_entry: the name of slot `k` is gone. */
    method DeleteEntry(at: nat, ghost k: nat)
      requires Valid() && at == DIRSIZE * k && k < size / DIRSIZE && Unique(Cells()) && Cells()[k].ino != 0
      modifies this`data
      ensures Valid() && Unique(Cells()) && Entries(Cells()) == old(Entries(Cells())) - {old(Cells())[k].name}
      ensures Cells() == old(Cells())[k := Cell(0, old(Cells())[k].name)]
    {
      hide Cells, Entries, Unique;
      EntriesSet(Cells(), k, 0);
      WriteIno(at, k, 0);
    }

    /** cominix_make_empty: a page of zeros with "." and "..". */
    method MakeEmpty(parent: nat)
      requires Valid() && size == 0 && ino < U32 && parent < U32
      modifies this`data, this`size
      ensures Valid() && Cells() == [Cell(ino, [DOT]), Cell(parent, [DOT, DOT])]
      ensures ino != 0 && parent != 0 ==> Unique(Cells()) && Entries(Cells()) == map[[DOT] := ino, [DOT, DOT] := parent]
    {
      hide CellOf, Fill, Entries;
      DotEntries(ino, parent);
      GetPage(0);
      data := Zeros(PAGE) + data[PAGE..];
      FillCell(ino, [DOT]);
      FillCell(parent, [DOT, DOT]);
      ViewPut(data, 0, 0, Fill(ino, [DOT]));
      data := Put(data, 0, Fill(ino, [DOT]));
      ghost var d := data;
      ViewPut(d, 1, 1, Fill(parent, [DOT, DOT]));
      data := Put(data, DIRSIZE, Fill(parent, [DOT, DOT]));
      size := 2 * DIRSIZE;
      ViewMore(d, 0);
      ViewMore(data, 1);
    }

    /** What an empty directory may hold, among its first `n` slots. */
    predicate DotsOnly(cs: seq<Cell>, n: nat) {
      forall k :: 0 <= k < n && k < |cs| && cs[k].ino != 0 ==>
        (cs[k].name == [DOT] && cs[k].ino == ino) || cs[k].name == [DOT, DOT]
    }

    lemma DotsInMap(cs: seq<Cell>)
      ensures Unique(cs) ==>
        (DotsOnly(cs, |cs|) <==> forall name :: name in Entries(cs) ==>
          (name == [DOT] && Entries(cs)[name] == ino) || name == [DOT, DOT])
    {
      hide Entries;
      if Unique(cs) {
        forall k | 0 <= k < |cs| && cs[k].ino != 0
          ensures cs[k].name in Entries(cs) && Entries(cs)[cs[k].name] == cs[k].ino
        {
          EntriesAt(cs, k);
        }
        forall name | name in Entries(cs)
          ensures Has(cs, name)
        {
          InEntries(cs, name);
        }
      }
    }

    lemma DotsMore(cs: seq<Cell>, k: nat)
      requires k < |cs| && DotsOnly(cs, k)
      ensures DotsOnly(cs, k + 1) <==>
        cs[k].ino == 0 || (cs[k].name == [DOT] && cs[k].ino == ino) || cs[k].name == [DOT, DOT]
      ensures !DotsOnly(cs, k + 1) ==> !DotsOnly(cs, |cs|)
    {}

    /** cominix_empty_dir */
    method EmptyDir() returns (empty: bool)
      requires Valid()
      modifies this`data
      ensures Valid() && Cells() == old(Cells()) && empty == DotsOnly(Cells(), |Cells()|)
      ensures Unique(Cells()) ==>
        (empty <==> forall name :: name in Entries(Cells()) ==>
          (name == [DOT] && Entries(Cells())[name] == ino) || name == [DOT, DOT])
    {
      hide Cells, Entries, Unique;
      DotsInMap(Cells());
      ghost var cs := Cells();
      var i := 0;
      ghost var k: nat := 0;
      while i < Pages()
        invariant Valid() && Cells() == cs && PAGE * i <= |data| && i <= Pages()
        invariant k <= |cs| && DotsOnly(cs, k) && (k == DIRSIZE * i || k == |cs|)
      {
        GetPage(i);
        empty, k := DotsInPage(i, cs, DIRSIZE * i);
        if !empty {
          return;
        }
        i := i + 1;
      }
      empty := true;
    }

    /** The inner loop of cominix_empty_dir. */
    method DotsInPage(i: nat, ghost cs: seq<Cell>, ghost lo: nat) returns (empty: bool, ghost k: nat)
      requires Valid() && i < Pages() && cs == Cells() && lo == DIRSIZE * i && DotsOnly(cs, lo)
      ensures !empty ==> !DotsOnly(cs, |cs|)
      ensures empty ==> k <= |cs| && DotsOnly(cs, k) && (k == lo + DIRSIZE || k == |cs|)
    {
      hide Cells, DotsOnly;
      LastByteIs(i);
      k := lo;
      var p := 0;
      while p + DIRSIZE <= LastByte(i)
        invariant p <= LastByte(i) && PAGE * i + p == DIRSIZE * k && k <= |cs| && DotsOnly(cs, k)
      {
        var inumber, name := ReadSlot(PAGE * i + p, k);
        DotNames(name);
        DotsMore(cs, k);
        if inumber != 0 {
          if name[0] != DOT {
            return false, k;
          }
          if name[1] == 0 {
            if inumber != ino {
              return false, k;
            }
          } else if name[1] != DOT {
            return false, k;
          } else if name[2] != 0 {
            return false, k;
          }
        }
        p, k := p + DIRSIZE, k + 1;
      }
      empty := true;
    }
  }

  lemma DotEntries(ino: nat, parent: nat)
    requires ino < U32 && parent < U32
    ensures var cs := [Cell(ino, [DOT]), Cell(parent, [DOT, DOT])];
      ino != 0 && parent != 0 ==> Unique(cs) && Entries(cs) == map[[DOT] := ino, [DOT, DOT] := parent]
  {
    var cs := [Cell(ino, [DOT]), Cell(parent, [DOT, DOT])];
    if ino != 0 && parent != 0 {
      assert cs[0].name == [DOT] && cs[1].name == [DOT, DOT];
      assert |cs[0].name| != |cs[1].name|;
      SameEntries(cs, map[[DOT] := ino, [DOT, DOT] := parent]);
    }
  }

  /** What cominix_find_entry finds is what the map holds. */
  lemma {:induction false} FoundIs(cs: seq<Cell>, name: Name)
    ensures Has(cs, name) <==> name in Entries(cs)
    ensures forall k :: 0 <= k < |cs| && cs[k].ino != 0 && cs[k].name == name && Absent(cs, k, name) ==>
      Entries(cs)[name] == cs[k].ino
  {
    forall k | 0 <= k < |cs| && cs[k].ino != 0 && cs[k].name == name && Absent(cs, k, name)
      ensures Lookup(cs, name) == cs[k].ino
    {
      LookupFirst(cs, name, k);
    }
  }

  lemma {:induction false} LookupFirst(cs: seq<Cell>, name: Name, k: nat)
    requires k < |cs| && cs[k].ino != 0 && cs[k].name == name && Absent(cs, k, name)
    ensures Lookup(cs, name) == cs[k].ino
    decreases k
  {
    if k > 0 {
      forall j | 0 <= j < k - 1 && j < |cs[1..]| && cs[1..][j].ino != 0
        ensures cs[1..][j].name != name
      {
        assert cs[1..][j] == cs[j + 1];
      }
      LookupFirst(cs[1..], name, k - 1);
    }
  }

  /** Adding a name that is not there is an insertion. */
  lemma AddAbsent(cs: seq<Cell>, ino: nat, name: Name)
    ensures Unique(cs) && name !in Entries(cs) && ino != 0 ==>
      !Noticed(cs, name) && Unique(Stored(cs, ino, name)) && Entries(Stored(cs, ino, name)) == Entries(cs)[name := ino]
  {
    hide Entries, Unique;
    if Unique(cs) && name !in Entries(cs) && ino != 0 {
      InEntries(cs, name);
      EntriesInsert(cs, FirstFree(cs), ino, name);
    }
  }

  /** Adding a name that is there is refused exactly when its slot comes before the first free one;
      otherwise the name ends up in two slots. */
  lemma {:induction false} AddPresent(cs: seq<Cell>, k: nat, ino: nat)
    requires Unique(cs) && k < |cs| && cs[k].ino != 0 && ino != 0
    ensures Noticed(cs, cs[k].name) <==> k < FirstFree(cs)
    ensures !Noticed(cs, cs[k].name) ==> !Unique(Stored(cs, ino, cs[k].name))
  {
    var f, name := FirstFree(cs), cs[k].name;
    var r := Stored(cs, ino, name);
    if k >= f {
      assert r[f].name == name && r[k] == cs[k] && f != k;
      assert f < k;
    }
  }

  /** A directory in which "a" was deleted and "b" comes after it. */
  function FreedThenB(): seq<Cell> {
    [Cell(2, [DOT]), Cell(1, [DOT, DOT]), Cell(0, ['a' as int]), Cell(7, ['b' as int])]
  }

  /** Adding "b" there is not refused: the directory then names it twice, and a search finds the new inode. */
  lemma {:induction false} AddedTwice()
    ensures var cs, b := FreedThenB(), ['b' as int];
      && Unique(cs) && Entries(cs) == map[[DOT] := 2, [DOT, DOT] := 1, b := 7] && !Noticed(cs, b)
      && Stored(cs, 9, b) == [Cell(2, [DOT]), Cell(1, [DOT, DOT]), Cell(9, b), Cell(7, b)]
      && !Unique(Stored(cs, 9, b)) && Lookup(Stored(cs, 9, b), b) == 9
  {
    hide Lookup, FirstFree;
    var cs, b := FreedThenB(), ['b' as int];
    FirstFreeAt(cs, 2);
    assert [DOT][0] != b[0] && |[DOT, DOT]| == 2 && |b| == 1;
    assert NamesIn(cs) == {[DOT], [DOT, DOT], b} by {
      assert cs[0].name in NamesIn(cs) && cs[1].name in NamesIn(cs) && cs[3].name in NamesIn(cs);
    }
    LookupFirst(cs, [DOT], 0);
    LookupFirst(cs, [DOT, DOT], 1);
    LookupFirst(cs, b, 3);
    AddPresent(cs, 3, 9);
    LookupFirst(Stored(cs, 9, b), b, 2);
  }

  lemma {:induction false} FirstFreeAt(cs: seq<Cell>, k: nat)
    requires k < |cs| && cs[k].ino == 0 && forall j :: 0 <= j < k ==> cs[j].ino != 0
    ensures FirstFree(cs) == k
  {
    var f := FirstFree(cs);
    assert !(f < k) && !(k < f);
  }

  /** Two names told from their first bytes. */
  lemma DotNames(raw: seq<Byte>)
    requires |raw| >= 3
    ensures UpToNul(raw) == [DOT] <==> raw[0] == DOT && raw[1] == 0
    ensures UpToNul(raw) == [DOT, DOT] <==> raw[0] == DOT && raw[1] == DOT && raw[2] == 0
  {
    NameCompareExact([DOT], raw);
    NameCompareExact([DOT, DOT], raw);
  }
}
