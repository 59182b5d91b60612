/**
  The list of (location, size) entries of a chunked file (linked_list.h): blocks of entries, each
  ending in the number of the next block.
*/
module ChunkList {
  import opened Arith
  import opened Bytes
  import opened BlockPath
  import opened Trees
  import opened Volumes
  import opened Dedup

  const ENTRY_SIZE: nat := 16

  /** entries_per_block: the space of one entry is kept for the next field. */
  function PerBlock(bs: nat): int {
    bs / ENTRY_SIZE - 1
  }

  /** As many entries as fit before the last four bytes, which hold the number of the next block. */
  lemma PerBlockIs(bs: nat, k: nat)
    requires bs >= 1024 && bs % 16 == 0
    ensures 16 * k + 4 <= bs <==> k <= PerBlock(bs)
  {}

  function EntryBytes(e: Entry): (s: seq<Byte>)
    ensures |s| == ENTRY_SIZE
  {
    Enc(e.loc, 8) + Enc(e.size, 8)
  }

  function EntryAt(b: seq<Byte>, i: nat): Entry
    requires 16 * i + 16 <= |b|
  {
    Entry(Dec(Sub(b, 16 * i, 8)), Dec(Sub(b, 16 * i + 8, 8)))
  }

  /** A block of the list: its slots, and the next block or 0. */
  datatype ListNode = ListNode(slots: seq<Entry>, next: nat)

  predicate ListBlock(b: seq<Byte>) {
    |b| >= 64 && |b| % 16 == 0
  }

  function NodeOf(b: seq<Byte>): (n: ListNode)
    requires ListBlock(b)
    ensures |n.slots| == PerBlock(|b|)
  {
    ListNode(seq(PerBlock(|b|), i requires 0 <= i < PerBlock(|b|) => EntryAt(b, i)), Dec(Sub(b, |b| - 4, 4)))
  }

  /** The location comes first, and the next field last. */
  lemma EntryLayout(e: Entry, b: seq<Byte>)
    requires e.loc < U64 && e.size < U64 && ListBlock(b)
    ensures Dec(EntryBytes(e)[0..8]) == e.loc && Dec(EntryBytes(e)[8..16]) == e.size
    ensures NodeOf(b).next == Dec(b[|b| - 4..])
  {
    Pow256Is();
    DecEnc(e.loc, 8);
    DecEnc(e.size, 8);
    assert EntryBytes(e)[0..8] == Enc(e.loc, 8) && EntryBytes(e)[8..16] == Enc(e.size, 8);
    assert Sub(b, |b| - 4, 4) == b[|b| - 4..];
  }

  lemma EntryCoding(e: Entry)
    requires e.loc < U64 && e.size < U64
    ensures EntryAt(EntryBytes(e), 0) == e
  {
    Pow256Is();
    DecEnc(e.loc, 8);
    DecEnc(e.size, 8);
    assert Sub(EntryBytes(e), 0, 8) == Enc(e.loc, 8);
    assert Sub(EntryBytes(e), 8, 8) == Enc(e.size, 8);
  }

  lemma SubApart(b: seq<Byte>, off: nat, s: seq<Byte>, o: nat, n: nat)
    requires off + |s| <= |b| && o + n <= |b| && (o + n <= off || off + |s| <= o)
    ensures Sub(Put(b, off, s), o, n) == Sub(b, o, n)
  {
    SubPut(b, off, s, o, n);
  }

  lemma SlotPut(b: seq<Byte>, i: nat, e: Entry, j: nat)
    requires ListBlock(b) && i < PerBlock(|b|) && j < PerBlock(|b|) && e.loc < U64 && e.size < U64
    ensures EntryAt(Put(b, 16 * i, EntryBytes(e)), j) == if j == i then e else EntryAt(b, j)
  {
    hide Put, Dec, Enc, EntryBytes;
    var s := EntryBytes(e);
    if i == j {
      EntryCoding(e);
      SubPut(b, 16 * i, s, 16 * i, 8);
      SubPut(b, 16 * i, s, 16 * i + 8, 8);
    } else {
      SubApart(b, 16 * i, s, 16 * j, 8);
      SubApart(b, 16 * i, s, 16 * j + 8, 8);
    }
  }

  lemma PutEntry(b: seq<Byte>, i: nat, e: Entry)
    requires ListBlock(b) && i < PerBlock(|b|) && e.loc < U64 && e.size < U64
    ensures NodeOf(Put(b, 16 * i, EntryBytes(e))) == ListNode(NodeOf(b).slots[i := e], NodeOf(b).next)
  {
    hide EntryAt, EntryBytes;
    var b' := Put(b, 16 * i, EntryBytes(e));
    forall j | 0 <= j < PerBlock(|b|)
      ensures NodeOf(b').slots[j] == NodeOf(b).slots[i := e][j]
    {
      SlotPut(b, i, e, j);
    }
    SubPut(b, 16 * i, EntryBytes(e), |b| - 4, 4);
  }

  lemma PutNext(b: seq<Byte>, z: nat)
    requires ListBlock(b) && z < U32
    ensures NodeOf(Put(b, |b| - 4, Enc(z, 4))) == ListNode(NodeOf(b).slots, z)
  {
    hide Put, Dec, Enc;
    var s := Enc(z, 4);
    var b' := Put(b, |b| - 4, s);
    forall j | 0 <= j < PerBlock(|b|)
      ensures NodeOf(b').slots[j] == NodeOf(b).slots[j]
    {
      SubApart(b, |b| - 4, s, 16 * j, 8);
      SubApart(b, |b| - 4, s, 16 * j + 8, 8);
    }
    SubPut(b, |b| - 4, s, |b| - 4, 4);
    assert s[0..4] == s;
    Pow256Is();
    DecEnc(z, 4);
  }

  function NoEntries(n: nat): (s: seq<Entry>)
    ensures |s| == n && forall i :: 0 <= i < n ==> s[i] == Entry(0, 0)
  {
    seq(n, _ => Entry(0, 0))
  }

  lemma ZeroNode(n: nat)
    requires ListBlock(Zeros(n))
    ensures NodeOf(Zeros(n)) == ListNode(NoEntries(PerBlock(n)), 0)
  {
    var b := Zeros(n);
    DecZeros(8);
    DecZeros(4);
    assert Sub(b, n - 4, 4) == Zeros(4);
    forall j | 0 <= j < PerBlock(n)
      ensures NodeOf(b).slots[j] == Entry(0, 0)
    {
      assert Sub(b, 16 * j, 8) == Zeros(8) && Sub(b, 16 * j + 8, 8) == Zeros(8);
    }
  }

  // ---------------------------------------------------------------- what a chain of blocks stands for

  /** Entries at the front of a block, the rest of it zero. */
  function Padded(es: seq<Entry>, n: nat): (r: seq<Entry>)
    requires |es| <= n
    ensures |r| == n && forall i :: 0 <= i < n ==> r[i] == if i < |es| then es[i] else Entry(0, 0)
  {
    es + NoEntries(n - |es|)
  }

  /** The blocks `zs` hold exactly the entries `es`, in order and packed: every block but the last is
      full and names the next, and the last is followed by none. */
  ghost predicate ListIn(bl: Blocks, bs: nat, zs: seq<nat>, es: seq<Entry>)
    decreases |zs|
  {
    && zs != [] && zs[0] != 0 && zs[0] in bl && |bl[zs[0]]| == bs && ListBlock(bl[zs[0]])
    && if |zs| == 1 then
         |es| <= PerBlock(bs) && NodeOf(bl[zs[0]]) == ListNode(Padded(es, PerBlock(bs)), 0)
       else
         && |es| > PerBlock(bs) && NodeOf(bl[zs[0]]) == ListNode(es[..PerBlock(bs)], zs[1])
         && ListIn(bl, bs, zs[1..], es[PerBlock(bs)..])
  }

  /** Entries can be stored, and none looks like an unused slot. */
  predicate Fit(es: seq<Entry>) {
    forall i :: 0 <= i < |es| ==> 0 < es[i].size < U64 && es[i].loc < U64
  }

  lemma {:induction false} ListFrame(bl: Blocks, bl': Blocks, bs: nat, zs: seq<nat>, es: seq<Entry>)
    requires ListIn(bl, bs, zs, es) && forall z :: z in zs && z in bl ==> z in bl' && bl'[z] == bl[z]
    ensures ListIn(bl', bs, zs, es)
    decreases |zs|
  {
    if |zs| > 1 {
      ListFrame(bl, bl', bs, zs[1..], es[PerBlock(bs)..]);
    }
  }

  /** As many blocks as the entries need. */
  lemma {:induction false} ListPacked(bl: Blocks, bs: nat, zs: seq<nat>, es: seq<Entry>)
    requires ListIn(bl, bs, zs, es)
    ensures PerBlock(bs) > 0 && |es| <= |zs| * PerBlock(bs) && (es == [] ==> |zs| == 1)
      && (es != [] ==> (|zs| - 1) * PerBlock(bs) < |es|)
    decreases |zs|
  {
    if |zs| > 1 {
      ListPacked(bl, bs, zs[1..], es[PerBlock(bs)..]);
    }
  }

  /** How many blocks a list of `n` entries needs. */
  function ListBlocks(n: nat, bs: nat): nat {
    if PerBlock(bs) <= 0 || n == 0 then 1 else Quot(n + PerBlock(bs) - 1, PerBlock(bs))
  }

  lemma ListBlocksIs(n: nat, bs: nat, m: nat)
    requires PerBlock(bs) > 0 && n > 0 && m > 0 && (m - 1) * PerBlock(bs) < n <= m * PerBlock(bs)
    ensures ListBlocks(n, bs) == m
  {
    var k := PerBlock(bs);
    assert n + k - 1 == m * k + (n - 1 - (m - 1) * k) by { assert m * k == (m - 1) * k + k; }
    DivUnique(m, n - 1 - (m - 1) * k, k);
  }

  lemma ListBlocksMono(n: nat, m: nat, bs: nat)
    requires n <= m
    ensures 1 <= ListBlocks(n, bs) <= ListBlocks(m, bs)
  {
    var k := PerBlock(bs);
    if k > 0 && m > 0 {
      DivMod(m + k - 1, k, 1);
      DivMod(m + k - 1, k, if n == 0 then 0 else Quot(n + k - 1, k));
      if n > 0 {
        DivMod(n + k - 1, k, 1);
        DivMod(n + k - 1, k, Quot(m + k - 1, k) + 1);
        assert (Quot(m + k - 1, k) + 1) * k == Quot(m + k - 1, k) * k + k;
      }
    }
  }

  /** A list has as many blocks as its entries need, and a full one is followed by another. */
  lemma ListNeeds(bl: Blocks, bs: nat, zs: seq<nat>, es: seq<Entry>)
    requires ListIn(bl, bs, zs, es)
    ensures |zs| == ListBlocks(|es|, bs) && PerBlock(bs) > 0
    ensures es != [] && |es| % PerBlock(bs) == 0 ==> ListBlocks(|es| + 1, bs) == |zs| + 1
  {
    hide ListIn;
    ListPacked(bl, bs, zs, es);
    var k, m := PerBlock(bs), |zs|;
    if es != [] {
      ListBlocksIs(|es|, bs, m);
      if |es| % k == 0 {
        DivMod(|es|, k, m);
        var q := |es| / k;
        if q < m {
          MulMono(q, m - 1, k, k);
        } else if q > m {
          MulMono(m + 1, q, k, k);
        }
        assert (m + 1) * k == m * k + k;
        ListBlocksIs(|es| + 1, bs, m + 1);
      }
    }
  }

  lemma ModStep(n: nat, e: nat)
    requires 0 < e <= n
    ensures n % e == (n - e) % e
  {
    ModAddMul(1, n - e, e);
  }

  /** The last block of the list, and the slot that the next entry goes to. */
  lemma {:induction false} ListEnd(bl: Blocks, bs: nat, zs: seq<nat>, es: seq<Entry>)
    requires ListIn(bl, bs, zs, es)
    ensures zs != [] && PerBlock(bs) > 0 && zs[|zs| - 1] in bl && |bl[zs[|zs| - 1]]| == bs
      && ListBlock(bl[zs[|zs| - 1]]) && zs[|zs| - 1] != 0
    decreases |zs|
  {
    if |zs| > 1 {
      ListEnd(bl, bs, zs[1..], es[PerBlock(bs)..]);
    }
  }

  /** An entry stored in the next free slot of the last block. */
  lemma {:induction false} AppendHere(bl: Blocks, bl': Blocks, bs: nat, zs: seq<nat>, es: seq<Entry>, e: Entry)
    requires ListIn(bl, bs, zs, es) && Distinct(zs) && PerBlock(bs) > 0 && (es == [] || |es| % PerBlock(bs) != 0)
    requires forall z :: z in zs && z in bl && z != zs[|zs| - 1] ==> z in bl' && bl'[z] == bl[z]
    requires var y := zs[|zs| - 1];
      && y in bl && ListBlock(bl[y]) && |bl[y]| == bs && y in bl' && ListBlock(bl'[y]) && |bl'[y]| == bs
      && NodeOf(bl'[y]) == ListNode(NodeOf(bl[y]).slots[|es| % PerBlock(bs) := e], NodeOf(bl[y]).next)
    ensures ListIn(bl', bs, zs, es + [e])
    decreases |zs|
  {
    var k := PerBlock(bs);
    if |zs| > 1 {
      ModStep(|es|, k);
      AppendHere(bl, bl', bs, zs[1..], es[k..], e);
      assert (es + [e])[..k] == es[..k] && (es + [e])[k..] == es[k..] + [e];
      assert zs[0] != zs[|zs| - 1];
    } else {
      SmallMod(|es|, k);
      assert Padded(es, k)[|es| := e] == Padded(es + [e], k);
    }
  }

  lemma SmallMod(n: nat, k: nat)
    requires 0 < k && n <= k
    ensures n < k ==> n % k == n
    ensures n % k == 0 <==> n == 0 || n == k
  {
    if n < k { DivUnique(0, n, k); } else { DivUnique(1, 0, k); }
  }

  /** A new last block with one entry, after a full one. */
  lemma {:induction false} AppendBlock(bl: Blocks, bl': Blocks, bs: nat, zs: seq<nat>, es: seq<Entry>, z: nat, e: Entry)
    requires ListIn(bl, bs, zs, es) && Distinct(zs) && PerBlock(bs) > 0 && es != [] && |es| % PerBlock(bs) == 0
      && z !in zs && z != 0
    requires forall y :: y in zs && y in bl && y != zs[|zs| - 1] ==> y in bl' && bl'[y] == bl[y]
    requires var y := zs[|zs| - 1];
      && y in bl && ListBlock(bl[y]) && |bl[y]| == bs && y in bl' && ListBlock(bl'[y]) && |bl'[y]| == bs
      && NodeOf(bl'[y]) == ListNode(NodeOf(bl[y]).slots, z)
    requires z in bl' && |bl'[z]| == bs && ListBlock(bl'[z])
      && NodeOf(bl'[z]) == ListNode(NoEntries(PerBlock(bs))[0 := e], 0)
    ensures ListIn(bl', bs, zs + [z], es + [e])
    decreases |zs|
  {
    var k := PerBlock(bs);
    if |zs| > 1 {
      ModStep(|es|, k);
      AppendBlock(bl, bl', bs, zs[1..], es[k..], z, e);
      assert (es + [e])[..k] == es[..k] && (es + [e])[k..] == es[k..] + [e] && (zs + [z])[1..] == zs[1..] + [z];
      assert zs[0] != zs[|zs| - 1];
    } else {
      SmallMod(|es|, k);
      assert (es + [e])[..k] == es == Padded(es, k) && (es + [e])[k..] == [e] && (zs + [z])[1..] == [z];
      assert Padded([e], k) == NoEntries(k)[0 := e];
    }
  }

  // ---------------------------------------------------------------- searching by position

  /** The sizes of the first `k` entries together. */
  function Prefix(es: seq<Entry>, k: nat): nat
    requires k <= |es|
  {
    if k == 0 then 0 else Prefix(es, k - 1) + es[k - 1].size
  }

  function Total(es: seq<Entry>): nat {
    Prefix(es, |es|)
  }

  datatype Found = Found(entry: Entry, accum: nat)

  /** The first entry that ends after `pos`, when the sizes are counted from `accum` on. */
  function Locate(es: seq<Entry>, pos: nat, accum: nat): Found {
    if es == [] then Found(Entry(0, 0), accum)
    else if pos < accum + es[0].size then Found(es[0], accum)
    else Locate(es[1..], pos, accum + es[0].size)
  }

  lemma {:induction false} PrefixShift(es: seq<Entry>, k: nat)
    requires es != [] && k < |es|
    ensures Prefix(es, k + 1) == es[0].size + Prefix(es[1..], k)
    decreases k
  {
    if k > 0 {
      PrefixShift(es, k - 1);
    }
  }

  lemma {:induction false} PrefixMono(es: seq<Entry>, j: nat, k: nat)
    requires j <= k <= |es|
    ensures Prefix(es, j) <= Prefix(es, k)
    decreases k
  {
    if j < k {
      PrefixMono(es, j, k - 1);
    }
  }

  /** Search finds the one entry whose interval of prefix sums has the position, and its start; it
      finds {0, 0} exactly when the position is at or past the total. */
  lemma {:induction false} LocateFinds(es: seq<Entry>, pos: nat, accum: nat) returns (k: nat)
    requires accum <= pos && Fit(es)
    ensures k <= |es| && (k < |es| <==> pos < accum + Total(es))
    ensures k < |es| ==>
      && accum + Prefix(es, k) <= pos < accum + Prefix(es, k + 1)
      && Locate(es, pos, accum) == Found(es[k], accum + Prefix(es, k))
    ensures k < |es| ==>
      forall j :: 0 <= j < |es| && accum + Prefix(es, j) <= pos < accum + Prefix(es, j + 1) ==> j == k
    ensures k == |es| <==> Locate(es, pos, accum).entry == Entry(0, 0)
    decreases |es|
  {
    if es == [] {
      k := 0;
    } else if pos < accum + es[0].size {
      k := 0;
      assert Prefix(es, 1) == es[0].size;
      PrefixMono(es, 1, |es|);
    } else {
      k := LocateFinds(es[1..], pos, accum + es[0].size);
      PrefixShift(es, |es| - 1);
      if k < |es[1..]| {
        PrefixShift(es, k);
        if k > 0 { PrefixShift(es, k - 1); }
        PrefixShift(es, k);
        assert Prefix(es[1..], k + 1) == Prefix(es[1..], k) + es[k + 1].size;
      }
      k := k + 1;
    }
    if k < |es| {
      OnlyOne(es, pos, accum, k);
    }
  }

  lemma OnlyOne(es: seq<Entry>, pos: nat, accum: nat, k: nat)
    requires k < |es| && accum + Prefix(es, k) <= pos < accum + Prefix(es, k + 1)
    ensures forall j :: 0 <= j < |es| && accum + Prefix(es, j) <= pos < accum + Prefix(es, j + 1) ==> j == k
  {
    forall j | 0 <= j < |es| && accum + Prefix(es, j) <= pos < accum + Prefix(es, j + 1)
      ensures j == k
    {
      if j < k { PrefixMono(es, j + 1, k); }
      if k < j { PrefixMono(es, k + 1, j); }
    }
  }

  // ---------------------------------------------------------------- the list on the volume

  /** A list on the volume: its blocks are in use, and each is there once. */
  ghost predicate ListOk(v: Volume, zs: seq<nat>, es: seq<Entry>)
    reads v, v.bitmap, v.bitmap.bits
  {
    v.Valid() && Distinct(zs) && Elems(zs) <= v.bitmap.used && ListIn(v.blocks, v.bs, zs, es)
  }

  /** ll_alloc_new_block and zero_out_block; running out of zones is a panic. */
  method NewListBlock(v: Volume) returns (z: nat)
    requires v.Valid()
    modifies v`disk, v`blocks, v`mem, v.bitmap, v.bitmap.bits
    ensures v.Valid() && v.bitmap.warnings == old(v.bitmap.warnings) && |v.disk| == |old(v.disk)|
    ensures z == 0 <==> old(v.bitmap.Exhausted())
    ensures z == 0 ==> v.blocks == old(v.blocks) && v.bitmap.used == old(v.bitmap.used) && v.bitmap.Exhausted()
    ensures z != 0 ==>
      && z in old(v.blocks) && z !in old(v.bitmap.used) && v.bitmap.used == old(v.bitmap.used) + {z}
      && v.blocks == old(v.blocks)[z := Zeros(v.bs)]
  {
    z := v.bitmap.NewBlock();
    if z != 0 {
      v.ClearBlock(z);
    }
  }

  /** A new list. */
  lemma EmptyList(bl: Blocks, bs: nat, z: nat)
    requires z != 0 && z in bl && bl[z] == Zeros(bs) && BlockSizeOk(bs)
    ensures ListIn(bl, bs, [z], [])
  {
    ZeroNode(bs);
    assert Padded([], PerBlock(bs)) == NoEntries(PerBlock(bs));
  }

  /** ll_append: put an entry after the last one, in a new block if the last block is full. */
  method Append(v: Volume, end: nat, size: nat, e: Entry, ghost zs: seq<nat>, ghost es: seq<Entry>)
    returns (ok: bool, end': nat, size': nat, ghost zs': seq<nat>)
    requires ListOk(v, zs, es) && end == zs[|zs| - 1] && size == |es| && e.loc < U64 && e.size < U64
    modifies v`disk, v`blocks, v`mem, v.bitmap, v.bitmap.bits
    ensures v.bitmap.warnings == old(v.bitmap.warnings) && |v.disk| == |old(v.disk)|
    ensures !ok <==> old(v.bitmap.Exhausted()) && PerBlock(v.bs) > 0 && |es| > 0 && |es| % PerBlock(v.bs) == 0
    ensures !ok ==> v.bitmap.Exhausted()
    ensures ok ==>
      Appended(v, zs, zs', es + [e], old(v.bitmap.used), old(v.blocks)) && end' == zs'[|zs'| - 1] && size' == |es| + 1
  {
    hide *;
    ListFacts(v, zs, es);
    var i := size % PerBlock(v.bs);
    if i == 0 && size != 0 {
      ok, end', zs' := AppendInNew(v, end, e, zs, es);
    } else {
      PutLast(v, end, i, e, zs, es);
      ok, end', zs' := true, end, zs;
    }
    size' := size + 1;
  }

  /** The list has grown, by at most one block, taken from the free zones. */
  ghost predicate Appended(v: Volume, zs: seq<nat>, zs': seq<nat>, es: seq<Entry>, used: set<nat>, bl: Blocks)
    reads v, v.bitmap, v.bitmap.bits
  {
    && ListOk(v, zs', es) && zs != [] && zs <= zs' && |zs'| <= |zs| + 1 && Elems(zs') - Elems(zs) !! used
    && v.bitmap.used == used + Elems(zs') && Frame(bl, v.blocks, Elems(zs'))
  }

  lemma ListFacts(v: Volume, zs: seq<nat>, es: seq<Entry>)
    requires ListOk(v, zs, es)
    ensures v.Valid() && BlockSizeOk(v.bs) && 1024 <= v.bs && v.bs % 16 == 0 && v.bitmap.nzones < U32
      && PerBlock(v.bs) > 0
    ensures ListIn(v.blocks, v.bs, zs, es) && Distinct(zs) && zs != [] && Elems(zs) <= v.bitmap.used
    ensures var y := zs[|zs| - 1];
      0 < y < v.bitmap.nzones && y in zs && y in v.blocks && |v.blocks[y]| == v.bs && ListBlock(v.blocks[y])
  {
    hide *;
    ListParts(v, zs, es);
    ListEnd(v.blocks, v.bs, zs, es);
    InElems(zs, |zs| - 1);
  }

  lemma InElems(zs: seq<nat>, i: nat)
    requires i < |zs|
    ensures zs[i] in Elems(zs)
  {}

  lemma ListParts(v: Volume, zs: seq<nat>, es: seq<Entry>)
    requires ListOk(v, zs, es)
    ensures v.Valid() && BlockSizeOk(v.bs) && 1024 <= v.bs && v.bs % 16 == 0 && v.bitmap.nzones < U32
    ensures ListIn(v.blocks, v.bs, zs, es) && zs != [] && Distinct(zs) && Elems(zs) <= v.bitmap.used
    ensures forall z :: z in v.bitmap.used ==> z < v.bitmap.nzones
  {
    hide NodeOf, InSync, WordsOf, Distinct, Elems, PerBlock;
  }

  method PutLast(v: Volume, end: nat, i: nat, e: Entry, ghost zs: seq<nat>, ghost es: seq<Entry>)
    requires ListOk(v, zs, es) && end == zs[|zs| - 1] && e.loc < U64 && e.size < U64
    requires PerBlock(v.bs) > 0 && i == |es| % PerBlock(v.bs) && (es == [] || i != 0)
    modifies v`disk, v`blocks, v`mem
    ensures Appended(v, zs, zs, es + [e], v.bitmap.used, old(v.blocks)) && |v.disk| == |old(v.disk)|
  {
    ghost var bl := v.blocks;
    ListFacts(v, zs, es);
    PutEntry(bl[end], i, e);
    v.PutBytes(end, ENTRY_SIZE * i, EntryBytes(e));
    AppendHere(bl, v.blocks, v.bs, zs, es, e);
  }

  lemma StillBlock(b: seq<Byte>, c: seq<Byte>)
    requires |b| == |c| && ListBlock(c)
    ensures ListBlock(b)
  {}

  lemma SlotFits(bs: nat, i: nat, n: nat)
    requires PerBlock(bs) > 0 && i == n % PerBlock(bs)
    ensures ENTRY_SIZE == 16 && i < PerBlock(bs) && 16 * i + 16 <= bs - 4
  {}

  lemma MakeAppended(v: Volume, zs: seq<nat>, zs': seq<nat>, es: seq<Entry>, used: set<nat>, bl: Blocks)
    requires v.Valid() && zs != [] && zs <= zs' && |zs'| <= |zs| + 1 && Distinct(zs') && ListIn(v.blocks, v.bs, zs', es)
    requires v.bitmap.used == used + Elems(zs') && Elems(zs') - Elems(zs) !! used
    requires v.blocks.Keys == bl.Keys && forall z :: z in bl && z !in zs' ==> v.blocks[z] == bl[z]
    ensures Appended(v, zs, zs', es, used, bl)
  {}

  method AppendInNew(v: Volume, end: nat, e: Entry, ghost zs: seq<nat>, ghost es: seq<Entry>)
    returns (ok: bool, end': nat, ghost zs': seq<nat>)
    requires ListOk(v, zs, es) && end == zs[|zs| - 1] && e.loc < U64 && e.size < U64
    requires PerBlock(v.bs) > 0 && |es| % PerBlock(v.bs) == 0 && es != []
    modifies v`disk, v`blocks, v`mem, v.bitmap, v.bitmap.bits
    ensures v.bitmap.warnings == old(v.bitmap.warnings) && |v.disk| == |old(v.disk)|
    ensures !ok <==> old(v.bitmap.Exhausted())
    ensures !ok ==> v.bitmap.Exhausted()
    ensures ok ==> Appended(v, zs, zs', es + [e], old(v.bitmap.used), old(v.blocks)) && end' == zs'[|zs'| - 1]
  {
    hide *;
    ghost var bl, used := v.blocks, v.bitmap.used;
    ListFacts(v, zs, es);
    end' := NewListBlock(v);
    zs' := zs + [end'];
    if end' == 0 {
      return false, end', zs;
    }
    NewOne(v, zs, end', used);
    PutNext(bl[end], end');
    v.PutBytes(end, v.bs - 4, Enc(end', 4));
    SlotFits(v.bs, 0, |es|);
    v.PutBytes(end', ENTRY_SIZE * 0, EntryBytes(e));
    NewNode(v.bs, e);
    StillBlock(v.blocks[end], bl[end]);
    AppendBlock(bl, v.blocks, v.bs, zs, es, end', e);
    MakeAppended(v, zs, zs', es + [e], used, bl);
    ok := true;
  }

  lemma NewOne(v: Volume, zs: seq<nat>, z: nat, used: set<nat>)
    requires v.Valid() && Elems(zs) <= used && z !in used && v.bitmap.used == used + {z} && Distinct(zs)
    ensures z !in zs && Distinct(zs + [z]) && v.bitmap.used == used + Elems(zs + [z]) && z < v.bitmap.nzones
      && z in v.blocks
    ensures Elems(zs + [z]) - Elems(zs) !! used
  {
    assert z in zs ==> z in Elems(zs);
  }

  lemma NewNode(bs: nat, e: Entry)
    requires BlockSizeOk(bs) && e.loc < U64 && e.size < U64
    ensures ListBlock(Put(Zeros(bs), ENTRY_SIZE * 0, EntryBytes(e)))
    ensures NodeOf(Put(Zeros(bs), ENTRY_SIZE * 0, EntryBytes(e))) == ListNode(NoEntries(PerBlock(bs))[0 := e], 0)
  {
    hide NodeOf, EntryBytes, Put;
    ZeroNode(bs);
    PutEntry(Zeros(bs), 0, e);
  }

  /** What the loop of ll_search_left does in one block: the entries `es` from index `i` on. */
  lemma LocateStep(es: seq<Entry>, pos: nat, accum: nat, i: nat)
    requires i < |es|
    ensures Locate(es[i..], pos, accum) ==
      if pos < accum + es[i].size then Found(es[i], accum) else Locate(es[i + 1..], pos, accum + es[i].size)
  {
    assert es[i..][1..] == es[i + 1..];
  }

  /** Slot `i` of a block. */
  method GetEntry(v: Volume, z: nat, i: nat) returns (e: Entry)
    requires v.Valid() && z < v.bitmap.nzones && ListBlock(v.blocks[z]) && |v.blocks[z]| == v.bs && i < PerBlock(v.bs)
    ensures e == NodeOf(v.blocks[z]).slots[i]
  {
    var loc := v.GetBytes(z, 16 * i, 8);
    var size := v.GetBytes(z, 16 * i + 8, 8);
    e := Entry(Dec(loc), Dec(size));
  }

  /** The entries of the first block, followed by those of the others. */
  lemma FirstBlock(bl: Blocks, bs: nat, zs: seq<nat>, es: seq<Entry>)
    requires ListIn(bl, bs, zs, es)
    ensures zs != [] && zs[0] != 0 && zs[0] in bl && ListBlock(bl[zs[0]]) && |bl[zs[0]]| == bs && PerBlock(bs) > 0
    ensures var n := NodeOf(bl[zs[0]]);
      && (n.next == 0 <==> |zs| == 1) && (|zs| == 1 <==> |es| <= PerBlock(bs))
      && (forall i :: 0 <= i < PerBlock(bs) ==> n.slots[i] == if i < |es| then es[i] else Entry(0, 0))
      && (|zs| > 1 ==> n.next == zs[1] && ListIn(bl, bs, zs[1..], es[PerBlock(bs)..]))
  {
    if |zs| > 1 {
      assert zs[1..][0] != 0;
    }
  }

  lemma OtherBlocks(v: Volume, zs: seq<nat>, es: seq<Entry>, k: nat)
    requires ListOk(v, zs, es)
    ensures v.Valid() && ListIn(v.blocks, v.bs, zs, es) && zs != [] && zs[0] < v.bitmap.nzones && v.bs >= 4
    ensures |zs| > 1 && k <= |es| && ListIn(v.blocks, v.bs, zs[1..], es[k..]) ==> ListOk(v, zs[1..], es[k..])
  {
    hide *;
    ListParts(v, zs, es);
    InElems(zs, 0);
    if |zs| > 1 && k <= |es| && ListIn(v.blocks, v.bs, zs[1..], es[k..]) {
      ListRest(v, zs, es, k);
    }
  }

  lemma ListRest(v: Volume, zs: seq<nat>, es: seq<Entry>, k: nat)
    requires ListOk(v, zs, es) && |zs| > 1 && k <= |es| && ListIn(v.blocks, v.bs, zs[1..], es[k..])
    ensures ListOk(v, zs[1..], es[k..])
  {
    hide ListIn, InSync, WordsOf;
    assert forall z :: z in Elems(zs[1..]) ==> z in Elems(zs);
  }

  /** ll_search_left: the entry at a position, or {0, 0}. */
  method SearchLeft(v: Volume, head: nat, pos: nat, accum: nat, ghost zs: seq<nat>, ghost es: seq<Entry>)
    returns (found: Entry, accum': nat)
    requires ListOk(v, zs, es) && head == zs[0] && Fit(es) && accum <= pos
    ensures Found(found, accum') == Locate(es, pos, accum)
    decreases |zs|
  {
    hide *;
    OtherBlocks(v, zs, es, if PerBlock(v.bs) < 0 then 0 else PerBlock(v.bs));
    FirstBlock(v.blocks, v.bs, zs, es);
    var k := PerBlock(v.bs);
    SizesPositive(es);
    accum' := accum;
    var i := 0;
    assert es[0..] == es;
    while i < k
      invariant 0 <= i <= k && i <= |es| && accum' <= pos && Locate(es, pos, accum) == Locate(es[i..], pos, accum')
    {
      var e := GetEntry(v, head, i);
      if e.size == 0 {
        break;
      }
      LocateStep(es, pos, accum', i);
      if pos < accum' + e.size {
        return e, accum';
      }
      accum' := accum' + e.size;
      i := i + 1;
    }
    var word := v.GetBytes(head, v.bs - 4, 4);
    var next := Dec(word);
    NextField(v.blocks[head]);
    if next == 0 {
      LocateNone(es, i, pos, accum');
      return Entry(0, 0), accum';
    }
    RestFits(es, k);
    found, accum' := SearchLeft(v, next, pos, accum', zs[1..], es[k..]);
  }

  lemma RestFits(es: seq<Entry>, k: nat)
    requires Fit(es) && k <= |es|
    ensures Fit(es[k..])
  {}

  lemma SizesPositive(es: seq<Entry>)
    requires Fit(es)
    ensures forall i :: 0 <= i < |es| ==> es[i].size > 0
  {}

  lemma NextField(b: seq<Byte>)
    requires ListBlock(b)
    ensures NodeOf(b).next == Dec(Sub(b, |b| - 4, 4))
  {}

  lemma LocateNone(es: seq<Entry>, i: nat, pos: nat, accum: nat)
    requires i == |es|
    ensures Locate(es[i..], pos, accum) == Found(Entry(0, 0), accum)
  {}
}
