/** The operations on files, each of which keeps every zone with exactly one owner. */
module Files {
  import opened Arith
  import opened Geometry
  import opened Bytes
  import opened BlockPath
  import opened Trees
  import opened Volumes
  import opened Itree
  import opened Truncation
  import opened FileData
  import opened Cdc
  import opened ChunkHeap
  import opened Dedup
  import opened ChunkStore
  import opened ChunkList
  import opened ChunkFile
  import opened ChunkRead
  import opened Ownership
  import opened FileSteps

  class FileSystem {
    const v: Volume
    const hash: Hash
    const gear: Gear
    var inodes: map<nat, Inode>
    ghost var files: map<nat, File>
    ghost var data: Originals
    ghost var lost: set<nat>

    ghost function Par(): Params {
      Params(v.bs, v.maxBytes, v.esb)
    }

    ghost function Now(): World
      reads this`files, this`lost, v, v.bitmap
    {
      World(v.blocks, v.mem, v.bitmap.used, files, lost)
    }

    ghost predicate InodeOk(i: nat, inode: Inode, f: File)
      reads inode
    {
      inode.ino == i && inode.zones == f.ws && inode.size == f.size
    }

    /** The inodes in memory are those of the files. */
    ghost predicate Loaded()
      reads this`files, this`inodes, inodes.Values
    {
      inodes.Keys == files.Keys && forall i :: i in inodes ==> InodeOk(i, inodes[i], files[i])
    }

    ghost predicate Valid()
      reads this, inodes.Values, v, v.bitmap, v.bitmap.bits
    {
      && StoreOk(v, hash) && Digest(hash) && Loaded() && Bounded(files, v.maxBytes)
      && WorldOk(Now(), Par()) && Kept(files, data, v.chunks)
    }

    /** A mounted file system whose inodes are sound and together own every zone in use. */
    constructor (v: Volume, hash: Hash, gear: Gear, inodes: map<nat, Inode>, ghost files: map<nat, File>)
      requires StoreOk(v, hash) && Digest(hash) && inodes.Keys == files.Keys && Bounded(files, v.maxBytes)
      requires forall i :: i in inodes ==>
        inodes[i].ino == i && inodes[i].zones == files[i].ws && inodes[i].size == files[i].size
      requires WorldOk(World(v.blocks, v.mem, v.bitmap.used, files, {}), Params(v.bs, v.maxBytes, v.esb))
      ensures Valid() && this.v == v && this.inodes == inodes && this.files == files && lost == {} && data == map[]
    {
      hide *;
      this.v, this.hash, this.gear, this.inodes := v, hash, gear, inodes;
      this.files, data, lost := files, map[], {};
      new;
      JustLoaded();
      Make();
    }

    lemma JustLoaded()
      requires inodes.Keys == files.Keys && data == map[]
      requires forall i :: i in inodes ==>
        inodes[i].ino == i && inodes[i].zones == files[i].ws && inodes[i].size == files[i].size
      ensures Loaded() && Kept(files, data, v.chunks)
    {}

    lemma Make()
      requires StoreOk(v, hash) && Digest(hash) && Loaded() && Bounded(files, v.maxBytes) && Kept(files, data, v.chunks)
      requires WorldOk(World(v.blocks, v.mem, v.bitmap.used, files, lost), Params(v.bs, v.maxBytes, v.esb))
      ensures Valid()
    {}

    lemma Parts()
      requires Valid()
      ensures v.Valid() && v.bs >= 1024 && v.maxBytes < U32 && inodes.Keys == files.Keys
      ensures StoreOk(v, hash) && Digest(hash) && Loaded() && Bounded(files, v.maxBytes) && Kept(files, data, v.chunks)
      ensures WorldOk(Now(), Par()) && Par() == Params(v.bs, v.maxBytes, v.esb)
      ensures Now() == World(v.blocks, v.mem, v.bitmap.used, files, lost)
    {}

    /** One inode and the others. */
    lemma Apart(i: nat)
      requires Loaded() && Bounded(files, v.maxBytes) && i in inodes
      ensures i in files && inodes.Keys == files.Keys
      ensures forall j :: j in inodes && j != i ==> inodes[j] != inodes[i] && InodeOk(j, inodes[j], files[j])
      ensures inodes[i].ino == i && inodes[i].zones == files[i].ws && inodes[i].size == files[i].size <= v.maxBytes
    {}

    lemma Together(i: nat, fs: map<nat, File>)
      requires i in inodes && i in fs && i in files && files == fs[i := files[i]]
      requires inodes.Keys == fs.Keys && forall j :: j in inodes && j != i ==> InodeOk(j, inodes[j], fs[j])
      requires inodes[i].ino == i && inodes[i].zones == files[i].ws && inodes[i].size == files[i].size
      ensures Loaded()
    {}

    /** No zone in use reaches into the hashtable or the heap, where every chunk lies. */
    lemma ZonesBelowChunks(z: nat, c: nat)
      requires Valid() && z in v.bitmap.used && c < |v.chunks|
      ensures Start(z, v.bs) + v.bs <= v.hashtable <= v.hashtable + BUCKET_SIZE * v.buckets <= v.chunks[c].loc
      ensures v.chunks[c].loc + HEAD_SIZE + |v.chunks[c].data| <= v.heapBrk <= |v.disk|
    {
      hide WordsOf, InSync, Stored, BucketStored, Chained, Head, WorldOk, Kept, Loaded;
      ZoneEnd(z, v.bs, v.bitmap.nzones, v.hashtable);
    }

    /** At any time the heap takes up no more than the data of its chunks and 47 bytes for each. */
    lemma HeapIsTight()
      requires Valid()
      ensures v.heapBrk <= v.hashtable + BUCKET_SIZE * v.buckets + Payload(v.chunks) + 47 * |v.chunks|
    {
      hide WordsOf, InSync, Stored, BucketStored, Chained, Head, WorldOk, Kept, Loaded, Payload;
      HeapBound(v.Where(), v.chunks, v.heapBrk);
    }

    /** An ordinary file as the tree operations want it. */
    lemma {:induction false} TreeReady(i: nat)
      requires Valid() && i in inodes && i in files && files[i].Mapping?
      ensures var ts := LoadAll(v.mem, files[i].ws, Root);
        && TreeOk(v, inodes[i]) && Forest(v, inodes[i]) == ts && Limited(ts, v.bs, v.maxBytes)
        && v.esb !in ZonesAll(ts) && ZonesOf(v.mem, files[i]) == ZonesAll(ts)
    {
      MappingOk(Now(), Par(), i);
    }

    /** The state after one file has changed. */
    lemma {:induction false} Changed(w: World, i: nat, f: File, changed: set<nat>)
      requires var p := Params(v.bs, v.maxBytes, v.esb);
        && WorldOk(w, p) && ChangesOne(w, World(v.blocks, v.mem, v.bitmap.used, files, lost), p, i, f, changed)
      requires i in w.files && i in inodes && files == w.files[i := f] && f.size <= v.maxBytes && v.bs >= 1024
      requires StoreOk(v, hash) && Digest(hash) && Bounded(w.files, v.maxBytes) && Kept(files, data, v.chunks)
      requires inodes.Keys == w.files.Keys && forall j :: j in inodes && j != i ==> InodeOk(j, inodes[j], w.files[j])
      requires inodes[i].ino == i && inodes[i].zones == f.ws && inodes[i].size == f.size
      ensures Valid() && OthersSame(w, v.mem, v.blocks, v.bs, i)
    {
      hide *;
      var w', p := World(v.blocks, v.mem, v.bitmap.used, files, lost), Params(v.bs, v.maxBytes, v.esb);
      ChangeOne(w, w', p, i, f, changed);
      ChangeOthers(w, w', p, i, f, changed);
      BoundedStill(w.files, v.maxBytes, i);
      Together(i, w.files);
      Make();
    }

    /** The tree of one file has changed, and nothing else. */
    lemma {:induction false} TreeWritten(w: World, i: nat)
      requires WorldOk(w, Params(v.bs, v.maxBytes, v.esb)) && i in w.files && w.files[i].Mapping? && i in inodes
      requires files == w.files[i := Mapping(inodes[i].zones, inodes[i].size)] && lost == w.lost
      requires inodes[i].ino == i && inodes[i].size <= v.maxBytes && v.bs >= 1024
      requires inodes.Keys == w.files.Keys && forall j :: j in inodes && j != i ==> InodeOk(j, inodes[j], w.files[j])
      requires Digest(hash) && Bounded(w.files, v.maxBytes) && Kept(w.files, data, v.chunks)
      requires TreeStep(v, inodes[i].zones, hash, w.bl, w.used, ZonesOf(w.m, w.files[i]))
      ensures Valid() && OthersSame(w, v.mem, v.blocks, v.bs, i) && data - {i} == data
      ensures ZonesOf(v.mem, files[i]) - ZonesOf(w.m, w.files[i]) == v.bitmap.used - w.used
      ensures ZonesOf(v.mem, files[i]) == ZonesAll(LoadAll(v.mem, files[i].ws, Root))
    {
      hide *;
      KeptWithout(w.files, data, v.chunks, i);
      var w', p := World(v.blocks, v.mem, v.bitmap.used, files, lost), Params(v.bs, v.maxBytes, v.esb);
      var changed := TreeChange(w, w', p, i, files[i], v, hash);
      Changed(w, i, files[i], changed);
    }

    /** get_block for a write at a position, which is a loff_t: only the file that is written changes. */
    method Write(i: nat, pos: nat) returns (status: Itree.Status, zone: nat)
      requires Valid() && i in inodes && pos < 0x8000_0000_0000_0000 && v.bs >= 4
      modifies v`disk, v`blocks, v`mem, v.bitmap, v.bitmap.bits, inodes[i], this`files
      ensures Valid() && i in files && files == old(files)[i := files[i]] && lost == old(lost)
      ensures files[i].Mapping? == old(files[i].Mapping?) && files[i].size == old(files[i].size)
      ensures OthersSame(old(Now()), v.mem, v.blocks, v.bs, i)
      ensures old(files[i].Listing?) ==>
        status == Itree.Invalid && files == old(files) && v.blocks == old(v.blocks)
          && v.bitmap.used == old(v.bitmap.used)
      ensures old(files[i].Mapping?) ==>
        && ZonesOf(v.mem, files[i]) - old(ZonesOf(v.mem, files[i])) == v.bitmap.used - old(v.bitmap.used)
        && WriteResult(v, old(LoadAll(v.mem, files[i].ws, Root)), LoadAll(v.mem, files[i].ws, Root),
                       old(v.bitmap.used), v.bitmap.used, Quot(pos, v.bs), status, zone)
    {
      hide *;
      Parts();
      Apart(i);
      ghost var w := Now();
      Kind(w, Par(), i);
      var inode := inodes[i];
      if IsChunked(inode.zones) {
        NothingWritten(w, v.bs, i);
        assert files[i := files[i]] == files;
        return Itree.Invalid, 0;
      }
      TreeReady(i);
      var block := Quot(pos, v.bs);
      BlockStart(pos, v.bs);
      status, zone := WriteBlock(v, inode, hash, block);
      files := files[i := Mapping(inode.zones, inode.size)];
      TreeWritten(w, i);
    }

    lemma BlockStart(pos: nat, bs: nat)
      requires bs > 0
      ensures Quot(pos, bs) * bs <= pos
    {
      DivMod(pos, bs, 0);
    }

    /** Bytes written into a block of an ordinary file that is mapped: they show up in its content, and
        nowhere else. */
    method WriteData(i: nat, pos: nat, s: seq<Byte>) returns (ok: bool)
      requires Valid() && i in inodes && pos < v.maxBytes && v.bs >= 4 && Rem(pos, v.bs) + |s| <= v.bs
      modifies v`disk, v`blocks, v`mem
      ensures Valid() && OthersSame(old(Now()), v.mem, v.blocks, v.bs, i)
      ensures i in files
      ensures ok <==>
        files[i].Mapping? && Mapped(old(LoadAll(v.mem, files[i].ws, Root)), v.bs / 4, Quot(pos, v.bs)) != 0
      ensures !ok ==> v.blocks == old(v.blocks)
      ensures ok ==> var ts := old(LoadAll(v.mem, files[i].ws, Root));
        && LoadAll(v.mem, files[i].ws, Root) == ts
        && Content(v.blocks, ts, v.bs, files[i].size) ==
             Overlay(Content(old(v.blocks), ts, v.bs, files[i].size), pos, s)
    {
      hide InSync, WordsOf, Store, Sound, ListIn, Content, LoadAll, ZonesAll, Pieces, AddAll, WorldOk, Kept;
      hide WellFormedAll, SepAll, FullAll;
      ghost var w := Now();
      Kind(w, Par(), i);
      var inode := inodes[i];
      if IsChunked(inode.zones) {
        return false;
      }
      TreeReady(i);
      assert files[i := Mapping(inode.zones, inode.size)] == files;
      ok := PutFile(v, inode, hash, pos, s);
      TreeWritten(w, i);
    }

    /** A change of i_size alone, as a write beyond the end or the VFS makes it. */
    method Resize(i: nat, size: nat)
      requires Valid() && i in inodes && size <= v.maxBytes
      modifies inodes[i], this`files, this`data
      ensures Valid() && i in old(files) && files == old(files)[i := old(files[i]).(size := size)]
        && data == old(data) - {i}
      ensures inodes[i].zones == old(inodes[i].zones)
    {
      hide *;
      Parts();
      Apart(i);
      ghost var w := Now();
      Resized(w, Par(), i, size);
      KeptWithout(files, data, v.chunks, i);
      inodes[i].size := size;
      data := data - {i};
      files := files[i := files[i].(size := size)];
      Changed(w, i, files[i], {});
    }

    /** What cutting an ordinary file to a size does to its tree and to the zones in use. */
    ghost predicate CutTo(ts: seq<Tree>, ts': seq<Tree>, used: set<nat>, used': set<nat>, size: nat) {
      && v.bs >= 4 && ts' == Trimmed(ts, v.bs, v.maxBytes, FirstGone(size, v.bs))
      && (forall b :: 0 <= b < Capacity(v.bs / 4) ==>
            Mapped(ts', v.bs / 4, b) == if b * v.bs < size then Mapped(ts, v.bs / 4, b) else 0)
      && ZonesAll(ts') <= ZonesAll(ts) && used' == used - (ZonesAll(ts) - ZonesAll(ts'))
    }

    /** A change of size with cominix_truncate, which cuts an ordinary file; a chunked one keeps its list. */
    method SetSize(i: nat, size: nat)
      requires Valid() && i in inodes && size <= v.maxBytes
      modifies v`disk, v`blocks, v`mem, v.bitmap, v.bitmap.bits, inodes[i], this`files, this`data
      ensures Valid() && i in files && files == old(files)[i := files[i]] && lost == old(lost)
      ensures files[i].Mapping? == old(files[i].Mapping?) && files[i].size == size && data == old(data) - {i}
      ensures OthersSame(old(Now()), v.mem, v.blocks, v.bs, i)
      ensures old(files[i].Listing?) ==>
        && files[i] == old(files[i]).(size := size) && v.blocks == old(v.blocks) && v.mem == old(v.mem)
        && v.bitmap.used == old(v.bitmap.used)
      ensures old(files[i].Mapping?) ==>
        && CutTo(old(LoadAll(v.mem, files[i].ws, Root)), LoadAll(v.mem, files[i].ws, Root),
                 old(v.bitmap.used), v.bitmap.used, size)
        && (size == 0 ==> AllZero(files[i].ws, INODE_SLOTS))
    {
      hide *;
      Parts();
      Apart(i);
      ghost var w := Now();
      Kind(w, Par(), i);
      assert files[i := files[i]] == files;
      if IsChunked(inodes[i].zones) {
        NothingWritten(w, v.bs, i);
        Resize(i, size);
      } else {
        CutOne(i, size);
      }
    }

    method CutOne(i: nat, size: nat)
      requires Valid() && i in inodes && i in files && size <= v.maxBytes && files[i].Mapping?
      modifies v`disk, v`blocks, v`mem, v.bitmap, v.bitmap.bits, inodes[i], this`files
      ensures Valid() && i in files && files == old(files)[i := files[i]] && files[i].Mapping? && files[i].size == size
      ensures OthersSame(old(Now()), v.mem, v.blocks, v.bs, i) && data - {i} == data
      ensures CutTo(old(LoadAll(v.mem, files[i].ws, Root)), LoadAll(v.mem, files[i].ws, Root),
                    old(v.bitmap.used), v.bitmap.used, size)
      ensures size == 0 ==> AllZero(files[i].ws, INODE_SLOTS)
    {
      hide *;
      Parts();
      Apart(i);
      ghost var w := Now();
      TreeReady(i);
      var inode := inodes[i];
      ghost var ts := Forest(v, inode);
      CutFile(v, inode, hash, size);
      CutIs(ts, LoadAll(v.mem, inode.zones, Root), w.used, v.bitmap.used, size);
      files := files[i := Mapping(inode.zones, inode.size)];
      TreeWritten(w, i);
    }

    lemma CutIs(ts: seq<Tree>, ts': seq<Tree>, used: set<nat>, used': set<nat>, size: nat)
      requires v.bs >= 4 && ts' == Trimmed(ts, v.bs, v.maxBytes, FirstGone(size, v.bs))
      requires KeepsBelow(ts, ts', v.bs / 4, FirstGone(size, v.bs))
      requires ZonesAll(ts') <= ZonesAll(ts) && used' == used - (ZonesAll(ts) - ZonesAll(ts'))
      ensures CutTo(ts, ts', used, used', size)
    {
      KeepsBytes(ts, ts', v.bs, size);
    }

    /** cominix_evict_inode for an inode without links: an ordinary file gives its zones back, the list
        of a chunked one is left behind. */
    method Remove(i: nat)
      requires Valid() && i in inodes
      modifies v`disk, v`blocks, v`mem, v.bitmap, v.bitmap.bits, inodes[i]
      modifies this`files, this`data, this`inodes, this`lost
      ensures Valid() && inodes == old(inodes) - {i} && files == old(files) - {i} && data == old(data) - {i}
      ensures OthersSame(old(Now()), v.mem, v.blocks, v.bs, i)
      ensures old(files[i].Mapping?) ==>
        lost == old(lost) && v.bitmap.used == old(v.bitmap.used) - old(ZonesOf(v.mem, files[i]))
      ensures old(files[i].Listing?) ==>
        lost == old(lost) + old(ZonesOf(v.mem, files[i])) && v.bitmap.used == old(v.bitmap.used)
    {
      hide *;
      Owner(i);
      ghost var f, m, used := files[i], v.mem, v.bitmap.used;
      SetSize(i, 0);
      assert files - {i} == old(files) - {i};
      NothingLeftOf(i, f, m, used);
      Forget(i);
    }

    lemma Owner(i: nat)
      requires Valid() && i in inodes
      ensures i in files && v.bs >= 4
      ensures files[i].Mapping? <==> !files[i].Listing?
    {
      hide *;
      Parts();
    }

    /** What a file cut to size 0 still owns. */
    lemma NothingLeftOf(i: nat, f: File, m: Mem, used: set<nat>)
      requires Valid() && i in files && (files[i].Mapping? <==> f.Mapping?)
      requires f.Listing? ==> files[i] == f.(size := 0)
      requires f.Mapping? ==> AllZero(files[i].ws, INODE_SLOTS)
      requires f.Mapping? ==> CutTo(LoadAll(m, f.ws, Root), LoadAll(v.mem, files[i].ws, Root), used, v.bitmap.used, 0)
      ensures f.Listing? ==> ZonesOf(v.mem, files[i]) == ZonesOf(m, f)
      ensures f.Mapping? ==> ZonesOf(v.mem, files[i]) == {} && v.bitmap.used == used - ZonesOf(m, f)
    {
      hide WorldOk, StoreOk, Kept, Loaded, Trimmed, KeepsBelow, LoadAll, ZonesAll, Elems;
      if f.Mapping? {
        MappingOk(Now(), Par(), i);
      }
    }

    /** The end of cominix_evict_inode. */
    method Forget(i: nat)
      requires Valid() && i in inodes && i !in data
      modifies this`files, this`inodes, this`lost
      ensures Valid() && inodes == old(inodes) - {i} && files == old(files) - {i} && i in old(files)
      ensures lost == old(lost) + ZonesOf(v.mem, old(files)[i])
    {
      hide *;
      Parts();
      DropFile(Now(), Par(), i);
      KeptWithout(files, data, v.chunks, i);
      BoundedStill(files, v.maxBytes, i);
      lost := lost + ZonesOf(v.mem, files[i]);
      Dropped(i);
      files := files - {i};
      inodes := inodes - {i};
      Make();
    }

    lemma Dropped(i: nat)
      requires Loaded()
      ensures files.Keys == inodes.Keys && (inodes - {i}).Keys == (files - {i}).Keys
      ensures forall j :: j in inodes - {i} ==> InodeOk(j, inodes[j], files[j])
    {}

    /** cominix_new_inode: an empty file. */
    method Add(i: nat)
      requires Valid() && i !in inodes
      modifies this`files, this`inodes
      ensures Valid() && i in inodes && fresh(inodes[i]) && inodes == old(inodes)[i := inodes[i]]
      ensures files == old(files)[i := Mapping(ZeroWords(INODE_SLOTS), 0)]
    {
      hide WorldOk, StoreOk, Kept, Bounded;
      Parts();
      var inode := new Inode(i);
      AddFile(Now(), Par(), i, inode.zones);
      KeptWithout(files, data, v.chunks, i);
      BoundedStill(files, v.maxBytes, i);
      inodes := inodes[i := inode];
      files := files[i := Mapping(inode.zones, 0)];
      Make();
    }

    /** What chunking file `i` has done when it is done. */
    ghost predicate Chunked(w: World, chunks: seq<Chunk>, data0: Originals, i: nat, file: seq<Byte>)
      reads this, inodes.Values, v, v.bitmap, v.bitmap.bits
    {
      && Valid() && i in w.files && i in files && files == w.files[i := files[i]] && lost == w.lost
      && files[i].Listing? && files[i].size == w.files[i].size && ZonesOf(v.mem, files[i]) !! w.used
      && v.bitmap.used == w.used - ZonesOf(w.m, w.files[i]) + ZonesOf(v.mem, files[i])
      && OthersSame(w, v.mem, v.blocks, v.bs, i) && chunks <= v.chunks && data - {i} == data0
      && (NoCollision(hash, chunks, Pieces(gear, file)) ==> i in data && Flatten(data[i]) == file)
    }

    /** Chunking a file: its tree is given up for a list, and every other file stays as it is. */
    method Chunk(i: nat) returns (status: Ending)
      requires Valid() && i in inodes && v.bs >= 4
      modifies v`disk, v`blocks, v`mem, v`tail, v`heapBrk, v`chunks, v.bitmap, v.bitmap.bits, inodes[i]
      modifies this`files, this`data
      ensures status == Already <==> old(files[i].Listing?)
      ensures status == Already ==> Valid() && files == old(files) && data == old(data) && v.blocks == old(v.blocks)
      ensures status == NoZones ==> v.bitmap.Exhausted()
      ensures var file := old(Content(v.blocks, LoadAll(v.mem, files[i].ws, Root), v.bs, files[i].size));
        && (status == Done ==> Chunked(old(Now()), old(v.chunks), old(data), i, file))
        && (status != Already ==>
              Ended(v, status, old(v.Where()), hash, old(Heap(v.chunks, v.heapBrk)), old(v.bitmap.used),
                      Pieces(gear, file)))
    {
      hide *;
      Parts();
      Apart(i);
      Kind(Now(), Par(), i);
      StoreParts(v, hash);
      if IsChunked(inodes[i].zones) {
        return Already;
      }
      status := ChunkTree(i);
    }

    method ChunkTree(i: nat) returns (status: Ending)
      requires Valid() && i in inodes && v.bs >= 4 && i in files && files[i].Mapping?
      modifies v`disk, v`blocks, v`mem, v`tail, v`heapBrk, v`chunks, v.bitmap, v.bitmap.bits, inodes[i]
      modifies this`files, this`data
      ensures status != Already && (status == NoZones ==> v.bitmap.Exhausted())
      ensures var file := old(Content(v.blocks, LoadAll(v.mem, files[i].ws, Root), v.bs, files[i].size));
        && (status == Done ==> Chunked(old(Now()), old(v.chunks), old(data), i, file))
        && Ended(v, status, old(v.Where()), hash, old(Heap(v.chunks, v.heapBrk)), old(v.bitmap.used),
                   Pieces(gear, file))
    {
      hide *;
      Parts();
      Apart(i);
      ghost var w, chunks, data0 := Now(), v.chunks, data;
      ghost var file := Content(v.blocks, LoadAll(v.mem, files[i].ws, Root), v.bs, files[i].size);
      var inode := inodes[i];
      TreeReady(i);
      KeptWithout(files, data, v.chunks, i);
      ghost var f, data';
      status, f, data' := ChunkOne(v, inode, hash, gear, files, data, i);
      if status == Done {
        files, data := files[i := f], data';
        Listed(w, i, chunks, data0, file);
      }
    }

    /** One file has become a list, and nothing else has changed. */
    lemma {:induction false} Listed(w: World, i: nat, chunks: seq<Chunk>, data0: Originals, file: seq<Byte>)
      requires WorldOk(w, Params(v.bs, v.maxBytes, v.esb)) && i in w.files && w.files[i].Mapping? && i in inodes
      requires i in files && files == w.files[i := files[i]] && lost == w.lost && files[i].Listing? && Fit(files[i].es)
      requires inodes[i].ino == i && inodes[i].zones == files[i].ws && inodes[i].size == files[i].size <= v.maxBytes
      requires inodes.Keys == w.files.Keys && forall j :: j in inodes && j != i ==> InodeOk(j, inodes[j], w.files[j])
      requires Digest(hash) && Bounded(w.files, v.maxBytes) && Kept(files, data, v.chunks) && v.bs >= 1024
      requires Switched(v, files[i].ws, hash, ZonesOf(w.m, w.files[i]), w.bl, w.used, files[i].zs, files[i].es)
      requires files[i].size == w.files[i].size && chunks <= v.chunks && data - {i} == data0
      requires NoCollision(hash, chunks, Pieces(gear, file)) ==> i in data && Flatten(data[i]) == file
      ensures Chunked(w, chunks, data0, i, file)
    {
      hide StoreOk, WorldOk, Kept, Bounded, OthersSame, Switched, NoCollision, Loaded, Valid, ChangesOne, Fit;
      var w', p := World(v.blocks, v.mem, v.bitmap.used, files, lost), Params(v.bs, v.maxBytes, v.esb);
      var changed := ListChange(w, w', p, i, files[i], v, hash);
      Changed(w, i, files[i], changed);
    }

    /** Reading a chunked file, at any time after it was chunked: the bytes it was made from. */
    method Read(i: nat, count: nat, pos: nat) returns (buf: seq<Byte>, pos': nat)
      requires Valid() && i in inodes && i in data
      ensures pos' == pos + |buf| && (buf == [] <==> pos >= |Flatten(data[i])| || count == 0)
      ensures pos < |Flatten(data[i])| ==> pos' <= |Flatten(data[i])| && buf == Flatten(data[i])[pos..pos']
    {
      ghost var f := files[i];
      ListingReady(Now(), Par(), i, data, v.chunks);
      MakeListOk(v, f.ws, f.size, f.zs, f.es, data[i]);
      buf, pos' := ReadChunked(v, inodes[i], count, pos, hash, f.zs, f.es, data[i]);
    }
  }

  /** A new file system: a root directory of one block, on a volume with nothing else but its extra
      superblock. */
  method StartFresh(v: Volume, hash: Hash, gear: Gear, root: Inode) returns (fs: FileSystem)
    requires StoreOk(v, hash) && Digest(hash) && v.maxBytes > 0 && root.size <= v.maxBytes
      && |root.zones| == INODE_SLOTS
    requires root.zones == ZeroWords(INODE_SLOTS)[0 := root.zones[0]] && root.zones[0] != v.esb
    requires v.bitmap.used == {v.esb, root.zones[0]}
    ensures fresh(fs) && fs.Valid() && fs.v == v && fs.inodes == map[root.ino := root] && fs.lost == {}
  {
    RootWorld(v.blocks, v.mem, Params(v.bs, v.maxBytes, v.esb), root.ino, root.zones, root.size);
    fs := new FileSystem(v, hash, gear, map[root.ino := root], map[root.ino := Mapping(root.zones, root.size)]);
  }
}
