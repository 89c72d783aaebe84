/** Directories on a volume: the data blocks of an inode, each filled with records. */
module Ext2Dir {
  import opened Words
  import opened ByteWords
  import opened Sequences
  import opened Directory
  import opened Ext2Volume
  import opened Ext2Tree
  import opened Ext2Inode
  import opened Ext2Bytes
  import Ext2File

  /** What is read to look at one record. */
  const WINDOW := HEADER + MAX_NAME

  // ----- The blocks of a directory -----

  function BlocksOf(disk: seq<seq<Byte>>, bs: seq<nat>, size: nat): (r: seq<seq<Byte>>)
    requires Images(disk, bs, size)
    ensures |r| == |bs| && forall k :: 0 <= k < |bs| ==> r[k] == disk[bs[k]] && |r[k]| == size
  {
    seq(|bs|, k requires 0 <= k < |bs| => disk[bs[k]])
  }

  lemma BlockStored(disk: seq<seq<Byte>>, bs: seq<nat>, size: nat, k: nat, b: seq<Byte>)
    requires Images(disk, bs, size) && k < |bs| && |b| == size && Once(bs)
    ensures Patch(disk[bs[k]], 0, b) == b
    ensures Images(disk[bs[k] := b], bs, size) &&
            BlocksOf(disk[bs[k] := b], bs, size) == BlocksOf(disk, bs, size)[k := b]
  {
  }

  lemma KeptOne(disk: seq<seq<Byte>>, used: set<nat>, bag: multiset<nat>, x: nat, b: seq<Byte>)
    requires x in bag && x < |disk|
    ensures Kept(disk, disk[x := b], used, used, bag, bag)
  {
  }

  lemma GrownBlocks(d0: seq<seq<Byte>>, d1: seq<seq<Byte>>, b0: seq<nat>, b1: seq<nat>, size: nat)
    requires Grown(d0, d1, b0, b1, size) && |b1| == |b0| + 1
    ensures Images(d0, b0, size) && Images(d1, b1, size) &&
            BlocksOf(d1, b1, size) == BlocksOf(d0, b0, size) + [Zeros(size)]
  {
    forall k | 0 <= k < |b0| ensures d1[b1[k]] == d0[b0[k]] { assert b1[k] == b0[k]; }
  }

  // ----- The bytes of a directory -----

  lemma {:induction false} FlatAt(blocks: seq<seq<Byte>>, size: nat, p: nat)
    requires size > 0 && (forall k :: 0 <= k < |blocks| ==> |blocks[k]| == size)
    ensures |Flat(blocks)| == |blocks| * size
    ensures p < |blocks| * size ==> Slot(p, size) < |blocks| && Flat(blocks)[p] == blocks[Slot(p, size)][Rest(p, size)]
  {
    hide Slot, Rest;
    if blocks != [] {
      var n := |blocks| - 1;
      FlatAt(blocks[..n], size, p);
      assert |blocks| * size == n * size + size;
      if n * size <= p < n * size + size {
        SlotRest(p, size, n, p - n * size);
      }
    }
  }

  /** A position past the last block. */
  lemma PastEnd(size: nat, n: nat, p: nat)
    requires size > 0 && p >= n * size
    ensures Slot(p, size) >= n
  {
    hide Slot, Rest;
    SlotRest(p, size, Slot(p, size), Rest(p, size));
    MulMono(Slot(p, size) + 1, n, size);
    assert (Slot(p, size) + 1) * size == Slot(p, size) * size + size;
  }

  lemma FileBytes(disk: seq<seq<Byte>>, bs: seq<nat>, size: nat)
    requires Images(disk, bs, size)
    ensures Content(disk, bs, size, |bs| * size) == Flat(BlocksOf(disk, bs, size))
    ensures forall p :: p >= |bs| * size ==> ByteAt(disk, bs, size, p) == 0
    ensures |bs| > 0 ==> |bs| * size > 0 && Slot(|bs| * size - 1, size) < |bs|
  {
    hide Slot, Rest;
    var blocks, n := BlocksOf(disk, bs, size), |bs| * size;
    FlatAt(blocks, size, n);
    forall p: nat | p < n ensures Content(disk, bs, size, n)[p] == Flat(blocks)[p] { FlatAt(blocks, size, p); }
    forall p | p >= n ensures ByteAt(disk, bs, size, p) == 0 { PastEnd(size, |bs|, p); }
    if |bs| > 0 {
      MulMono(1, |bs|, size);
      FlatAt(blocks, size, n - 1);
    }
  }

  // ----- Directories as values -----

  ghost predicate ShortNames(m: multiset<Entry>) {
    forall x :: x in m ==> |x.name| <= MAX_NAME
  }

  ghost predicate DirOk(blocks: seq<seq<Byte>>, size: nat) {
    && MinSize(MAX_NAME) <= size < 65536 && size % 4 == 0
    && (forall k :: 0 <= k < |blocks| ==> |blocks[k]| == size && Tiled(blocks[k], 0))
    && Unique(AllEntries(blocks)) && ShortNames(AllEntries(blocks))
  }

  ghost function NamesOf(blocks: seq<seq<Byte>>, size: nat): map<Name, nat>
    requires DirOk(blocks, size)
  {
    Table(AllEntries(blocks))
  }

  lemma DirInserted(blocks: seq<seq<Byte>>, size: nat, k: nat, b': seq<Byte>, x: Entry)
    requires DirOk(blocks, size) && k < |blocks| && |b'| == size && Tiled(b', 0) && |x.name| <= MAX_NAME &&
             x.name !in NamesOf(blocks, size)
    requires multiset(Entries(b', 0)) == multiset(Entries(blocks[k], 0)) + multiset{x}
    ensures DirOk(blocks[k := b'], size) && NamesOf(blocks[k := b'], size) == NamesOf(blocks, size)[x.name := x.inode]
  {
    hide Tiled, Entries, Unique, Table, MinSize, AllEntries;
    InsertedAll(blocks, k, b', x);
    TableAdd(AllEntries(blocks), x);
  }

  lemma DirAppended(blocks: seq<seq<Byte>>, size: nat, b': seq<Byte>, x: Entry)
    requires DirOk(blocks, size) && |b'| == size && Tiled(b', 0) && |x.name| <= MAX_NAME &&
             x.name !in NamesOf(blocks, size)
    requires Entries(b', 0) == [x]
    ensures DirOk(blocks + [b'], size) && NamesOf(blocks + [b'], size) == NamesOf(blocks, size)[x.name := x.inode]
  {
    hide Tiled, Entries, Unique, Table, MinSize;
    assert (blocks + [b'])[..|blocks|] == blocks;
    assert AllEntries(blocks + [b']) == AllEntries(blocks) + multiset{x};
    hide AllEntries;
    TableAdd(AllEntries(blocks), x);
  }

  lemma DirRemoved(blocks: seq<seq<Byte>>, size: nat, k: nat, b': seq<Byte>, i: nat)
    requires DirOk(blocks, size) && k < |blocks| && |b'| == size && Tiled(b', 0)
    requires i < |Entries(blocks[k], 0)| && Entries(b', 0) == Cut(Entries(blocks[k], 0), i)
    ensures var name := Entries(blocks[k], 0)[i].name;
            && name in NamesOf(blocks, size) && DirOk(blocks[k := b'], size)
            && NamesOf(blocks[k := b'], size) == NamesOf(blocks, size) - {name}
  {
    hide Tiled, Entries, Unique, Table, MinSize, AllEntries, Cut;
    RemovedAll(blocks, k, b', i);
    StillShort(blocks, k, b', i);
  }

  /** The blocks of the directory without the entry of that name. */
  ghost function Without(blocks: seq<seq<Byte>>, name: Name): seq<seq<Byte>>
    requires forall k :: 0 <= k < |blocks| ==> Tiled(blocks[k], 0)
  {
    seq(|blocks|, k requires 0 <= k < |blocks| => Removed(blocks[k], -1, 0, name))
  }

  lemma WithoutNone(blocks: seq<seq<Byte>>, name: Name)
    requires forall k :: 0 <= k < |blocks| ==> Tiled(blocks[k], 0) && !Named(Entries(blocks[k], 0), name)
    ensures Without(blocks, name) == blocks
  {
    hide Tiled, Entries, Named, Removed;
    forall k | 0 <= k < |blocks| ensures Removed(blocks[k], -1, 0, name) == blocks[k] {
      RemovedNone(blocks[k], -1, 0, name);
    }
  }

  lemma NamedSomewhere(blocks: seq<seq<Byte>>, size: nat, name: Name, j: nat)
    requires DirOk(blocks, size) && j < |blocks| && Named(Entries(blocks[j], 0), name)
    ensures name in NamesOf(blocks, size)
  {
    hide Tiled, Entries, MinSize, AllEntries, Unique;
    var i :| 0 <= i < |Entries(blocks[j], 0)| && Entries(blocks[j], 0)[i].name == name;
    InAllEntries(blocks, j, Entries(blocks[j], 0)[i]);
    assert Entries(blocks[j], 0)[i].name in NamesOf(blocks, size);
  }

  /** It is in one block only that there is anything to remove. */
  lemma WithoutOne(blocks: seq<seq<Byte>>, size: nat, k: nat, b': seq<Byte>, name: Name)
    requires DirOk(blocks, size) && k < |blocks| && b' == Removed(blocks[k], -1, 0, name)
    requires DirOk(blocks[k := b'], size) && name !in NamesOf(blocks[k := b'], size)
    ensures blocks[k := b'] == Without(blocks, name)
  {
    hide Tiled, Entries, MinSize, AllEntries, Unique, NamesOf, Removed, Named, ShortNames;
    forall j | 0 <= j < |blocks| && j != k ensures Removed(blocks[j], -1, 0, name) == blocks[j] {
      assert blocks[k := b'][j] == blocks[j];
      if Named(Entries(blocks[j], 0), name) {
        NamedSomewhere(blocks[k := b'], size, name, j);
      } else {
        RemovedNone(blocks[j], -1, 0, name);
      }
    }
  }

  /** A record of some block can take one of `size` bytes more. */
  ghost predicate RoomIn(blocks: seq<seq<Byte>>, size: nat) {
    exists k :: 0 <= k < |blocks| && Tiled(blocks[k], 0) && SomeRoom(blocks[k], 0, size)
  }

  lemma StillShort(blocks: seq<seq<Byte>>, k: nat, b': seq<Byte>, i: nat)
    requires k < |blocks| && (forall j :: 0 <= j < |blocks| ==> Tiled(blocks[j], 0)) && Tiled(b', 0)
    requires i < |Entries(blocks[k], 0)| && Entries(b', 0) == Cut(Entries(blocks[k], 0), i) &&
             ShortNames(AllEntries(blocks))
    ensures ShortNames(AllEntries(blocks[k := b']))
  {
    hide Tiled, Entries, AllEntries, Cut;
    BlockReplaced(blocks, k, b');
    RemovedOne(Entries(blocks[k], 0), i);
    Cancel(AllEntries(blocks), AllEntries(blocks[k := b']), multiset(Entries(b', 0)),
           multiset{Entries(blocks[k], 0)[i]});
  }

  // ----- One record -----

  /** A record is seen through a window of 264 bytes, or fewer at the end of the file. */
  lemma WindowAt(c: seq<Byte>, o: nat)
    requires o + HEADER <= |c|
    ensures var w := Clamped(c, o, WINDOW);
            && |w| == (if o + 264 < |c| then 264 else |c| - o) && forall k :: 0 <= k < |w| ==> w[k] == c[o + k]
  {
  }

  lemma WindowFields(c: seq<Byte>, o: nat)
    requires o + HEADER <= |c|
    ensures var w := Clamped(c, o, WINDOW);
            |w| >= HEADER && Inode(w, 0) == Inode(c, o) && RecLen(w, 0) == RecLen(c, o) &&
              NameLen(w, 0) == NameLen(c, o)
  {
    hide Clamped;
    WindowAt(c, o);
  }

  /** Whether the record in the window is a live one with this name. */
  predicate Hit(w: seq<Byte>, name: Name)
    requires |w| >= HEADER && (Inode(w, 0) != 0 && NameLen(w, 0) == |name| ==> HEADER + |name| <= |w|)
  {
    Inode(w, 0) != 0 && NameLen(w, 0) == |name| && w[HEADER..HEADER + |name|] == name
  }

  lemma Window(c: seq<Byte>, o: nat, name: Name)
    requires IsRecord(c, o) && (Inode(c, o) != 0 ==> NameLen(c, o) <= MAX_NAME)
    ensures var w := Clamped(c, o, WINDOW);
            && |w| >= HEADER && Inode(w, 0) == Inode(c, o) && RecLen(w, 0) == RecLen(c, o)
            && (Inode(w, 0) != 0 && NameLen(w, 0) == |name| ==> HEADER + |name| <= |w|) &&
              (Matches(c, o, name) <==> Hit(w, name))
  {
    hide Clamped, Inode, RecLen, NameLen;
    WindowAt(c, o);
    WindowFields(c, o);
    var w := Clamped(c, o, WINDOW);
    if Inode(w, 0) != 0 && NameLen(w, 0) == |name| {
      assert w[HEADER..HEADER + |name|] == NameAt(c, o);
    }
  }

  lemma RecordShort(m: multiset<Entry>, before: seq<Entry>, c: seq<Byte>, o: nat, after: seq<Entry>)
    requires IsRecord(c, o) && ShortNames(m) && m == multiset(before + EntryAt(c, o) + after)
    ensures Inode(c, o) != 0 ==> NameLen(c, o) <= MAX_NAME
  {
    if Inode(c, o) != 0 {
      assert (before + EntryAt(c, o) + after)[|before|] == EntryAt(c, o)[0];
      assert EntryAt(c, o)[0] in m;
    }
  }

  /** One step of a search: the record in the window is the one sought, or the search goes on
      behind it. */
  lemma FindStep(c: seq<Byte>, m: multiset<Entry>, o: nat, name: Name)
    requires Tiled(c, 0) && Visits(c, 0, o) && o < |c| && Unique(m) && ShortNames(m) && m == multiset(Entries(c, 0))
    requires !Named(Before(c, 0, o), name)
    ensures var w := Clamped(c, o, WINDOW);
            && |w| >= HEADER && (Inode(w, 0) != 0 && NameLen(w, 0) == |name| ==> HEADER + |name| <= |w|)
            && var next := o + RecLen(w, 0);
            && o < next <= |c| && Visits(c, 0, next)
            && (Hit(w, name) ==> Inode(w, 0) != 0 && name in Table(m) && Table(m)[name] == Inode(w, 0))
            && (!Hit(w, name) ==> !Named(Before(c, 0, next), name))
  {
    hide RecLen, Inode, NameLen, EntryAt, MinSize, Entries, Before, Visits, Matches, Named, Clamped, Unique, Table,
         ShortNames, Hit;
    Through(c, o);
    VisitNext(c, 0, o);
    RecordShort(m, Before(c, 0, o), c, o, Entries(c, o + RecLen(c, o)));
    MatchEntry(c, o, name);
    NamedParts(Before(c, 0, o), EntryAt(c, o), name);
    Window(c, o, name);
    if Hit(Clamped(c, o, WINDOW), name) {
      InTable(m, Before(c, 0, o), EntryAt(c, o), Entries(c, o + RecLen(c, o)));
      LiveInode(c, o, name);
    }
  }

  /** A name that may be renamed or renamed to: not empty, without a slash, and not a dot name. */
  predicate FitName(name: Name) {
    name != [] && '/' as int !in name && name != ['.' as int] && name != ['.' as int, '.' as int]
  }

  ghost predicate MayRename(names: map<Name, nat>, from: Name, to: Name) {
    FitName(from) && FitName(to) && (from == to || (from in names && to !in names))
  }

  class Dir {
    const v: Volume
    const i: Ext2File.Inode

    ghost predicate HasBlocks()
      reads v, i
    {
      i.Valid(v) && Images(v.disk, LeavesOf(i.kids), v.blockSize) && i.size == i.count * v.blockSize
    }

    ghost function Blocks(): seq<seq<Byte>>
      requires HasBlocks()
      reads v, i
    {
      BlocksOf(v.disk, LeavesOf(i.kids), v.blockSize)
    }

    ghost predicate Valid()
      reads v, i
    {
      HasBlocks() && DirOk(Blocks(), v.blockSize)
    }

    /** The directory as a map. */
    ghost function Names(): map<Name, nat>
      requires Valid()
      reads v, i
    {
      NamesOf(Blocks(), v.blockSize)
    }

    /** A directory without blocks. */
    constructor (v: Volume, i: Ext2File.Inode)
      requires i.Valid(v) && i.kids == [] && i.size == 0 && MinSize(MAX_NAME) <= v.blockSize < 65536 &&
               v.blockSize % 4 == 0
      ensures Valid() && Names() == map[] && this.v == v && this.i == i
    {
      this.v, this.i := v, i;
    }

    /** Blocks in use by others are as they were. */
    twostate predicate Others()
      requires old(i.Valid(v)) && i.Valid(v)
      reads v, i
    {
      Kept(old(v.disk), v.disk, old(v.Used()), v.Used(), old(BagOf(i.kids)), BagOf(i.kids))
    }

    lemma IsFile()
      requires HasBlocks()
      ensures FileOk(v, i) && Bytes(v, i) == Flat(Blocks())
    {
      hide Slot, Rest, LeavesOf, Content, ByteAt, Flat;
      FileBytes(v.disk, LeavesOf(i.kids), v.blockSize);
    }

    /** The records of the file, from first to last, are the entries of the directory. */
    lemma Records()
      requires Valid()
      ensures FileOk(v, i) && Bytes(v, i) == Flat(Blocks()) && |Flat(Blocks())| == i.size && Tiled(Flat(Blocks()), 0)
      ensures multiset(Entries(Flat(Blocks()), 0)) == AllEntries(Blocks()) && Unique(AllEntries(Blocks())) &&
              ShortNames(AllEntries(Blocks()))
    {
      hide Slot, Rest, LeavesOf, Content, ByteAt, Flat, Unique, ShortNames, Entries, AllEntries, Tiled;
      IsFile();
      WholeFile(Blocks());
      assert |Bytes(v, i)| == i.size;
    }

    lemma Fitting(name: Name, inode: nat)
      requires Valid() && 0 < |name| <= MAX_NAME && 0 < inode < MODULUS
      ensures Fits(name, v.blockSize, inode) && HEADER + |name| <= v.blockSize
    {
      hide Unique, ShortNames, AllEntries, Tiled, MinSize;
      NameFits(name, v.blockSize, inode);
    }

    /** `dir_find_entry`: the inode number of the entry, or 0. */
    method Find(name: Name) returns (inode: nat)
      requires Valid()
      ensures inode < MODULUS && (name in Names() <==> inode != 0)
      ensures inode != 0 ==> inode == Names()[name]
    {
      hide Tiled, MinSize, RecLen, Inode, NameLen, Entries, Before, Visits, Named, LeavesOf, BagOf, Ext2File.Mapped,
           Ext2File.Sectors, Clamped, Bytes, Unique, AllEntries, Flat, Hit;
      Records();
      ghost var c, m := Flat(Blocks()), AllEntries(Blocks());
      var o := 0;
      VisitStart(c);
      NoneNamed(name);
      while o < i.size
        invariant 0 <= o <= |c| == i.size && Visits(c, 0, o) && !Named(Before(c, 0, o), name)
        decreases |c| - o
      {
        FindStep(c, m, o, name);
        var w := ReadAll(v, i, o, WINDOW);
        if Hit(w, name) {
          return Inode(w, 0);
        }
        o := o + RecLen(w, 0);
      }
      AllBefore(c);
      NotInTable(m, Entries(c, 0), name);
      return 0;
    }

    /** The first block with room for the entry, and what it becomes. */
    method FindRoom(name: Name, inode: nat) returns (k: nat, b': seq<Byte>)
      requires Valid() && 0 < |name| <= MAX_NAME && 0 < inode < MODULUS
      ensures k <= |Blocks()| == i.count && (k < i.count <==> RoomIn(Blocks(), MinSize(|name|)))
      ensures forall j :: 0 <= j < k ==> !SomeRoom(Blocks()[j], 0, MinSize(|name|))
      ensures k < |Blocks()| ==>
                && SomeRoom(Blocks()[k], 0, MinSize(|name|)) && |b'| == v.blockSize && Tiled(b', 0)
                && multiset(Entries(b', 0)) == multiset(Entries(Blocks()[k], 0)) + multiset{Entry(name, inode)}
    {
      hide Tiled, Entries, Unique, MinSize, AllEntries, SomeRoom, LeavesOf, Ext2File.Mapped, Ext2File.Sectors;
      k, b' := 0, [];
      while k < i.count
        invariant k <= |Blocks()| == i.count && forall j :: 0 <= j < k ==> !SomeRoom(Blocks()[j], 0, MinSize(|name|))
      {
        var b := ReadBlock(v, i, k);
        assert b == Blocks()[k];
        var ok: bool;
        ok, b' := InsertInBlock(b, name, inode);
        if ok {
          return;
        }
        k := k + 1;
      }
    }

    /** The first block with the name, and what it becomes without it. */
    method FindNamed(name: Name) returns (k: nat, b': seq<Byte>, ghost at: nat)
      requires Valid()
      ensures k <= |Blocks()| == i.count && forall j :: 0 <= j < k ==> !Named(Entries(Blocks()[j], 0), name)
      ensures k < |Blocks()| ==>
                && |b'| == v.blockSize && Tiled(b', 0) && b' == Removed(Blocks()[k], -1, 0, name)
                && at < |Entries(Blocks()[k], 0)|
                && Entries(Blocks()[k], 0)[at].name == name && Entries(b', 0) == Cut(Entries(Blocks()[k], 0), at)
    {
      hide Tiled, Entries, Unique, MinSize, AllEntries, Named, LeavesOf, Ext2File.Mapped, Ext2File.Sectors, Cut,
           Removed;
      k, b', at := 0, [], 0;
      while k < i.count
        invariant k <= |Blocks()| == i.count && forall j :: 0 <= j < k ==> !Named(Entries(Blocks()[j], 0), name)
      {
        var b := ReadBlock(v, i, k);
        assert b == Blocks()[k];
        var found: bool;
        found, b', at := RemoveFromBlock(b, name);
        if found {
          return;
        }
        k := k + 1;
      }
    }

    /** Writes the whole of block `k`. */
    method Store(k: nat, b: seq<Byte>)
      requires HasBlocks() && k < i.count && |b| == v.blockSize
      modifies v`disk
      ensures HasBlocks() && |old(Blocks())| == i.count && Blocks() == old(Blocks())[k := b] && Others()
    {
      hide LeavesOf, BagOf, Ext2File.Mapped, Ext2File.Sectors, AllTaken, Patch;
      DataDiffers(v, i);
      BlockStored(v.disk, LeavesOf(i.kids), v.blockSize, k, b);
      LeafInBag(i.kids, k);
      KeptOne(v.disk, v.Used(), BagOf(i.kids), LeavesOf(i.kids)[k], b);
      WriteBlock(v, i, k, b, 0);
    }

    /** One more block is to be had, with the pointer blocks to it. */
    ghost predicate CanGrow()
      requires HasBlocks()
      reads v, i
    {
      v.blockSize / 4 > 0 && CanHave(v.blockSize / 4, v.totalFree, i.count, i.count + 1)
    }

    /** One block more; none is to be had, and the kernel stops, if the volume is full or the
        inode addresses no more. */
    method Append(b: seq<Byte>) returns (ok: bool)
      requires HasBlocks() && |b| == v.blockSize
      modifies v, i
      ensures ok ==> HasBlocks() && Blocks() == old(Blocks()) + [b] && Others()
      ensures !ok ==> v.Valid() && (v.IsFull() || old(i.count) >= Ext2File.First(v.blockSize / 4, Ext2File.SLOTS))
      ensures v.blockSize / 4 > 0 && (ok <==> old(CanGrow()))
    {
      hide LeavesOf, BagOf, Ext2File.Mapped, Ext2File.Sectors, AllTaken, Ext2File.First, Grown, Kept, CanHave,
           Ext2File.BlocksFor;
      ghost var d0, b0, u0, bag0 := v.disk, LeavesOf(i.kids), v.Used(), BagOf(i.kids);
      ok := AddCleared(v, i);
      if !ok {
        return;
      }
      GrownBlocks(d0, v.disk, b0, LeavesOf(i.kids), v.blockSize);
      assert (i.count - 1) * v.blockSize + v.blockSize == i.count * v.blockSize;
      i.size := i.size + v.blockSize;
      ghost var d1, u1, bag1 := v.disk, v.Used(), BagOf(i.kids);
      Store(i.count - 1, b);
      KeptMore(d0, d1, v.disk, u0, u1, v.Used(), bag0, bag1, BagOf(i.kids));
    }

    /** `dir_add_entry`: into the first block with room, or else into a new block, whose unused
        bytes are whatever was in memory. */
    method Add(name: Name, inode: nat, junk: seq<Byte>) returns (ok: bool)
      requires Valid() && 0 < |name| <= MAX_NAME && 0 < inode < MODULUS && name !in Names() && |junk| == v.blockSize
      modifies v, i
      ensures ok ==> Valid() && Names() == old(Names())[name := inode] && Others()
      ensures ok ==> (i.count == old(i.count) <==> RoomIn(old(Blocks()), MinSize(|name|)))
      ensures ok <==> old(CanGrow()) || RoomIn(old(Blocks()), MinSize(|name|))
      ensures !ok ==> v.Valid() && (v.IsFull() || old(i.count) >= Ext2File.First(v.blockSize / 4, Ext2File.SLOTS))
    {
      hide Tiled, Entries, DirOk, NamesOf, Fits, MinSize, SomeRoom, LeavesOf, BagOf, Ext2File.Mapped, Ext2File.Sectors,
           AllTaken, Ext2File.First, Kept, WriteEntry, CanGrow, RoomIn;
      ghost var blocks := Blocks();
      Fitting(name, inode);
      var k, b' := FindRoom(name, inode);
      if k < i.count {
        DirInserted(blocks, v.blockSize, k, b', Entry(name, inode));
        Store(k, b');
        return true;
      }
      b' := WriteEntry(junk, 0, v.blockSize, name, inode);
      Wrote(junk, 0, v.blockSize, name, inode);
      SingleRecord(b');
      DirAppended(blocks, v.blockSize, b', Entry(name, inode));
      ok := Append(b');
    }

    /** `dir_remove_entry`. */
    method Remove(name: Name) returns (found: bool)
      requires Valid()
      modifies v`disk
      ensures Valid() && (found <==> name in old(Names())) && Names() == old(Names()) - {name} && Others()
      ensures Blocks() == Without(old(Blocks()), name)
    {
      hide Tiled, Entries, LeavesOf, BagOf, Ext2File.Mapped, Ext2File.Sectors, AllTaken, Kept, AllEntries, Unique,
           MinSize, Named, Cut, Table, Removed, Without;
      ghost var blocks := Blocks();
      var k, b', at := FindNamed(name);
      found := k < i.count;
      if found {
        DirRemoved(blocks, v.blockSize, k, b', at);
        WithoutOne(blocks, v.blockSize, k, b', name);
        Store(k, b');
      } else {
        NowhereNamed(blocks, name);
        WithoutNone(blocks, name);
        KeptSame(v.disk, v.Used(), BagOf(i.kids));
      }
    }

    /** `node_rename`: false where the kernel stops, because a name is not a fit one, the new
        name is taken, the old one is not there, or, with the old entry gone, because the new name
        is too long or there is no block for it. */
    method Rename(from: Name, to: Name, junk: seq<Byte>) returns (ok: bool)
      requires Valid() && |junk| == v.blockSize
      modifies v, i
      ensures ok <==>
              MayRename(old(Names()), from, to) &&
              (from == to ||
               (|to| <= MAX_NAME && (old(CanGrow()) || RoomIn(Without(old(Blocks()), from), MinSize(|to|)))))
      ensures ok ==>
              Valid() && Names() ==
              (if from == to then old(Names()) else (old(Names()) - {from})[to := old(Names())[from]]) && Others()
      ensures !ok && MayRename(old(Names()), from, to) ==>
                v.Valid() && (|to| > MAX_NAME ||
                              (!old(CanGrow()) &&
                               (v.IsFull() || old(i.count) >= Ext2File.First(v.blockSize / 4, Ext2File.SLOTS))))
      ensures !ok && !MayRename(old(Names()), from, to) ==> v.disk == old(v.disk) && Valid() && Names() == old(Names())
    {
      hide DirOk, NamesOf, LeavesOf, BagOf, Ext2File.Mapped, Ext2File.Sectors, AllTaken, Ext2File.First, Kept, RoomIn,
           Without, MinSize, CanHave;
      if !FitName(from) || !FitName(to) {
        return false;
      }
      if from == to {
        KeptSame(v.disk, v.Used(), BagOf(i.kids));
        return true;
      }
      var inode := Find(from);
      var taken := Find(to);
      if taken != 0 || inode == 0 {
        return false;
      }
      ghost var d0, u0, bag0 := v.disk, v.Used(), BagOf(i.kids);
      ok := Remove(from);
      if |to| > MAX_NAME {
        return false;
      }
      ghost var d1, u1, bag1 := v.disk, v.Used(), BagOf(i.kids);
      ok := Add(to, inode, junk);
      if ok {
        KeptMore(d0, d1, v.disk, u0, u1, v.Used(), bag0, bag1, BagOf(i.kids));
      }
    }
  }
}
