/** The page cache: a hash table with chains, from an inode and an offset to a page. */
module PageCache {
  import opened Sequences
  import opened Words
  import opened ByteWords
  import Ext2Bytes
  import Ext2File
  import Ext2Tree
  import Ext2Volume

  datatype Key = Key(inode: nat, offset: nat)

  /** `frame` is the page, `bytes` how much of it is written back. */
  datatype Page = Page(frame: nat, refs: nat, dirty: bool, bytes: nat)

  type Table = map<Key, Page>

  // ----- What the operations mean -----

  function Acquired(t: Table, k: Key, bytes: nat, frame: nat): Table {
    if k in t then t[k := t[k].(refs := t[k].refs + 1)] else t[k := Page(frame, 1, false, bytes)]
  }

  function Dirtied(t: Table, k: Key): Table
    requires k in t
  {
    t[k := t[k].(dirty := true)]
  }

  function Released(t: Table, k: Key): Table {
    if k !in t then t else if t[k].refs > 1 then t[k := t[k].(refs := t[k].refs - 1)] else t - {k}
  }

  // ----- Bytes -----

  const PAGE_SIZE := 4096

  /** The bytes of each file, by inode, and of each frame. */
  type Files = map<nat, seq<Byte>>
  type Memory = map<nat, seq<Byte>>

  function FileOf(files: Files, inode: nat): seq<Byte> {
    if inode in files then files[inode] else []
  }

  function Content(mem: Memory, frame: nat): seq<Byte> {
    if frame in mem then mem[frame] else Zeros(PAGE_SIZE)
  }

  /** What a miss reads: a page of the file, filled up with zeros behind its end. */
  function Image(file: seq<Byte>, offset: nat): (page: seq<Byte>)
    ensures |page| == PAGE_SIZE
    ensures forall at :: 0 <= at < PAGE_SIZE ==> page[at] == if offset + at < |file| then file[offset + at] else 0
  {
    var part := Ext2Bytes.Clamped(file, offset, PAGE_SIZE);
    part + Zeros(PAGE_SIZE - |part|)
  }

  function Loaded(files: Files, mem: Memory, k: Key, frame: nat): Memory {
    mem[frame := Image(FileOf(files, k.inode), k.offset)]
  }

  /** How much of a page is written back. */
  function Part(mem: Memory, p: Page): seq<Byte> {
    var page := Content(mem, p.frame);
    page[..if p.bytes < |page| then p.bytes else |page|]
  }

  /** The files once the page of key `k` has been written back: only `p.bytes` of it. */
  function WrittenBack(files: Files, mem: Memory, k: Key, p: Page): Files {
    files[k.inode := Ext2Bytes.Overwrite(FileOf(files, k.inode), k.offset, Part(mem, p))]
  }

  /** Whether this release is the last and the page is to be written. */
  predicate LastDirty(t: Table, k: Key) {
    k in t && t[k].refs <= 1 && t[k].dirty
  }

  // ----- Chains -----

  datatype Entry = Entry(key: Key, page: Page)

  function Hash(k: Key, n: nat): (h: nat)
    requires n > 0
    ensures h < n
  {
    Bits(BXor, 32, k.inode, k.offset) % n
  }

  /** Each entry is in the chain of its key's hash, at one place only. */
  ghost predicate Chained(b: seq<seq<Entry>>) {
    && |b| > 0
    && (forall h, i :: 0 <= h < |b| && 0 <= i < |b[h]| ==> Hash(b[h][i].key, |b|) == h)
    && (forall h, i, j :: 0 <= h < |b| && 0 <= i < j < |b[h]| ==> b[h][i].key != b[h][j].key)
  }

  /** The table has exactly the entries of the chains. */
  ghost predicate Holds(b: seq<seq<Entry>>, t: Table) {
    && Chained(b)
    && (forall h, i :: 0 <= h < |b| && 0 <= i < |b[h]| ==> b[h][i].key in t && t[b[h][i].key] == b[h][i].page)
    && (forall k :: k in t ==> Entry(k, t[k]) in b[Hash(k, |b|)])
  }

  /** Entry `i` of chain `h` gets page `p`. */
  lemma ChainSet(b: seq<seq<Entry>>, t: Table, k: Key, i: nat, p: Page)
    requires Holds(b, t) && k in t && i < |b[Hash(k, |b|)]| && b[Hash(k, |b|)][i] == Entry(k, t[k])
    ensures var h := Hash(k, |b|); Holds(b[h := b[h][i := Entry(k, p)]], t[k := p])
  {
    hide Hash;
    var h := Hash(k, |b|);
    var b', t' := b[h := b[h][i := Entry(k, p)]], t[k := p];
    forall x | x in t' ensures Entry(x, t'[x]) in b'[Hash(x, |b|)] {
      if x == k {
        assert b'[h][i] == Entry(k, p);
      } else {
        var j :| 0 <= j < |b[Hash(x, |b|)]| && b[Hash(x, |b|)][j] == Entry(x, t[x]);
        assert b'[Hash(x, |b|)][j] == Entry(x, t[x]);
      }
    }
  }

  lemma ChainAdd(b: seq<seq<Entry>>, t: Table, k: Key, p: Page)
    requires Holds(b, t) && k !in t
    ensures var h := Hash(k, |b|); Holds(b[h := [Entry(k, p)] + b[h]], t[k := p])
  {
    hide Hash;
    var h := Hash(k, |b|);
    var b', t' := b[h := [Entry(k, p)] + b[h]], t[k := p];
    forall x | x in t' ensures Entry(x, t'[x]) in b'[Hash(x, |b|)] {
      if x == k {
        assert b'[h][0] == Entry(k, p);
      } else {
        assert Entry(x, t[x]) in b[Hash(x, |b|)];
      }
    }
  }

  lemma CutLength(c: seq<Entry>, i: nat)
    requires i < |c|
    ensures |Cut(c, i)| == |c| - 1
  {
  }

  lemma CutAt(c: seq<Entry>, i: nat, j: nat)
    requires i < |c| && j < |c| - 1
    ensures |Cut(c, i)| == |c| - 1 && Cut(c, i)[j] == c[if j < i then j else j + 1]
  {
  }

  lemma CutChained(b: seq<seq<Entry>>, h: nat, i: nat)
    requires Chained(b) && h < |b| && i < |b[h]|
    ensures Chained(b[h := Cut(b[h], i)])
  {
    hide Hash, Cut;
    var c := Cut(b[h], i);
    forall j: nat | j < |b[h]| - 1
           ensures |c| == |b[h]| - 1 && c[j] == b[h][if j < i then j else j + 1] { CutAt(b[h], i, j); }
    CutLength(b[h], i);
  }

  /** An entry of another key stays when entry `i` is cut out. */
  lemma StillIn(c: seq<Entry>, i: nat, e: Entry)
    requires i < |c| && e in c && e != c[i]
    ensures e in Cut(c, i)
  {
    var j :| 0 <= j < |c| && c[j] == e;
    assert Cut(c, i)[if j < i then j else j - 1] == e;
  }

  lemma ChainDrop(b: seq<seq<Entry>>, t: Table, k: Key, i: nat)
    requires Holds(b, t) && k in t && i < |b[Hash(k, |b|)]| && b[Hash(k, |b|)][i] == Entry(k, t[k])
    ensures var h := Hash(k, |b|); Holds(b[h := Cut(b[h], i)], t - {k})
  {
    var h := Hash(k, |b|);
    var c := Cut(b[h], i);
    var b': seq<seq<Entry>> := b[h := c];
    var t' := t - {k};
    CutChained(b, h, i);
    CutLength(b[h], i);
    hide Hash, Cut;
    forall x | x in t' ensures Entry(x, t'[x]) in b'[Hash(x, |b|)] {
      assert Entry(x, t[x]) in b[Hash(x, |b|)];
      if Hash(x, |b|) == h { StillIn(b[h], i, Entry(x, t[x])); }
    }
    forall g, j | 0 <= g < |b'| && 0 <= j < |b'[g]| ensures b'[g][j].key in t' && t'[b'[g][j].key] == b'[g][j].page {
      if g == h { CutAt(b[h], i, j); }
    }
  }

  class Cache {
    const v: Ext2Volume.Volume
    const inodes: map<nat, Ext2File.Inode>    // of the open files
    var buckets: seq<seq<Entry>>
    var mem: Memory
    ghost var table: Table

    ghost function Repr(): set<object> {
      {this, v} + inodes.Values
    }

    /** The open files are on the volume, no two share a block, and pages are theirs. */
    ghost predicate OnDisk()
      reads v, inodes.Values
    {
      && (forall f :: f in inodes ==> Ext2Bytes.FileOk(v, inodes[f]))
      && (forall f, g :: f in inodes && g in inodes && f != g ==> Ext2Bytes.FilesApart(inodes[f], inodes[g]))
    }

    ghost predicate Valid()
      reads this, v, inodes.Values
    {
      Holds(buckets, table) && OnDisk() && forall k :: k in table ==> k.inode in inodes
    }

    /** What the files have. */
    ghost function Contents(): Files
      requires OnDisk()
      reads v, inodes.Values
    {
      map f | f in inodes :: Ext2Bytes.Bytes(v, inodes[f])
    }

    constructor (n: nat, v: Ext2Volume.Volume, inodes: map<nat, Ext2File.Inode>)
      requires n > 0
      requires forall f :: f in inodes ==> Ext2Bytes.FileOk(v, inodes[f])
      requires forall f, g :: f in inodes && g in inodes && f != g ==> Ext2Bytes.FilesApart(inodes[f], inodes[g])
      ensures this.v == v && this.inodes == inodes && Valid() && table == map[] && |buckets| == n && mem == map[]
    {
      this.v, this.inodes := v, inodes;
      mem := map[];
      buckets := seq(n, _ => []);
      table := map[];
    }

    /** There are blocks for what is to be written back. */
    ghost predicate RoomFor(k: Key, p: Page)
      requires OnDisk() && k.inode in inodes
      reads this, v, inodes.Values
    {
      OpenFile(k.inode);
      var part, i := Part(mem, p), inodes[k.inode];
      part == [] ||
        Ext2Bytes.CanHave(v.blockSize / 4, v.totalFree, i.count, Ext2Tree.Slot(k.offset + |part| - 1, v.blockSize) + 1)
    }

    /** An inode that is a file on `disk`, with these bytes and none of the blocks in `bag`. */
    ghost predicate Other(disk: seq<seq<Byte>>, used: set<nat>, bag: multiset<nat>, j: Ext2File.Inode, bytes: seq<Byte>)
      reads j
    {
      && Ext2Bytes.FileIn(disk, used, v.blockSize, j.block, j.kids, j.blocks, j.count, j.size)
      && Ext2Bytes.Content(disk, Ext2Tree.LeavesOf(j.kids), v.blockSize, j.size) == bytes
      && forall x :: x in Ext2Tree.BagOf(j.kids) ==> x !in bag
    }

    lemma BeOther(f: nat, g: nat)
      requires OnDisk() && f in inodes && g in inodes && g != f
      ensures inodes[g] != inodes[f] && inodes[f].Valid(v)
      ensures Other(v.disk, v.Used(), Ext2Tree.BagOf(inodes[f].kids), inodes[g], Contents()[g])
    {
      hide Ext2Tree.BagOf, Ext2Tree.LeavesOf, Ext2File.Mapped, Ext2Bytes.Content;
      assert Ext2Bytes.FilesApart(inodes[g], inodes[f]) && Ext2Bytes.FileOk(v, inodes[f]) &&
             Ext2Bytes.FileOk(v, inodes[g]);
      Ext2Bytes.FileIsIn(v, inodes[g]);
    }

    lemma StaysOther(disk: seq<seq<Byte>>, used: set<nat>, bag: multiset<nat>, f: nat, g: nat, bytes: seq<Byte>)
      requires f in inodes && g in inodes && inodes[f] != inodes[g] && inodes[f].Valid(v) &&
               Other(disk, used, bag, inodes[g], bytes)
      requires Ext2Bytes.Kept(disk, v.disk, used, v.Used(), bag, Ext2Tree.BagOf(inodes[f].kids))
      ensures Ext2Bytes.FileOk(v, inodes[g]) && Ext2Bytes.Bytes(v, inodes[g]) == bytes
      ensures Ext2Bytes.FilesApart(inodes[f], inodes[g]) && Ext2Bytes.FilesApart(inodes[g], inodes[f])
    {
      hide Ext2Bytes.FileIn, Ext2Bytes.FileOk, Ext2Bytes.Bytes, Ext2Bytes.Kept, Ext2Tree.BagOf, Ext2Tree.LeavesOf,
           Ext2Bytes.Content;
      var j := inodes[g];
      Ext2Bytes.FileKept(disk, v.disk, used, v.Used(), bag, Ext2Tree.BagOf(inodes[f].kids), v.blockSize, j.block,
                         j.kids, j.blocks, j.count, j.size);
      Ext2Bytes.FileIsIn(v, j);
    }

    lemma ContentsAt(f: nat)
      requires OnDisk() && f in inodes
      ensures FileOf(Contents(), f) == Ext2Bytes.Bytes(v, inodes[f])
    {
    }

    lemma OpenFile(f: nat)
      requires OnDisk() && f in inodes
      ensures Ext2Bytes.FileOk(v, inodes[f]) && inodes[f].Valid(v) && v.blockSize == 4 * (v.blockSize / 4) > 0
    {
    }

    /** The place of `k` in its chain, or -1. */
    method Find(k: Key) returns (i: int)
      requires Valid()
      ensures |buckets| > 0 && Hash(k, |buckets|) < |buckets| && -1 <= i < |buckets[Hash(k, |buckets|)]| &&
              (i == -1 <==> k !in table)
      ensures i >= 0 ==> buckets[Hash(k, |buckets|)][i] == Entry(k, table[k])
    {
      hide OnDisk;
      var chain := buckets[Hash(k, |buckets|)];
      i := 0;
      while i < |chain|
        invariant 0 <= i <= |chain| && forall j :: 0 <= j < i ==> chain[j].key != k
      {
        if chain[i].key == k {
          return;
        }
        i := i + 1;
      }
      return -1;
    }

    /** Reads a page from its file. */
    method Load(k: Key) returns (page: seq<Byte>)
      requires OnDisk() && k.inode in inodes
      ensures page == Image(FileOf(Contents(), k.inode), k.offset)
    {
      hide OnDisk, Contents, Ext2Bytes.FileOk, Ext2Bytes.Bytes, Ext2Bytes.Clamped, Image;
      OpenFile(k.inode);
      ContentsAt(k.inode);
      var part := Ext2Bytes.ReadAll(v, inodes[k.inode], k.offset, PAGE_SIZE);
      ImageOf(Ext2Bytes.Bytes(v, inodes[k.inode]), k.offset, part);
      page := part + Zeros(PAGE_SIZE - |part|);
    }

    /** `page_cache_acquire`; `frame` is the page that a miss allocates. */
    method Acquire(k: Key, bytes: nat, frame: nat) returns (p: Page)
      requires Valid() && k.inode in inodes
      modifies this
      ensures Valid() && table == Acquired(old(table), k, bytes, frame) && p == table[k] &&
              Contents() == old(Contents())
      ensures mem == if k in old(table) then old(mem) else Loaded(Contents(), old(mem), k, frame)
    {
      hide Holds, Hash, OnDisk, Contents, Image;
      var i := Find(k);
      Sizes(buckets, table, k);
      var h := Hash(k, |buckets|);
      if i >= 0 {
        p := buckets[h][i].page;
        p := p.(refs := p.refs + 1);
        ChainSet(buckets, table, k, i, p);
        buckets := buckets[h := buckets[h][i := Entry(k, p)]];
      } else {
        var page := Load(k);
        mem := mem[frame := page];
        p := Page(frame, 1, false, bytes);
        ChainAdd(buckets, table, k, p);
        buckets := buckets[h := [Entry(k, p)] + buckets[h]];
      }
      table := table[k := p];
    }

    /** `page_cache_mark_dirty`: false, where the kernel stops, if there is no such page. */
    method MarkDirty(k: Key) returns (ok: bool)
      requires Valid()
      modifies this
      ensures Valid() && (ok <==> k in old(table)) && mem == old(mem) && Contents() == old(Contents())
      ensures table == if ok then Dirtied(old(table), k) else old(table)
    {
      hide Holds, Hash, OnDisk, Contents;
      var i := Find(k);
      Sizes(buckets, table, k);
      var h := Hash(k, |buckets|);
      ok := i >= 0;
      if ok {
        var p := buckets[h][i].page.(dirty := true);
        ChainSet(buckets, table, k, i, p);
        buckets := buckets[h := buckets[h][i := Entry(k, p)]];
        table := table[k := p];
      }
    }

    /** Writes the first bytes of a page to its file; false, where the kernel stops, if there are
        no blocks for them. */
    method WriteBack(k: Key, p: Page) returns (ok: bool)
      requires OnDisk() && k.inode in inodes
      modifies v, inodes.Values
      ensures ok <==> old(RoomFor(k, p))
      ensures ok ==> OnDisk() && Contents() == WrittenBack(old(Contents()), mem, k, p)
    {
      hide Ext2Bytes.FileOk, Ext2Bytes.Bytes, Ext2Bytes.FileIn, Ext2Bytes.Overwrite, Ext2Bytes.Kept, Ext2Bytes.CanHave,
           Ext2Bytes.Content;
      hide Ext2Tree.BagOf, Ext2Tree.LeavesOf, Ext2File.Mapped, Ext2File.BlocksFor, Ext2File.First, Ext2Tree.Slot, Part,
           Other, Ext2Bytes.FilesApart;
      var f := k.inode;
      OpenFile(f);
      ghost var disk, used, bag := v.disk, v.Used(), Ext2Tree.BagOf(inodes[f].kids);
      ghost var was := Contents();
      forall g | g in inodes && g != f
             ensures inodes[g] != inodes[f] && Other(disk, used, bag, inodes[g], was[g]) { BeOther(f, g); }
      ok := Ext2Bytes.WriteAll(v, inodes[f], k.offset, Part(mem, p));
      if ok {
        ValidAfter(v, inodes[f]);
        forall g | g in inodes && g != f
               ensures Ext2Bytes.FileOk(v, inodes[g]) { StaysOther(disk, used, bag, f, g, was[g]); }
        forall g | g in inodes && g != f ensures Ext2Bytes.Bytes(v, inodes[g]) == was[g] {
          StaysOther(disk, used, bag, f, g, was[g]);
        }
        forall g, h | g in inodes && h in inodes && g != h ensures Ext2Bytes.FilesApart(inodes[g], inodes[h]) {
          if g == f {
            StaysOther(disk, used, bag, f, h, was[h]);
          } else if h == f {
            StaysOther(disk, used, bag, f, g, was[g]);
          } else {
            assert old(Ext2Bytes.FilesApart(inodes[g], inodes[h]));
          }
        }
      }
    }

    /** `page_cache_release`: the page if this was the last reference, to be freed; it has been
        written back if it was dirty, and otherwise no file has changed.  Not `ok`, where the kernel
        stops, if there are no blocks to write it to. */
    method Release(k: Key) returns (ok: bool, gone: Option<Page>)
      requires Valid()
      modifies Repr()
      ensures ok <==> (LastDirty(old(table), k) ==> old(RoomFor(k, table[k])))
      ensures gone == if k in old(table) && old(table)[k].refs <= 1 then Some(old(table)[k]) else None
      ensures ok ==> Valid() && table == Released(old(table), k) && mem == old(mem)
      ensures ok ==> Contents() == if LastDirty(old(table), k) then WrittenBack(old(Contents()), mem, k, old(table)[k])
              else old(Contents())
    {
      hide Holds, Hash, OnDisk, Contents, WrittenBack, Ext2Bytes.CanHave, Ext2Tree.Slot;
      var i := Find(k);
      Sizes(buckets, table, k);
      var h := Hash(k, |buckets|);
      ok, gone := true, None;
      if i >= 0 {
        var p := buckets[h][i].page;
        if p.refs > 1 {
          ChainSet(buckets, table, k, i, p.(refs := p.refs - 1));
          buckets := buckets[h := buckets[h][i := Entry(k, p.(refs := p.refs - 1))]];
          table := table[k := p.(refs := p.refs - 1)];
        } else {
          ChainDrop(buckets, table, k, i);
          buckets := buckets[h := Cut(buckets[h], i)];
          table := table - {k};
          gone := Some(p);
          if p.dirty {
            ok := WriteBack(k, p);
          }
        }
      }
    }
  }

  lemma Sizes(b: seq<seq<Entry>>, t: Table, k: Key)
    requires Holds(b, t)
    ensures |b| > 0 && Hash(k, |b|) < |b|
  {
  }

  lemma ImageOf(file: seq<Byte>, offset: nat, part: seq<Byte>)
    requires part == Ext2Bytes.Clamped(file, offset, PAGE_SIZE)
    ensures |part| <= PAGE_SIZE && part + Zeros(PAGE_SIZE - |part|) == Image(file, offset)
  {
  }

  lemma ValidAfter(v: Ext2Volume.Volume, i: Ext2File.Inode)
    requires Ext2Bytes.FileOk(v, i)
    ensures i.Valid(v) && v.Valid() && v.blockSize == 4 * (v.blockSize / 4)
  {
  }
}
