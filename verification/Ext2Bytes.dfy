/** Reading and writing files byte by byte, over the block map.

    A file that is never shrunk behaves as one sequence of bytes: a write replaces bytes and
    extends the sequence with zeros if it starts beyond the end; a read stops at the end.
  */
module Ext2Bytes {
  import opened Words
  import opened ByteWords
  import opened Sequences
  import opened Ext2Volume
  import opened Ext2Tree
  import opened Ext2Inode
  import opened Ext2File

  // ----- Files as byte sequences -----

  function Overwrite(c: seq<Byte>, offset: nat, src: seq<Byte>): seq<Byte> {
    if src == [] then c else
    var n := if |c| < offset + |src| then offset + |src| else |c|;
    seq(n, p requires 0 <= p < n =>
      if offset <= p < offset + |src| then src[p - offset] else if p < |c| then c[p] else 0)
  }

  function Clamped(c: seq<Byte>, offset: nat, size: nat): seq<Byte> {
    if size == 0 || offset >= |c| then [] else c[offset..if offset + size < |c| then offset + size else |c|]
  }

  // ----- Bytes in blocks -----

  predicate Images(disk: seq<seq<Byte>>, bs: seq<nat>, size: nat) {
    size > 0 && forall k :: 0 <= k < |bs| ==> bs[k] < |disk| && |disk[bs[k]]| == size
  }

  function ByteAt(disk: seq<seq<Byte>>, bs: seq<nat>, size: nat, p: nat): Byte
    requires Images(disk, bs, size)
  {
    if Slot(p, size) < |bs| then disk[bs[Slot(p, size)]][Rest(p, size)] else 0
  }

  /** The first `n` bytes of the file. */
  function Content(disk: seq<seq<Byte>>, bs: seq<nat>, size: nat, n: nat): (c: seq<Byte>)
    requires Images(disk, bs, size)
    ensures |c| == n
  {
    seq(n, p requires 0 <= p => ByteAt(disk, bs, size, p))
  }

  lemma PatchByte(disk: seq<seq<Byte>>, bs: seq<nat>, size: nat, k: nat, at: nat, chunk: seq<Byte>, p: nat)
    requires Images(disk, bs, size) && k < |bs| && at + |chunk| <= size
    requires Once(bs)
    ensures var disk' := disk[bs[k] := Patch(disk[bs[k]], at, chunk)];
            && Images(disk', bs, size)
            && ByteAt(disk', bs, size, p) ==
                 if Slot(p, size) == k && at <= Rest(p, size) < at + |chunk| then chunk[Rest(p, size) - at]
                    else ByteAt(disk, bs, size, p)
  {
    hide Slot, Rest;
  }

  /** A range that stays within one block. */
  lemma SameBlock(pos: nat, n: nat, size: nat, p: nat)
    requires size > 0 && Rest(pos, size) + n <= size
    ensures pos <= p < pos + n <==>
              Slot(p, size) == Slot(pos, size) && Rest(pos, size) <= Rest(p, size) < Rest(pos, size) + n
    ensures pos <= p < pos + n ==> Rest(p, size) - Rest(pos, size) == p - pos
  {
    var k := Slot(pos, size);
    SlotRest(pos, size, k, Rest(pos, size));
    SlotRest(p, size, Slot(p, size), Rest(p, size));
    if pos <= p < pos + n {
      SlotRest(p, size, k, Rest(pos, size) + (p - pos));
    }
  }

  /** Writing a chunk that fits into one block. */
  lemma WriteChunk(disk: seq<seq<Byte>>, bs: seq<nat>, size: nat, pos: nat, chunk: seq<Byte>, p: nat)
    requires Images(disk, bs, size) && Slot(pos, size) < |bs| && Rest(pos, size) + |chunk| <= size
    requires Once(bs)
    ensures var k := Slot(pos, size);
            var disk' := disk[bs[k] := Patch(disk[bs[k]], Rest(pos, size), chunk)];
            && Images(disk', bs, size)
            && ByteAt(disk', bs, size, p) == if pos <= p < pos + |chunk| then chunk[p - pos]
              else ByteAt(disk, bs, size, p)
  {
    hide Slot, Rest, ByteAt, Patch;
    PatchByte(disk, bs, size, Slot(pos, size), Rest(pos, size), chunk, p);
    SameBlock(pos, |chunk|, size, p);
  }

  // ----- The pieces of a transfer -----

  /** Where the part of a transfer of `n` bytes at `offset` that is in block `k` begins, and how
      long it is, as both loops compute it. */
  function ChunkAt(offset: nat, size: nat, k: nat): nat
    requires size > 0
  {
    if k == Slot(offset, size) then Rest(offset, size) else 0
  }

  function ChunkSize(offset: nat, n: nat, size: nat, k: nat): int
    requires size > 0 && n > 0
  {
    if k == Slot(offset + n - 1, size) then Rest(offset + n - 1, size) - ChunkAt(offset, size, k) + 1
    else size - ChunkAt(offset, size, k)
  }

  function ChunkPos(offset: nat, size: nat, k: nat): nat
    requires size > 0
  {
    if k == Slot(offset, size) then offset else k * size
  }

  lemma Chunk(offset: nat, n: nat, size: nat, k: nat)
    requires size > 0 && n > 0 && Slot(offset, size) <= k <= Slot(offset + n - 1, size)
    ensures var pos, c := ChunkPos(offset, size, k), ChunkSize(offset, n, size, k);
            && Slot(pos, size) == k && Rest(pos, size) == ChunkAt(offset, size, k)
            && c > 0 && ChunkAt(offset, size, k) + c <= size
            && pos >= offset && pos + c <= offset + n
            && pos + c == if k == Slot(offset + n - 1, size) then offset + n else ChunkPos(offset, size, k + 1)
  {
    hide Slot, Rest;
    var last := offset + n - 1;
    var s, t := Slot(offset, size), Slot(last, size);
    SlotRest(offset, size, s, Rest(offset, size));
    SlotRest(last, size, t, Rest(last, size));
    SlotRest(k * size, size, k, 0);
    MulMono(s + 1, k, size);
    MulMono(k + 1, t, size);
    assert (s + 1) * size == s * size + size && (k + 1) * size == k * size + size;
  }

  /** The transfer touches at least one block. */
  lemma FirstLast(offset: nat, n: nat, size: nat)
    requires size > 0 && n > 0
    ensures Slot(offset, size) <= Slot(offset + n - 1, size)
  {
    hide Slot, Rest;
    var last := offset + n - 1;
    SlotRest(offset, size, Slot(offset, size), Rest(offset, size));
    SlotRest(last, size, Slot(last, size), Rest(last, size));
    MulMono(Slot(last, size) + 1, Slot(offset, size), size);
    assert (Slot(last, size) + 1) * size == Slot(last, size) * size + size;
  }

  // ----- A file on a volume -----

  ghost predicate FileOk(v: Volume, i: Inode)
    reads v, i
  {
    && i.Valid(v) && Images(v.disk, LeavesOf(i.kids), v.blockSize)
    && (i.size > 0 ==> Slot(i.size - 1, v.blockSize) < i.count)
    && (forall p :: p >= i.size ==> ByteAt(v.disk, LeavesOf(i.kids), v.blockSize, p) == 0)
  }

  ghost function Bytes(v: Volume, i: Inode): seq<Byte>
    requires FileOk(v, i)
    reads v, i
  {
    Content(v.disk, LeavesOf(i.kids), v.blockSize, i.size)
  }

  /** The image of block `b`; a hole reads as zeros. */
  function Load(disk: seq<seq<Byte>>, size: nat, b: nat): seq<Byte> {
    if b == 0 || b >= |disk| then Zeros(size) else disk[b]
  }

  method ReadBlock(v: Volume, i: Inode, k: nat) returns (buf: seq<Byte>)
    requires i.Valid(v) && k < i.count
    ensures LeavesOf(i.kids)[k] < |v.disk| && buf == v.disk[LeavesOf(i.kids)[k]] && |buf| == v.blockSize
  {
    hide Span, Packed, Stored, First, AllTaken, Leaves, LeavesOf, Bag, BagOf, Distinct, Depth, Sectors, BlockNumber;
    var e := v.blockSize / 4;
    ReadsAppended(v.disk, e, i.block, i.kids, k);
    LeafStored(v.disk, e, i.kids, k);
    buf := Load(v.disk, v.blockSize, BlockNumber(v.disk, e, i.block, k));
  }

  /** Data blocks exist, and block 0 is not one of them. */
  lemma LeafStored(disk: seq<seq<Byte>>, e: nat, kids: seq<Tree>, k: nat)
    requires (forall j :: 0 <= j < |kids| ==> Stored(disk, kids[j], e)) && k < |LeavesOf(kids)|
    ensures 0 < LeavesOf(kids)[k] < |disk|
  {
    var x := LeavesOf(kids)[k];
    BagPartsOf(kids);
    assert x in multiset(LeavesOf(kids));
    assert x in BagOf(kids);
    var j := InSomeKid(kids, x);
    StoredBlocks(disk, e, kids[j], x);
  }

  /** The part of block `k` that a transfer reads. */
  lemma ChunkRead(disk: seq<seq<Byte>>, bs: seq<nat>, size: nat, total: nat, offset: nat, n: nat, k: nat)
    requires Images(disk, bs, size) && n > 0 && Slot(offset, size) <= k <= Slot(offset + n - 1, size) && k < |bs| &&
             offset + n <= total
    ensures var pos, at, c := ChunkPos(offset, size, k), ChunkAt(offset, size, k), ChunkSize(offset, n, size, k);
            && c > 0 && at + c <= size && pos + c <= total
            && disk[bs[k]][at..at + c] == Content(disk, bs, size, total)[pos..pos + c]
  {
    hide Slot, Rest, ChunkPos, ChunkAt, ChunkSize;
    Chunk(offset, n, size, k);
    var pos, at, c := ChunkPos(offset, size, k), ChunkAt(offset, size, k), ChunkSize(offset, n, size, k);
    var part, there := disk[bs[k]][at..at + c], Content(disk, bs, size, total)[pos..pos + c];
    forall q | 0 <= q < c ensures part[q] == there[q] {
      SameBlock(pos, c, size, pos + q);
    }
  }

  lemma EndInFile(size: nat, a: nat, b: nat, n: nat)
    requires size > 0 && a <= b && Slot(b, size) < n
    ensures Slot(a, size) < n
  {
    hide Slot, Rest;
    SlotRest(a, size, Slot(a, size), Rest(a, size));
    SlotRest(b, size, Slot(b, size), Rest(b, size));
    MulMono(Slot(b, size) + 1, Slot(a, size), size);
    assert (Slot(b, size) + 1) * size == Slot(b, size) * size + size;
  }

  lemma Join(c: seq<Byte>, a: nat, m: nat, b: nat)
    requires a <= m <= b <= |c|
    ensures c[a..m] + c[m..b] == c[a..b]
  {
  }

  /** `node_read_all`. */
  method ReadAll(v: Volume, i: Inode, offset: nat, size: nat) returns (dest: seq<Byte>)
    requires FileOk(v, i)
    ensures dest == Clamped(Bytes(v, i), offset, size)
  {
    hide Slot, Rest, ChunkPos, ChunkAt, ChunkSize, Content, ByteAt, LeavesOf, Inode.Valid, Volume.Valid;
    CountIs(v, i);
    ghost var all := Bytes(v, i);
    dest := [];
    if size == 0 || offset >= i.size {
      return;
    }
    var n := if size > i.size - offset then i.size - offset else size;
    var last := Slot(offset + n - 1, v.blockSize);
    var k := Slot(offset, v.blockSize);
    FirstLast(offset, n, v.blockSize);
    EndInFile(v.blockSize, offset + n - 1, i.size - 1, i.count);
    Chunk(offset, n, v.blockSize, k);
    StartsAt(offset, v.blockSize);
    while k <= last
      invariant Slot(offset, v.blockSize) <= k <= last + 1
      invariant offset + |dest| == if k <= last then ChunkPos(offset, v.blockSize, k) else offset + n
      invariant |dest| <= n && dest == all[offset..offset + |dest|]
    {
      Chunk(offset, n, v.blockSize, k);
      ChunkRead(v.disk, LeavesOf(i.kids), v.blockSize, i.size, offset, n, k);
      var buf := ReadBlock(v, i, k);
      var at, c := ChunkAt(offset, v.blockSize, k), ChunkSize(offset, n, v.blockSize, k);
      Join(all, offset, offset + |dest|, offset + |dest| + c);
      dest := dest + buf[at..at + c];
      k := k + 1;
    }
  }

  lemma CountIs(v: Volume, i: Inode)
    requires i.Valid(v)
    ensures i.count == |LeavesOf(i.kids)|
  {
  }

  lemma StartsAt(offset: nat, size: nat)
    requires size > 0
    ensures ChunkPos(offset, size, Slot(offset, size)) == offset
  {
  }

  // ----- Growing -----

  /** The data blocks `bs` have the same bytes, and those after them in `bs'` are clear. */
  ghost predicate Grown(disk: seq<seq<Byte>>, disk': seq<seq<Byte>>, bs: seq<nat>, bs': seq<nat>, size: nat) {
    && Images(disk, bs, size) && Images(disk', bs', size) && bs <= bs'
    && (forall k :: 0 <= k < |bs| ==> disk'[bs[k]] == disk[bs[k]])
    && (forall k :: |bs| <= k < |bs'| ==> disk'[bs'[k]] == Zeros(size))
  }

  lemma GrownMore(d0: seq<seq<Byte>>, d1: seq<seq<Byte>>, d2: seq<seq<Byte>>, b0: seq<nat>, b1: seq<nat>, b2: seq<nat>,
                  size: nat)
    requires Grown(d0, d1, b0, b1, size) && Grown(d1, d2, b1, b2, size)
    ensures Grown(d0, d2, b0, b2, size)
  {
    forall k | |b0| <= k < |b2| ensures d2[b2[k]] == Zeros(size) {
      if k < |b1| { assert d2[b1[k]] == d1[b1[k]]; }
    }
    forall k | 0 <= k < |b0| ensures d2[b0[k]] == d0[b0[k]] { assert d2[b1[k]] == d1[b1[k]]; }
  }

  /** Growing changes no byte. */
  lemma GrownBytes(disk: seq<seq<Byte>>, disk': seq<seq<Byte>>, bs: seq<nat>, bs': seq<nat>, size: nat, p: nat)
    requires Grown(disk, disk', bs, bs', size)
    ensures ByteAt(disk', bs', size, p) == ByteAt(disk, bs, size, p)
  {
    hide Slot, Rest;
    var k := Slot(p, size);
    if k < |bs| {
      assert disk'[bs[k]] == disk[bs[k]];
    }
  }

  /** One block more: allocated and cleared before it was appended. */
  lemma AddedClear(disk: seq<seq<Byte>>, disk1: seq<seq<Byte>>, disk2: seq<seq<Byte>>, used: set<nat>, kids: seq<Tree>,
                   kids': seq<Tree>, b: nat, added: multiset<nat>, size: nat)
    requires Images(disk, LeavesOf(kids), size) && Distinct(BagOf(kids)) && (forall x :: x in BagOf(kids) ==> x in used)
    requires b < |disk| && b !in used && disk1 == disk[b := Zeros(size)]
    requires LeavesOf(kids') == LeavesOf(kids) + [b] && Only(disk1, disk2, PtrsOf(kids) + added)
    requires forall x :: x in added ==> x !in used && x != b
    ensures Grown(disk, disk2, LeavesOf(kids), LeavesOf(kids'), size)
  {
    hide Bag, BagOf, Leaves, LeavesOf, Ptrs, PtrsOf, Distinct;
    var bs, bs' := LeavesOf(kids), LeavesOf(kids');
    BagPartsOf(kids);
    Parts(PtrsOf(kids), multiset(bs));
    assert forall k :: 0 <= k < |bs| ==> bs[k] in multiset(bs);
    assert b !in PtrsOf(kids) + added;
    forall k | 0 <= k < |bs| ensures disk2[bs[k]] == disk[bs[k]] {
      assert bs[k] in multiset(bs);
      assert bs[k] in BagOf(kids);
    }
  }

  /** While the blocks of a file go from `bag` to `bag'`, blocks in use by others are left alone,
      and stay others'. */
  ghost predicate Kept(disk: seq<seq<Byte>>, disk': seq<seq<Byte>>, used: set<nat>, used': set<nat>, bag: multiset<nat>,
                       bag': multiset<nat>) {
    && |disk'| == |disk| && used <= used'
    && (forall x :: x in used && x !in bag && x < |disk| ==> disk'[x] == disk[x])
    && (forall x :: x in bag' ==> x in bag || x !in used)
  }

  lemma KeptMore(d0: seq<seq<Byte>>, d1: seq<seq<Byte>>, d2: seq<seq<Byte>>, u0: set<nat>, u1: set<nat>, u2: set<nat>,
                 b0: multiset<nat>, b1: multiset<nat>, b2: multiset<nat>)
    requires Kept(d0, d1, u0, u1, b0, b1) && Kept(d1, d2, u1, u2, b1, b2)
    ensures Kept(d0, d2, u0, u2, b0, b2)
  {
  }

  /** Allocating a block leaves the block map alone. */
  lemma MapKept(disk: seq<seq<Byte>>, used: set<nat>, e: nat, block: seq<nat>, kids: seq<Tree>, b: nat)
    requires Mapped(disk, used, e, block, kids) && b < |disk| && b !in used
    ensures Mapped(disk[b := Zeros(4 * e)], used + {b}, e, block, kids) && b !in BagOf(kids)
  {
    hide Bag, BagOf, Leaves, Ptrs, PtrsOf, Distinct, Stored, FilePacked;
    BagPartsOf(kids);
    KidsFrame(disk, disk[b := Zeros(4 * e)], e, kids, multiset{b});
  }

  /** A file with `count` data blocks can be given data blocks up to the `n`-th when `free` blocks
      are free: the inode can address them, and there are as many as they and the pointer blocks
      to them take. */
  predicate CanHave(e: nat, free: int, count: nat, n: nat)
    requires e > 0
  {
    n <= count || (n <= First(e, SLOTS) && free >= BlocksFor(e, n) - BlocksFor(e, count))
  }

  /** One block more of the file, and of nobody else's. */
  lemma AddedKept(disk: seq<seq<Byte>>, disk1: seq<seq<Byte>>, disk2: seq<seq<Byte>>, used: set<nat>, used1: set<nat>,
                  used2: set<nat>,
                  e: nat, block: seq<nat>, kids: seq<Tree>, kids': seq<Tree>, b: nat, added: multiset<nat>)
    requires Mapped(disk, used, e, block, kids) && Images(disk, LeavesOf(kids), 4 * e)
    requires b < |disk| && b !in used && used1 == used + {b} && disk1 == disk[b := Zeros(4 * e)] &&
             Allocated(used1, used2, added)
    requires LeavesOf(kids') == LeavesOf(kids) + [b] && BagOf(kids') == BagOf(kids) + added + multiset{b}
    requires Only(disk1, disk2, PtrsOf(kids) + added)
    ensures Grown(disk, disk2, LeavesOf(kids), LeavesOf(kids'), 4 * e) &&
            Kept(disk, disk2, used, used2, BagOf(kids), BagOf(kids'))
  {
    hide Bag, BagOf, Leaves, LeavesOf, Ptrs, PtrsOf, Distinct, FileStored;
    AddedClear(disk, disk1, disk2, used, kids, kids', b, added, 4 * e);
    BagPartsOf(kids);
  }

  lemma CanHaveOne(e: nat, free: int, count: nat)
    requires e > 0
    ensures BlocksFor(e, count + 1) == BlocksFor(e, count) + 1 + PointersFor(e, count)
    ensures CanHave(e, free, count, count + 1) <==> count < First(e, SLOTS) && free >= 1 + PointersFor(e, count)
  {
    hide First, PointerBlocks, PointersFor;
    PointerStep(e, count);
  }

  method AddCleared(v: Volume, i: Inode) returns (ok: bool)
    requires i.Valid(v) && Images(v.disk, LeavesOf(i.kids), v.blockSize)
    modifies v, i
    ensures v.Valid() && i.size == old(i.size)
    ensures ok ==>
            i.Valid(v) && i.count == old(i.count) + 1 &&
            Grown(old(v.disk), v.disk, old(LeavesOf(i.kids)), LeavesOf(i.kids), v.blockSize)
    ensures ok ==> Kept(old(v.disk), v.disk, old(v.Used()), v.Used(), old(BagOf(i.kids)), BagOf(i.kids))
    ensures !ok ==> v.IsFull() || old(i.count) >= First(v.blockSize / 4, SLOTS)
    ensures v.blockSize / 4 > 0 && (ok <==> CanHave(v.blockSize / 4, old(v.totalFree), old(i.count), old(i.count) + 1))
    ensures ok ==>
            v.totalFree + BlocksFor(v.blockSize / 4, i.count) ==
            old(v.totalFree) + BlocksFor(v.blockSize / 4, old(i.count))
  {
    hide Bag, BagOf, Leaves, LeavesOf, Ptrs, PtrsOf, Distinct, Stored, FilePacked, AllTaken, Sectors, First, BlocksFor,
         PointersFor, CanHave;
    hide Mapped, Only, Allocated, Grown, Kept;
    ghost var e := v.blockSize / 4;
    i.Entries(v);
    NotNegative(v);
    CanHaveOne(e, v.totalFree, i.count);
    ghost var used, disk, kids, block := v.Used(), v.disk, i.kids, i.block;
    var b := v.AllocBlock();
    if b == -1 {
      return false;
    }
    MapKept(disk, used, e, i.block, kids, b);
    ghost var disk1, used1 := v.disk, v.Used();
    var r: Outcome;
    ghost var added: multiset<nat>;
    r, added := i.AddBlock(v, b);
    ok := r == Added;
    if ok {
      AddedKept(disk, disk1, v.disk, used, used1, v.Used(), e, block, kids, i.kids, b, added);
    }
  }

  /** Appends blocks until data block `last` exists. */
  method Grow(v: Volume, i: Inode, last: nat) returns (ok: bool)
    requires i.Valid(v) && Images(v.disk, LeavesOf(i.kids), v.blockSize)
    modifies v, i
    ensures v.Valid() && i.size == old(i.size)
    ensures ok ==>
            i.Valid(v) && last < i.count &&
            Grown(old(v.disk), v.disk, old(LeavesOf(i.kids)), LeavesOf(i.kids), v.blockSize)
    ensures ok ==> Kept(old(v.disk), v.disk, old(v.Used()), v.Used(), old(BagOf(i.kids)), BagOf(i.kids))
    ensures !ok ==> v.IsFull() || last >= First(v.blockSize / 4, SLOTS)
    ensures v.blockSize / 4 > 0 && (ok <==> CanHave(v.blockSize / 4, old(v.totalFree), old(i.count), last + 1))
    ensures ok ==>
            v.totalFree + BlocksFor(v.blockSize / 4, i.count) ==
            old(v.totalFree) + BlocksFor(v.blockSize / 4, old(i.count))
  {
    hide Bag, BagOf, Leaves, LeavesOf, Ptrs, PtrsOf, Distinct, Stored, FilePacked, AllTaken, Sectors, First, BlocksFor;
    ghost var e := v.blockSize / 4;
    NotNegative(v);
    ok := true;
    GrownSame(v.disk, LeavesOf(i.kids), v.blockSize);
    while last >= i.count
      invariant i.Valid(v) && i.size == old(i.size) && old(i.count) <= i.count && v.totalFree >= 0
      invariant i.count == old(i.count) || (i.count <= First(e, SLOTS) && i.count <= last + 1)
      invariant v.totalFree + BlocksFor(e, i.count) == old(v.totalFree) + BlocksFor(e, old(i.count))
      invariant Grown(old(v.disk), v.disk, old(LeavesOf(i.kids)), LeavesOf(i.kids), v.blockSize)
      invariant Kept(old(v.disk), v.disk, old(v.Used()), v.Used(), old(BagOf(i.kids)), BagOf(i.kids))
      decreases last + 1 - i.count
    {
      ghost var disk, bs, used, bag := v.disk, LeavesOf(i.kids), v.Used(), BagOf(i.kids);
      BlocksGrow(e, i.count + 1, last + 1);
      ok := AddCleared(v, i);
      if !ok {
        return;
      }
      NotNegative(v);
      GrownMore(old(v.disk), disk, v.disk, old(LeavesOf(i.kids)), bs, LeavesOf(i.kids), v.blockSize);
      KeptMore(old(v.disk), disk, v.disk, old(v.Used()), used, v.Used(), old(BagOf(i.kids)), bag, BagOf(i.kids));
    }
  }

  lemma {:induction false} BlocksGrow(e: nat, a: nat, b: nat)
    requires e > 0 && a <= b
    ensures BlocksFor(e, a) <= BlocksFor(e, b)
    decreases b - a
  {
    hide PointerBlocks, PointersFor;
    if a < b {
      PointerStep(e, a);
      BlocksGrow(e, a + 1, b);
    }
  }

  lemma GrownSame(disk: seq<seq<Byte>>, bs: seq<nat>, size: nat)
    requires Images(disk, bs, size)
    ensures Grown(disk, disk, bs, bs, size)
  {
  }

  // ----- Writing -----

  lemma {:induction false} OnceEach(bs: seq<nat>)
    requires Distinct(multiset(bs))
    ensures Once(bs)
  {
    if bs != [] {
      var n := |bs| - 1;
      assert bs == bs[..n] + [bs[n]];
      Parts(multiset(bs[..n]), multiset{bs[n]});
      OnceEach(bs[..n]);
      forall i, j | 0 <= i < j < |bs| ensures bs[i] != bs[j] {
        assert bs[i] == bs[..n][i];
        assert bs[i] in multiset(bs[..n]);
      }
    }
  }

  lemma DataApart(kids: seq<Tree>)
    requires Distinct(BagOf(kids))
    ensures Once(LeavesOf(kids)) && forall k :: 0 <= k < |LeavesOf(kids)| ==> LeavesOf(kids)[k] !in PtrsOf(kids)
  {
    hide Bag, BagOf, Leaves, LeavesOf, Ptrs, PtrsOf, Distinct;
    BagPartsOf(kids);
    Parts(PtrsOf(kids), multiset(LeavesOf(kids)));
    OnceEach(LeavesOf(kids));
    assert forall k :: 0 <= k < |LeavesOf(kids)| ==> LeavesOf(kids)[k] in multiset(LeavesOf(kids));
  }

  /** Writing data leaves the block map alone. */
  lemma MapPatched(disk: seq<seq<Byte>>, disk': seq<seq<Byte>>, used: set<nat>, e: nat, block: seq<nat>,
                   kids: seq<Tree>, k: nat)
    requires Mapped(disk, used, e, block, kids) && k < |LeavesOf(kids)| && LeavesOf(kids)[k] < |disk| &&
             |disk'| == |disk|
    requires disk' == disk[LeavesOf(kids)[k] := disk'[LeavesOf(kids)[k]]] &&
             |disk'[LeavesOf(kids)[k]]| == |disk[LeavesOf(kids)[k]]|
    ensures Mapped(disk', used, e, block, kids)
  {
    hide Bag, BagOf, Leaves, LeavesOf, Ptrs, PtrsOf, Distinct, Stored, FilePacked;
    DataApart(kids);
    KidsFrame(disk, disk', e, kids, multiset{LeavesOf(kids)[k]});
  }

  method WriteBlock(v: Volume, i: Inode, k: nat, chunk: seq<Byte>, at: nat)
    requires i.Valid(v) && k < i.count && at + |chunk| <= v.blockSize
    modifies v`disk
    ensures i.Valid(v) && v.Used() == old(v.Used())
    ensures var b := LeavesOf(i.kids)[k];
            b < old(|v.disk|) && |old(v.disk)[b]| == v.blockSize &&
              v.disk == old(v.disk)[b := Patch(old(v.disk)[b], at, chunk)]
  {
    hide Span, Packed, Stored, First, AllTaken, Leaves, LeavesOf, Bag, BagOf, Distinct, Depth, Sectors, BlockNumber,
         Patch;
    var e := v.blockSize / 4;
    ReadsAppended(v.disk, e, i.block, i.kids, k);
    LeafStored(v.disk, e, i.kids, k);
    var b := BlockNumber(v.disk, e, i.block, k);
    v.disk := v.disk[b := Patch(v.disk[b], at, chunk)];
    MapPatched(old(v.disk), v.disk, v.Used(), e, i.block, i.kids, k);
  }

  /** `src` has been written at `offset`, and no other byte of the file has changed. */
  ghost predicate Written(disk: seq<seq<Byte>>, disk': seq<seq<Byte>>, bs: seq<nat>, size: nat, offset: nat,
                          src: seq<Byte>) {
    && Images(disk, bs, size) && Images(disk', bs, size)
    && (forall p: nat :: ByteAt(disk', bs, size, p) ==
          if offset <= p < offset + |src| then src[p - offset] else ByteAt(disk, bs, size, p))
  }

  lemma WrittenMore(d0: seq<seq<Byte>>, d1: seq<seq<Byte>>, bs: seq<nat>, size: nat, offset: nat, src: seq<Byte>,
                    n: nat, c: nat)
    requires n + c <= |src| && Written(d0, d1, bs, size, offset, src[..n]) && Once(bs)
    requires Slot(offset + n, size) < |bs| && Rest(offset + n, size) + c <= size
    ensures var b := bs[Slot(offset + n, size)];
            Written(d0, d1[b := Patch(d1[b], Rest(offset + n, size), src[n..n + c])], bs, size, offset, src[..n + c])
  {
    hide Slot, Rest, ByteAt, Patch;
    var b, chunk := bs[Slot(offset + n, size)], src[n..n + c];
    var d2 := d1[b := Patch(d1[b], Rest(offset + n, size), chunk)];
    forall p: nat
      ensures Images(d2, bs, size)
      ensures ByteAt(d2, bs, size, p) == if offset <= p < offset + (n + c) then src[..n + c][p - offset]
              else ByteAt(d0, bs, size, p)
    {
      WriteChunk(d1, bs, size, offset + n, chunk, p);
    }
  }

  method WriteChunks(v: Volume, i: Inode, offset: nat, src: seq<Byte>)
    requires i.Valid(v) && Images(v.disk, LeavesOf(i.kids), v.blockSize) && src != [] &&
             Slot(offset + |src| - 1, v.blockSize) < i.count
    modifies v`disk
    ensures i.Valid(v) && Kept(old(v.disk), v.disk, old(v.Used()), v.Used(), BagOf(i.kids), BagOf(i.kids))
    ensures Written(old(v.disk), v.disk, LeavesOf(i.kids), v.blockSize, offset, src)
  {
    hide Slot, Rest, ChunkPos, ChunkAt, ChunkSize, ByteAt, Patch, LeavesOf, BagOf, Mapped, AllTaken, Written;
    var last, k, n := Slot(offset + |src| - 1, v.blockSize), Slot(offset, v.blockSize), 0;
    ghost var bs := LeavesOf(i.kids);
    FirstLast(offset, |src|, v.blockSize);
    StartsAt(offset, v.blockSize);
    DataDiffers(v, i);
    WrittenNone(v.disk, bs, v.blockSize, offset, src);
    while k <= last
      invariant Slot(offset, v.blockSize) <= k <= last + 1 && 0 <= n <= |src| && i.Valid(v) && v.Used() == old(v.Used())
      invariant offset + n == if k <= last then ChunkPos(offset, v.blockSize, k) else offset + |src|
      invariant Written(old(v.disk), v.disk, bs, v.blockSize, offset, src[..n])
      invariant Kept(old(v.disk), v.disk, old(v.Used()), v.Used(), BagOf(i.kids), BagOf(i.kids))
    {
      Chunk(offset, |src|, v.blockSize, k);
      var at, c := ChunkAt(offset, v.blockSize, k), ChunkSize(offset, |src|, v.blockSize, k);
      WrittenMore(old(v.disk), v.disk, bs, v.blockSize, offset, src, n, c);
      LeafInBag(i.kids, k);
      WriteBlock(v, i, k, src[n..n + c], at);
      n := n + c;
      k := k + 1;
    }
    assert src[..n] == src;
  }

  lemma LeafInBag(kids: seq<Tree>, k: nat)
    requires k < |LeavesOf(kids)|
    ensures LeavesOf(kids)[k] in BagOf(kids)
  {
    BagPartsOf(kids);
    assert LeavesOf(kids)[k] in multiset(LeavesOf(kids));
  }

  lemma DataDiffers(v: Volume, i: Inode)
    requires i.Valid(v)
    ensures Once(LeavesOf(i.kids))
  {
    DataApart(i.kids);
  }

  lemma WrittenNone(disk: seq<seq<Byte>>, bs: seq<nat>, size: nat, offset: nat, src: seq<Byte>)
    requires Images(disk, bs, size)
    ensures Written(disk, disk, bs, size, offset, src[..0])
  {
  }

  /** The bytes after growing and writing. */
  lemma NewBytes(d0: seq<seq<Byte>>, d1: seq<seq<Byte>>, d2: seq<seq<Byte>>, b0: seq<nat>, b1: seq<nat>, size: nat,
                 n0: nat, n1: nat, offset: nat, src: seq<Byte>)
    requires src != [] && Grown(d0, d1, b0, b1, size) && Written(d1, d2, b1, size, offset, src)
    requires n1 == (if n0 < offset + |src| then offset + |src| else n0)
    requires forall p :: p >= n0 ==> ByteAt(d0, b0, size, p) == 0
    ensures Content(d2, b1, size, n1) == Overwrite(Content(d0, b0, size, n0), offset, src)
    ensures forall p :: p >= n1 ==> ByteAt(d2, b1, size, p) == 0
  {
    hide ByteAt;
    forall p: nat
      ensures ByteAt(d2, b1, size, p) == if offset <= p < offset + |src| then src[p - offset]
              else ByteAt(d0, b0, size, p)
    {
      GrownBytes(d0, d1, b0, b1, size, p);
    }
  }

  /** `node_write_all`.  It fails, where the kernel stops, only if the volume is full or the
      file would have more blocks than an inode can address. */
  method WriteAll(v: Volume, i: Inode, offset: nat, src: seq<Byte>) returns (ok: bool)
    requires FileOk(v, i)
    modifies v, i
    ensures ok ==> FileOk(v, i) && Bytes(v, i) == Overwrite(old(Bytes(v, i)), offset, src)
    ensures ok ==> Kept(old(v.disk), v.disk, old(v.Used()), v.Used(), old(BagOf(i.kids)), BagOf(i.kids))
    ensures !ok ==>
            v.Valid() && src != [] &&
            (v.IsFull() || Slot(offset + |src| - 1, v.blockSize) >= First(v.blockSize / 4, SLOTS))
    ensures v.blockSize / 4 > 0
    ensures ok <==>
            src == [] || CanHave(v.blockSize / 4, old(v.totalFree), old(i.count),
                                 Slot(offset + |src| - 1, v.blockSize) + 1)
    ensures ok ==>
            v.totalFree + BlocksFor(v.blockSize / 4, i.count) ==
            old(v.totalFree) + BlocksFor(v.blockSize / 4, old(i.count))
  {
    hide Slot, Rest, ByteAt, LeavesOf, BagOf, Mapped, AllTaken, Written, Grown, Content, First, Overwrite, Kept,
         CanHave, BlocksFor;
    if |src| == 0 {
      NothingWritten(Bytes(v, i), offset);
      KeptSame(v.disk, v.Used(), BagOf(i.kids));
      return true;
    }
    var last := Slot(offset + |src| - 1, v.blockSize);
    ghost var d0, b0, n0, u0, bag := v.disk, LeavesOf(i.kids), i.size, v.Used(), BagOf(i.kids);
    ok := Grow(v, i, last);
    if !ok {
      return;
    }
    ghost var d1, b1, u1 := v.disk, LeavesOf(i.kids), v.Used();
    GrownImages(d0, d1, b0, b1, v.blockSize);
    if offset + |src| > i.size {
      i.size := offset + |src|;
    }
    WriteChunks(v, i, offset, src);
    NewBytes(d0, d1, v.disk, b0, b1, v.blockSize, n0, i.size, offset, src);
    KeptMore(d0, d1, v.disk, u0, u1, v.Used(), bag, BagOf(i.kids), BagOf(i.kids));
  }

  lemma KeptSame(disk: seq<seq<Byte>>, used: set<nat>, bag: multiset<nat>)
    ensures Kept(disk, disk, used, used, bag, bag)
  {
  }

  lemma NothingWritten(c: seq<Byte>, offset: nat)
    ensures Overwrite(c, offset, []) == c
  {
  }

  lemma GrownImages(d0: seq<seq<Byte>>, d1: seq<seq<Byte>>, b0: seq<nat>, b1: seq<nat>, size: nat)
    requires Grown(d0, d1, b0, b1, size)
    ensures Images(d1, b1, size) && |b1| >= |b0|
  {
  }

  /** A write to one file leaves every other file as it is. */
  lemma OtherFileKept(disk: seq<seq<Byte>>, disk': seq<seq<Byte>>, used: set<nat>, used': set<nat>, bag: multiset<nat>,
                      bag': multiset<nat>,
                      e: nat, block: seq<nat>, kids: seq<Tree>, n: nat)
    requires Kept(disk, disk', used, used', bag, bag') && Mapped(disk, used, e, block, kids) && Pointers(disk', e)
    requires (forall x :: x in BagOf(kids) ==> x !in bag) && Images(disk, LeavesOf(kids), 4 * e)
    ensures Mapped(disk', used', e, block, kids) && (forall x :: x in BagOf(kids) ==> x !in bag')
    ensures Images(disk', LeavesOf(kids), 4 * e) &&
            Content(disk', LeavesOf(kids), 4 * e, n) == Content(disk, LeavesOf(kids), 4 * e, n)
  {
    hide Bag, BagOf, Leaves, LeavesOf, Ptrs, PtrsOf, Distinct, Stored, FilePacked, Slot, Rest;
    var bs := LeavesOf(kids);
    BagPartsOf(kids);
    forall k | 0 <= k < |bs| ensures disk'[bs[k]] == disk[bs[k]] { LeafInBag(kids, k); }
    forall j | 0 <= j < |kids| ensures Stored(disk', kids[j], e) {
      forall x | x in Ptrs(kids[j]) && x < |disk| ensures disk'[x] == disk[x] {
        KidInPtrs(kids, j, x);
        assert x in BagOf(kids);
      }
      StoredFrame(disk, disk', e, kids[j]);
    }
  }

  lemma SameByte(disk: seq<seq<Byte>>, disk': seq<seq<Byte>>, bs: seq<nat>, size: nat, p: nat)
    requires Images(disk, bs, size) && Images(disk', bs, size) &&
             Content(disk', bs, size, p + 1) == Content(disk, bs, size, p + 1)
    ensures ByteAt(disk', bs, size, p) == ByteAt(disk, bs, size, p)
  {
    hide ByteAt;
    assert Content(disk', bs, size, p + 1)[p] == Content(disk, bs, size, p + 1)[p];
  }

  /** Two files have no block in common. */
  ghost predicate FilesApart(i: Inode, j: Inode)
    reads i, j
  {
    i != j && forall x :: x in BagOf(i.kids) ==> x !in BagOf(j.kids)
  }

  /** An inode with these fields is a file, on this disk. */
  ghost predicate FileIn(disk: seq<seq<Byte>>, used: set<nat>, bsize: nat, block: seq<nat>, kids: seq<Tree>,
                         blocks: nat, count: nat, size: nat) {
    var e := bsize / 4;
    && Mapped(disk, used, e, block, kids) && Images(disk, LeavesOf(kids), bsize) && bsize == 4 * e
    && count == |LeavesOf(kids)| && blocks == Sectors(bsize, |BagOf(kids)|) && |BagOf(kids)| == BlocksFor(e, count)
    && (size > 0 ==> Slot(size - 1, bsize) < count) &&
      (forall p :: p >= size ==> ByteAt(disk, LeavesOf(kids), bsize, p) == 0)
  }

  lemma FileIsIn(v: Volume, i: Inode)
    requires v.Valid()
    ensures FileOk(v, i) <==> FileIn(v.disk, v.Used(), v.blockSize, i.block, i.kids, i.blocks, i.count, i.size)
    ensures FileOk(v, i) ==> Bytes(v, i) == Content(v.disk, LeavesOf(i.kids), v.blockSize, i.size)
  {
    hide Mapped, LeavesOf, BagOf, Sectors, BlocksFor, Slot, ByteAt, Content, AllTaken;
  }

  lemma FileKept(disk: seq<seq<Byte>>, disk': seq<seq<Byte>>, used: set<nat>, used': set<nat>, bag: multiset<nat>,
                 bag': multiset<nat>,
                 bsize: nat, block: seq<nat>, kids: seq<Tree>, blocks: nat, count: nat, size: nat)
    requires FileIn(disk, used, bsize, block, kids, blocks, count, size) && Kept(disk, disk', used, used', bag, bag')
    requires (forall x :: x in BagOf(kids) ==> x !in bag) && (forall b :: 0 <= b < |disk'| ==> |disk'[b]| == bsize)
    ensures FileIn(disk', used', bsize, block, kids, blocks, count, size) &&
            (forall x :: x in BagOf(kids) ==> x !in bag')
    ensures Content(disk', LeavesOf(kids), bsize, size) == Content(disk, LeavesOf(kids), bsize, size)
  {
    hide BagOf, LeavesOf, Mapped, Sectors, BlocksFor, Slot, ByteAt, Content, Kept;
    var e, bs := bsize / 4, LeavesOf(kids);
    OtherFileKept(disk, disk', used, used', bag, bag', e, block, kids, size);
    forall p: nat | p >= size ensures ByteAt(disk', bs, bsize, p) == 0 {
      OtherFileKept(disk, disk', used, used', bag, bag', e, block, kids, p + 1);
      SameByte(disk, disk', bs, bsize, p);
    }
  }
}
