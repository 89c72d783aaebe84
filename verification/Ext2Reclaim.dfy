/** Counting the data blocks of an inode from its pointers, and giving all its blocks back. */
module Ext2Reclaim {
  import opened Words
  import opened ByteWords
  import opened Ext2Volume
  import opened Ext2Tree
  import opened Ext2Inode
  import opened Ext2File

  // ----- Counting -----

  /** The number of pointers before the first zero. */
  method CountEntries(ptrs: seq<nat>) returns (n: nat)
    ensures n <= |ptrs| && (forall q :: 0 <= q < n ==> ptrs[q] != 0) && (n < |ptrs| ==> ptrs[n] == 0)
  {
    n := 0;
    while n < |ptrs| && ptrs[n] != 0
      invariant n <= |ptrs| && forall q :: 0 <= q < n ==> ptrs[q] != 0
    {
      n := n + 1;
    }
  }

  /** The pointers of a stored block: one for each child, then zeros. */
  lemma PointerValues(disk: seq<seq<Byte>>, t: Tree, e: nat)
    requires t.Node? && Stored(disk, t, e)
    ensures |Decode(disk[t.block])| == e && |t.kids| <= e
    ensures forall q :: 0 <= q < |t.kids| ==>
            Decode(disk[t.block])[q] == t.kids[q].block > 0 && Stored(disk, t.kids[q], e)
    ensures forall q :: |t.kids| <= q < e ==> Decode(disk[t.block])[q] == 0
  {
    hide Decode;
    forall q | 0 <= q < |t.kids| ensures t.kids[q].block > 0 { assert Stored(disk, t.kids[q], e); }
  }

  /** The leaves of the first `q + 1` children. */
  lemma OneMoreKid(kids: seq<Tree>, q: nat)
    requires q < |kids|
    ensures LeavesOf(kids[..q + 1]) == LeavesOf(kids[..q]) + Leaves(kids[q])
    ensures BagOf(kids[..q + 1]) == BagOf(kids[..q]) + Bag(kids[q])
  {
    assert kids[..q + 1][..q] == kids[..q];
  }

  method ScanTree(v: Volume, ghost t: Tree, root: nat, e: nat, d: nat) returns (n: nat)
    requires v.Valid() && t.Node? && t.block == root && e > 0 && Stored(v.disk, t, e) && Packed(t, e, d)
    ensures n == |Leaves(t)|
    decreases d
  {
    hide Decode, Span, Packed, Stored, Leaves, LeavesOf, Volume.Valid;
    PointerValues(v.disk, t, e);
    PackedKids(t, e, d);
    StoredRoot(v.disk, t, e);
    var ptrs := Read(v, root);
    if d == 1 {
      LeafCount(t, e);
      n := CountEntries(ptrs);
      assert |t.kids| < e ==> ptrs[|t.kids|] == 0;
      return;
    }
    n := 0;
    var q := 0;
    NoLeaves(t.kids);
    while q < e
      invariant q <= |t.kids| && n == |LeavesOf(t.kids[..q])|
    {
      if ptrs[q] == 0 {
        break;
      }
      KidShape(t, e, d, q);
      var c := ScanTree(v, t.kids[q], ptrs[q], e, d - 1);
      OneMoreKid(t.kids, q);
      n := n + c;
      q := q + 1;
      if c < Span(e, d - 1) {
        break;
      }
    }
    assert t.kids[..|t.kids|] == t.kids;
  }

  lemma NoLeaves(kids: seq<Tree>)
    ensures LeavesOf(kids[..0]) == [] && BagOf(kids[..0]) == multiset{}
  {
  }

  method ScanInode(v: Volume, i: Inode) returns (n: nat)
    requires i.Valid(v)
    ensures n == i.count
  {
    hide Span, Packed, Stored, Leaves, LeavesOf, First, AllTaken, Distinct, BagOf, Depth;
    var e := v.blockSize / 4;
    n := CountEntries(i.block[..12]);
    BlockEntries(v.disk, e, i.block, i.kids);
    assert |i.kids| < 12 ==> i.block[..12][|i.kids|] == 0;
    assert n < 12 ==> i.block[n] == 0;
    Tiers(i.kids, e);
    Limits(e);
    if n < 12 || i.block[12] == 0 {
      return;
    }
    var c := ScanTree(v, i.kids[12], i.block[12], e, 1);
    n := n + c;
    if c < e || i.block[13] == 0 {
      return;
    }
    c := ScanTree(v, i.kids[13], i.block[13], e, 2);
    n := n + c;
    if c < e * e || i.block[14] == 0 {
      return;
    }
    c := ScanTree(v, i.kids[14], i.block[14], e, 3);
    n := n + c;
  }

  lemma BlockEntries(disk: seq<seq<Byte>>, e: nat, block: seq<nat>, kids: seq<Tree>)
    requires FileStored(disk, e, block, kids)
    ensures forall j :: 0 <= j < |kids| ==> block[j] == kids[j].block > 0
    ensures forall j :: |kids| <= j < SLOTS ==> block[j] == 0
    ensures forall j :: DIRECT <= j < |kids| ==> kids[j].Node? && Packed(kids[j], e, j - 11)
  {
    hide Decode;
    forall j | 0 <= j < |kids| ensures kids[j].block > 0 { assert Stored(disk, kids[j], e); }
  }

  /** How many data blocks there are, by the number of places in use. */
  lemma Tiers(kids: seq<Tree>, e: nat)
    requires e > 0 && FilePacked(kids, e)
    ensures |kids| <= 12 ==> |LeavesOf(kids)| == |kids|
    ensures |kids| > 12 ==> |LeavesOf(kids)| == First(e, |kids| - 1) + |Leaves(kids[|kids| - 1])|
    ensures |kids| > 13 ==> |Leaves(kids[12])| == e
    ensures |kids| > 14 ==> |Leaves(kids[13])| == e * e
  {
    FileSize(kids, e);
    Spans(e);
    if 0 < |kids| <= 12 {
      FirstDirect(e, |kids| - 1);
      PackedSize(kids[|kids| - 1], e, 0);
    }
  }

  // ----- Giving everything back -----

  ghost function Elems(m: multiset<nat>): set<nat> {
    set x | x in m
  }

  /** After the blocks of `freed` have been given back: they and no others have become free. */
  ghost predicate Freed(v: Volume, used: set<nat>, total: int, disk: seq<seq<Byte>>, freed: multiset<nat>)
    reads v
  {
    && v.Valid() && v.disk == disk && v.Used() == used - Elems(freed) && v.totalFree == total + |freed|
  }

  /** The first `q` children have been given back. */
  ghost predicate FreedKids(v: Volume, used: set<nat>, total: int, disk: seq<seq<Byte>>, kids: seq<Tree>, q: nat)
    reads v
  {
    Freed(v, used, total, disk, BagOf(kids[..if q < |kids| then q else |kids|]))
  }

  lemma FreedOne(used: set<nat>, used': set<nat>, a: multiset<nat>, b: multiset<nat>)
    requires used' == used - Elems(a)
    ensures used' - Elems(b) == used - Elems(a + b)
  {
  }

  /** Gives back child `q`, at block `b`, after those before it. */
  method FreeKid(v: Volume, ghost kids: seq<Tree>, ghost q: nat, b: nat, e: nat, d: nat,
                 ghost used: set<nat>, ghost total: int, ghost disk: seq<seq<Byte>>)
    requires q < |kids| && e > 0 && v.blockSize == 4 * e && FreedKids(v, used, total, disk, kids, q)
    requires Distinct(BagOf(kids)) && (forall x :: x in BagOf(kids) ==> x in used)
    requires b == kids[q].block > 0 && Stored(disk, kids[q], e) && Packed(kids[q], e, d)
    modifies v
    ensures FreedKids(v, used, total, disk, kids, q + 1)
    decreases d, 1
  {
    hide Stored, Packed, Bag, BagOf, Distinct, AllTaken, Elems;
    OneMoreKid(kids, q);
    KidStillUsed(kids, q);
    assert kids[..q + 1] == kids[..if q + 1 < |kids| then q + 1 else |kids|];
    KidUsed(used, v.Used(), kids, q);
    ghost var used1 := v.Used();
    if d == 0 {
      LeafBag(kids[q], e);
      v.DeallocBlock(b);
      FreedBlock(b);
    } else {
      NodeDeep(kids[q], e, d);
      FreeTree(v, kids[q], b, e, d);
    }
    FreedOne(used, used1, BagOf(kids[..q]), Bag(kids[q]));
  }

  lemma FreedBlock(b: nat)
    ensures Elems(multiset{b}) == {b}
  {
  }

  lemma LeafBag(t: Tree, e: nat)
    requires Packed(t, e, 0)
    ensures Bag(t) == multiset{t.block}
  {
  }

  lemma NodeDeep(t: Tree, e: nat, d: nat)
    requires Packed(t, e, d) && d > 0
    ensures t.Node?
  {
  }

  lemma KidUsed(used: set<nat>, used': set<nat>, kids: seq<Tree>, q: nat)
    requires q < |kids| && Distinct(BagOf(kids)) && (forall x :: x in BagOf(kids) ==> x in used) &&
             used' == used - Elems(BagOf(kids[..q]))
    ensures forall x :: x in Bag(kids[q]) ==> x in used'
    ensures kids[q].block in Bag(kids[q])
  {
    KidStillUsed(kids, q);
  }

  /** `ext2_free_indirect_tree`.  Every block is deallocated while it is in use, so none twice. */
  method FreeTree(v: Volume, ghost t: Tree, root: nat, e: nat, d: nat)
    requires t.Node? && t.block == root && Placed(v, t, e) && Packed(t, e, d)
    modifies v
    ensures Freed(v, old(v.Used()), old(v.totalFree), old(v.disk), Bag(t))
    decreases d, 0
  {
    hide Decode, Packed, Stored, Bag, BagOf, Distinct, AllTaken, Elems;
    ghost var used, total, disk := v.Used(), v.totalFree, v.disk;
    PointerValues(v.disk, t, e);
    StoredRoot(v.disk, t, e);
    PackedKids(t, e, d);
    RootApart(t);
    KidsInBag(t);
    NoLeaves(t.kids);
    FreedNone(used);
    var ptrs := Read(v, root);
    var q := 0;
    while q < e
      invariant q <= e && FreedKids(v, used, total, disk, t.kids, q)
    {
      if ptrs[q] != 0 {
        FreeKid(v, t.kids, q, ptrs[q], e, d - 1, used, total, disk);
      }
      q := q + 1;
    }
    assert t.kids[..|t.kids|] == t.kids;
    ghost var used1 := v.Used();
    RootUsed(used, used1, t);
    v.DeallocBlock(root);
    FreedBlock(root);
    FreedOne(used, used1, BagOf(t.kids), multiset{root});
  }

  lemma FreedNone(used: set<nat>)
    ensures used - Elems(multiset{}) == used
  {
  }

  lemma RootUsed(used: set<nat>, used': set<nat>, t: Tree)
    requires t.Node? && Distinct(Bag(t)) && t.block in used && used' == used - Elems(BagOf(t.kids))
    ensures t.block in used'
  {
    RootApart(t);
  }

  /** The blocks of a child are its own, and not among those of the children before it. */
  lemma KidStillUsed(kids: seq<Tree>, q: nat)
    requires Distinct(BagOf(kids)) && q < |kids|
    ensures Distinct(Bag(kids[q])) && forall x :: x in Bag(kids[q]) ==> x in BagOf(kids) && x !in BagOf(kids[..q])
  {
    forall x ensures Bag(kids[q])[x] <= 1 { assert BagOf(kids)[x] <= 1; KidInBag(kids, q, x); }
    forall x | x in Bag(kids[q]) ensures x in BagOf(kids) && x !in BagOf(kids[..q]) {
      KidInBag(kids, q, x);
      if x in BagOf(kids[..q]) {
        var j := InSomeKid(kids[..q], x);
        KidsApart(kids, j, q, x);
      }
    }
  }

  /** `node_dealloc_blocks`: after it, exactly the blocks of the inode have become free. */
  method Reclaim(v: Volume, i: Inode)
    requires i.Valid(v)
    modifies v, i
    ensures Freed(v, old(v.Used()), old(v.totalFree), old(v.disk), old(BagOf(i.kids)))
    ensures i.Valid(v) && i.kids == [] && i.size == 0
  {
    hide Span, Packed, Stored, AllTaken, Leaves, LeavesOf, Bag, BagOf, Ptrs, PtrsOf, Distinct, Sectors, Elems;
    ghost var used, total, disk, kids := v.Used(), v.totalFree, v.disk, i.kids;
    var e, block := v.blockSize / 4, i.block;
    BlockEntries(v.disk, e, block, kids);
    NoLeaves(kids);
    FreedNone(used);
    var j := 0;
    while j < SLOTS
      invariant j <= SLOTS && FreedKids(v, used, total, disk, kids, j)
    {
      if block[j] != 0 {
        FreeKid(v, kids, j, block[j], e, Depth(j), used, total, disk);
      }
      j := j + 1;
    }
    assert kids[..|kids|] == kids;
    i.block := seq(SLOTS, _ => 0);
    i.blocks, i.size, i.count := 0, 0, 0;
    i.kids := [];
    EmptyFile(v.disk, v.Used(), e, v.blockSize);
  }
}
