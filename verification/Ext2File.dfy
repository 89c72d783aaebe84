/** Inodes: twelve direct blocks and trees of depth one, two and three. */
module Ext2File {
  import opened Words
  import opened ByteWords
  import opened Ext2Volume
  import opened Ext2Tree
  import opened Ext2Inode

  const DIRECT := 12
  const SLOTS := 15
  const SECTOR := 512

  /** The depth of the tree at each place of `inode.block`. */
  function Depth(j: nat): nat {
    if j < DIRECT then 0 else j - DIRECT + 1
  }

  /** The number of the first data block below place `j`. */
  function First(e: nat, j: nat): nat {
    if j == 0 then 0 else First(e, j - 1) + Span(e, Depth(j - 1))
  }

  lemma {:induction false} FirstDirect(e: nat, j: nat)
    requires j <= DIRECT
    ensures First(e, j) == j
  {
    if j > 0 { FirstDirect(e, j - 1); }
  }

  lemma Spans(e: nat)
    ensures Span(e, 1) == e && Span(e, 2) == e * e && Span(e, 3) == e * e * e
  {
    assert Span(e, 1) == e * Span(e, 0);
    assert Span(e, 2) == e * Span(e, 1);
    assert Span(e, 3) == e * Span(e, 2);
    assert e * (e * e) == e * e * e;
  }

  /** The limits of the tiers, as the code computes them. */
  lemma Limits(e: nat)
    ensures First(e, 12) == 12 && First(e, 13) == 12 + e
    ensures First(e, 14) == 12 + e + e * e && First(e, 15) == 12 + e + e * e + e * e * e
  {
    FirstDirect(e, 12);
    Spans(e);
    assert First(e, 13) == First(e, 12) + Span(e, 1);
    assert First(e, 14) == First(e, 13) + Span(e, 2);
    assert First(e, 15) == First(e, 14) + Span(e, 3);
  }

  /** The trees of an inode: each of its depth, none empty, and all but the last full. */
  ghost predicate FilePacked(kids: seq<Tree>, e: nat) {
    && |kids| <= SLOTS
    && (forall j :: 0 <= j < |kids| ==> Packed(kids[j], e, Depth(j)) && Leaves(kids[j]) != [])
    && (forall j :: 0 <= j < |kids| - 1 ==> |Leaves(kids[j])| == Span(e, Depth(j)))
  }

  lemma {:induction false} FileSize(kids: seq<Tree>, e: nat)
    requires e > 0 && FilePacked(kids, e)
    ensures kids == [] ==> LeavesOf(kids) == []
    ensures kids != [] ==>
              |LeavesOf(kids)| == First(e, |kids| - 1) + |Leaves(kids[|kids| - 1])| <= First(e, |kids|)
    decreases |kids|
  {
    hide Span, Packed;
    if kids != [] {
      var n := |kids| - 1;
      PackedSize(kids[n], e, Depth(n));
      FileSize(kids[..n], e);
    }
  }

  lemma {:induction false} FileLeafIn(kids: seq<Tree>, e: nat, j: nat, r: nat)
    requires e > 0 && FilePacked(kids, e) && j < |kids| && r < |Leaves(kids[j])|
    ensures First(e, j) + r < |LeavesOf(kids)| && LeavesOf(kids)[First(e, j) + r] == Leaves(kids[j])[r]
    decreases |kids|
  {
    var n := |kids| - 1;
    assert LeavesOf(kids) == LeavesOf(kids[..n]) + Leaves(kids[n]);
    assert First(e, 0) == 0;
    hide Span, Packed, First, Leaves, LeavesOf;
    FileSize(kids[..n], e);
    if n > 0 { FirstStep(e, n - 1); }
    if j < n {
      FileLeafIn(kids[..n], e, j, r);
    }
  }

  lemma DirectFits(e: nat, i: nat)
    requires i < DIRECT
    ensures i < First(e, SLOTS)
  {
    FirstDirect(e, DIRECT);
    FirstMono(e, DIRECT, SLOTS);
  }

  /** The tier of data block `i`, by its place in the block map; 15 when there is none. */
  method Tier(e: nat, i: nat) returns (j: nat)
    requires i >= DIRECT
    ensures DIRECT <= j <= SLOTS && (j < SLOTS ==> First(e, j) <= i < First(e, j + 1)) &&
            (j == SLOTS <==> i >= First(e, SLOTS))
  {
    hide First;
    Limits(e);
    var single, double := 12 + e, 12 + e + e * e;
    j := if i < single then 12 else if i < double then 13 else if i < double + e * e * e then 14 else 15;
  }

  lemma {:induction false} FirstMono(e: nat, i: nat, j: nat)
    requires i <= j
    ensures First(e, i) <= First(e, j)
    decreases j
  {
    if i < j { FirstMono(e, i, j - 1); }
  }

  /** A data block in the range of place `j` is found there. */
  lemma FileLeafAt(kids: seq<Tree>, e: nat, j: nat, i: nat)
    requires e > 0 && FilePacked(kids, e) && j < SLOTS && First(e, j) <= i < First(e, j + 1) && i < |LeavesOf(kids)|
    ensures j < |kids| && i - First(e, j) < |Leaves(kids[j])| && LeavesOf(kids)[i] == Leaves(kids[j])[i - First(e, j)]
  {
    hide Span, Packed, First;
    FileSize(kids, e);
    FirstMono(e, |kids|, if |kids| <= j then j else |kids|);
    if j < |kids| - 1 {
      FirstStep(e, j);
    }
    FileLeafIn(kids, e, j, i - First(e, j));
  }

  lemma FirstStep(e: nat, j: nat)
    ensures First(e, j + 1) == First(e, j) + Span(e, Depth(j))
  {
  }

  // ----- Reading -----

  /** Entry `k` of a single, double or triple indirect block, as the read and write paths look
      it up; zero for a hole. */
  function Single(disk: seq<seq<Byte>>, e: nat, b: nat, k: nat): nat
    requires Pointers(disk, e)
  {
    Pointer(disk, e, b, k)
  }

  function Double(disk: seq<seq<Byte>>, e: nat, b: nat, k: nat): nat
    requires Pointers(disk, e)
  {
    Pointer(disk, e, Pointer(disk, e, b, k / e), k % e)
  }

  function Triple(disk: seq<seq<Byte>>, e: nat, b: nat, k: nat): nat
    requires Pointers(disk, e)
  {
    Square(e);
    Pointer(disk, e, Pointer(disk, e, Pointer(disk, e, b, k / (e * e)), (k / e) % e), k % e)
  }

  lemma Square(e: nat)
    requires e > 0
    ensures e * e > 0
  {
  }

  /** The block that holds data block `i`. */
  function BlockNumber(disk: seq<seq<Byte>>, e: nat, block: seq<nat>, i: nat): nat
    requires Pointers(disk, e) && |block| == SLOTS && i < First(e, 15)
  {
    Limits(e);
    if i < 12 then block[i]
    else if i < 12 + e then Single(disk, e, block[12], i - 12)
    else if i < 12 + e + e * e then Double(disk, e, block[13], i - (12 + e))
    else Triple(disk, e, block[14], i - (12 + e + e * e))
  }

  lemma Regroup(a: nat, r: nat, l: nat, e: nat)
    requires r < e && l < e
    ensures (a * e + r) * e + l == a * (e * e) + (r * e + l)
    ensures r * e + l < e * e
  {
    assert (a * e + r) * e == (a * e) * e + r * e;
    assert (a * e) * e == a * (e * e);
    MulMono(r, e - 1, e);
    assert (e - 1) * e == e * e - e;
  }

  /** The indices of the triple tier are those of the descent level by level. */
  lemma TripleIndices(k: nat, e: nat)
    requires e > 0
    ensures e * e > 0 && (k % (e * e)) / e == (k / e) % e && (k % (e * e)) % e == k % e
  {
    Square(e);
    Regroup(k / e / e, k / e % e, k % e, e);
    var low := k / e % e * e + k % e;
    DivUnique(k, e * e, k / e / e, low);
    DivUnique(low, e, k / e % e, k % e);
  }

  lemma SingleIsLookup(disk: seq<seq<Byte>>, e: nat, b: nat, k: nat)
    requires Pointers(disk, e)
    ensures Lookup(disk, e, b, 1, k) == Single(disk, e, b, k)
  {
    assert Span(e, 0) == 1;
    assert Slot(k, 1) == k;
  }

  lemma DoubleIsLookup(disk: seq<seq<Byte>>, e: nat, b: nat, k: nat)
    requires Pointers(disk, e)
    ensures Lookup(disk, e, b, 2, k) == Double(disk, e, b, k)
  {
    hide Pointer;
    assert Span(e, 1) == e;
    SingleIsLookup(disk, e, Pointer(disk, e, b, k / e), k % e);
  }

  lemma TripleIsLookup(disk: seq<seq<Byte>>, e: nat, b: nat, k: nat)
    requires Pointers(disk, e)
    ensures Lookup(disk, e, b, 3, k) == Triple(disk, e, b, k)
  {
    hide Pointer;
    Spans(e);
    TripleIndices(k, e);
    DoubleIsLookup(disk, e, Pointer(disk, e, b, k / (e * e)), k % (e * e));
  }

  /** The trees are on the disk below the pointers of the inode. */
  ghost predicate FileStored(disk: seq<seq<Byte>>, e: nat, block: seq<nat>, kids: seq<Tree>) {
    && Pointers(disk, e) && FilePacked(kids, e) && |block| == SLOTS &&
      block == Roots(kids) + seq(SLOTS - |kids|, _ => 0)
    && (forall j :: 0 <= j < |kids| ==> Stored(disk, kids[j], e))
  }

  lemma FileLookup(disk: seq<seq<Byte>>, e: nat, block: seq<nat>, kids: seq<Tree>, j: nat, i: nat)
    requires FileStored(disk, e, block, kids) && j < SLOTS && First(e, j) <= i < First(e, j + 1) && i < |LeavesOf(kids)|
    ensures Lookup(disk, e, block[j], Depth(j), i - First(e, j)) == LeavesOf(kids)[i]
  {
    hide Span, Packed, First, Stored, Lookup, Depth;
    FileLeafAt(kids, e, j, i);
    LookupLeaf(disk, e, kids[j], Depth(j), i - First(e, j));
  }

  lemma DirectIsLookup(disk: seq<seq<Byte>>, e: nat, b: nat)
    requires Pointers(disk, e)
    ensures Lookup(disk, e, b, 0, 0) == b
  {
  }

  /** Reading data block `i` through its tier finds the i-th block appended. */
  lemma ReadsAppended(disk: seq<seq<Byte>>, e: nat, block: seq<nat>, kids: seq<Tree>, i: nat)
    requires FileStored(disk, e, block, kids) && i < |LeavesOf(kids)|
    ensures i < First(e, 15) && BlockNumber(disk, e, block, i) == LeavesOf(kids)[i]
  {
    hide Span, Packed, First, Stored, Single, Double, Triple, FilePacked, Lookup, LeavesOf, Roots;
    FileSize(kids, e);
    FirstMono(e, |kids|, 15);
    Limits(e);
    if i < 12 {
      FirstDirect(e, i);
      FirstDirect(e, i + 1);
      FileLookup(disk, e, block, kids, i, i);
      DirectIsLookup(disk, e, block[i]);
    } else if i < 12 + e {
      FileLookup(disk, e, block, kids, 12, i);
      SingleIsLookup(disk, e, block[12], i - 12);
    } else if i < 12 + e + e * e {
      FileLookup(disk, e, block, kids, 13, i);
      DoubleIsLookup(disk, e, block[13], i - (12 + e));
    } else {
      FileLookup(disk, e, block, kids, 14, i);
      TripleIsLookup(disk, e, block[14], i - (12 + e + e * e));
    }
  }

  // ----- Appending to an inode -----

  /** The place that receives the next block, and whether it is new. */
  lemma NextPlace(kids: seq<Tree>, e: nat, j: nat)
    requires e > 0 && FilePacked(kids, e) && j < SLOTS && First(e, j) <= |LeavesOf(kids)| < First(e, j + 1)
    ensures |LeavesOf(kids)| == First(e, j) ==>
            |kids| == j && (j > 0 ==> |Leaves(kids[j - 1])| == Span(e, Depth(j - 1)))
    ensures |LeavesOf(kids)| > First(e, j) ==>
            |kids| == j + 1 && |LeavesOf(kids)| - First(e, j) == |Leaves(kids[j])| < Span(e, Depth(j))
  {
    hide Span, Packed, First, Depth;
    var n := |kids|;
    FileSize(kids, e);
    if n > 0 {
      PackedSize(kids[n - 1], e, Depth(n - 1));
      FirstStep(e, n - 1);
      assert First(e, n - 1) < |LeavesOf(kids)| <= First(e, n);
    }
    FirstStep(e, j);
    FirstMono(e, n, if n <= j then j else n);
    if n > j + 1 { FirstMono(e, j + 1, n - 1); }
    FirstSteps(e, n, j);
  }

  /** Different places have different ranges. */
  lemma FirstSteps(e: nat, i: nat, j: nat)
    requires e > 0
    ensures i < j ==> First(e, i) < First(e, j)
  {
    if i < j {
      FirstMono(e, i, j - 1);
      SpanPositive(e, Depth(j - 1));
    }
  }

  lemma FileAdd(kids: seq<Tree>, e: nat, kid: Tree)
    requires FilePacked(kids, e) && |kids| < SLOTS && Packed(kid, e, Depth(|kids|)) && Leaves(kid) != []
    requires kids != [] ==> |Leaves(kids[|kids| - 1])| == Span(e, Depth(|kids| - 1))
    ensures FilePacked(kids + [kid], e) && LeavesOf(kids + [kid]) == LeavesOf(kids) + Leaves(kid)
    ensures BagOf(kids + [kid]) == BagOf(kids) + Bag(kid)
  {
    hide Span, Packed, Depth;
    assert (kids + [kid])[..|kids|] == kids;
  }

  lemma FileLast(kids: seq<Tree>, e: nat, kid: Tree)
    requires FilePacked(kids, e) && kids != [] && Packed(kid, e, Depth(|kids| - 1)) && Leaves(kid) != []
    ensures var n := |kids| - 1;
            && FilePacked(kids[..n] + [kid], e) && LeavesOf(kids[..n] + [kid]) == LeavesOf(kids[..n]) + Leaves(kid)
            && BagOf(kids[..n] + [kid]) == BagOf(kids[..n]) + Bag(kid)
            && LeavesOf(kids) == LeavesOf(kids[..n]) + Leaves(kids[n]) && BagOf(kids) == BagOf(kids[..n]) + Bag(kids[n])
  {
    hide Span, Packed, Depth;
    var n := |kids| - 1;
    assert (kids[..n] + [kid])[..n] == kids[..n];
  }

  lemma KidsFrame(disk: seq<seq<Byte>>, disk': seq<seq<Byte>>, e: nat, kids: seq<Tree>, touched: multiset<nat>)
    requires (forall j :: 0 <= j < |kids| ==> Stored(disk, kids[j], e)) && Only(disk, disk', touched)
    requires forall x :: x in PtrsOf(kids) ==> x !in touched
    ensures forall j :: 0 <= j < |kids| ==> Stored(disk', kids[j], e)
  {
    forall j | 0 <= j < |kids| ensures Stored(disk', kids[j], e) {
      forall x | x in Ptrs(kids[j]) ensures x in PtrsOf(kids) { KidInPtrs(kids, j, x); }
      StoredFrame(disk, disk', e, kids[j]);
    }
  }

  lemma RootsAdd(block: seq<nat>, kids: seq<Tree>, kid: Tree)
    requires |kids| < SLOTS && block == Roots(kids) + seq(SLOTS - |kids|, _ => 0)
    ensures block[|kids| := kid.block] == Roots(kids + [kid]) + seq(SLOTS - |kids + [kid]|, _ => 0)
  {
  }

  /** The block map as values: a packed forest of allocated blocks, each used once. */
  ghost predicate Mapped(disk: seq<seq<Byte>>, used: set<nat>, e: nat, block: seq<nat>, kids: seq<Tree>) {
    && FileStored(disk, e, block, kids) && Distinct(BagOf(kids)) && forall x :: x in BagOf(kids) ==> x in used
  }

  lemma MapAdd(disk: seq<seq<Byte>>, disk': seq<seq<Byte>>, used: set<nat>, used': set<nat>, e: nat, block: seq<nat>,
               kids: seq<Tree>, kid: Tree, b: nat, added: multiset<nat>)
    requires Mapped(disk, used, e, block, kids) && Pointers(disk', e) && |kids| < SLOTS
    requires kids != [] ==> |Leaves(kids[|kids| - 1])| == Span(e, Depth(|kids| - 1))
    requires Packed(kid, e, Depth(|kids|)) && Leaves(kid) == [b] && Stored(disk', kid, e) &&
             Bag(kid) == added + multiset{b}
    requires Only(disk, disk', added) && Allocated(used, used', added) && b in used && b !in BagOf(kids)
    ensures Mapped(disk', used', e, block[|kids| := kid.block], kids + [kid])
    ensures LeavesOf(kids + [kid]) == LeavesOf(kids) + [b] && BagOf(kids + [kid]) == BagOf(kids) + added + multiset{b}
  {
    hide Span, Packed, Stored, Depth, Leaves, LeavesOf, Bag, BagOf, Ptrs, PtrsOf, Distinct;
    FileAdd(kids, e, kid);
    RootsAdd(block, kids, kid);
    BagPartsOf(kids);
    KidsFrame(disk, disk', e, kids, added);
    StillDistinct(used, BagOf(kids), added, b);
    assert BagOf(kids + [kid]) == BagOf(kids) + added + multiset{b};
  }

  lemma MapLast(disk: seq<seq<Byte>>, disk': seq<seq<Byte>>, used: set<nat>, used': set<nat>, e: nat, block: seq<nat>,
                kids: seq<Tree>, kid: Tree, b: nat, added: multiset<nat>)
    requires Mapped(disk, used, e, block, kids) && Pointers(disk', e) && |kids| > DIRECT
    requires Appended(disk, disk', kids[|kids| - 1], kid, e, Depth(|kids| - 1), b, added)
    requires Allocated(used, used', added) && b in used && b !in BagOf(kids)
    ensures var kids' := kids[..|kids| - 1] + [kid];
            && Mapped(disk', used', e, block, kids') && LeavesOf(kids') == LeavesOf(kids) + [b]
            && BagOf(kids') == BagOf(kids) + added + multiset{b} && Only(disk, disk', PtrsOf(kids) + added)
  {
    hide Span, Packed, Stored, Depth, Leaves, LeavesOf, Bag, BagOf, Ptrs, PtrsOf, Distinct;
    var n := |kids| - 1;
    FileLast(kids, e, kid);
    assert Roots(kids[..n] + [kid]) == Roots(kids);
    OthersApart(kids);
    forall x | x in PtrsOf(kids[..n]) ensures x !in Ptrs(kids[n]) + added { assert x in BagOf(kids); }
    KidsFrame(disk, disk', e, kids[..n], Ptrs(kids[n]) + added);
    StillDistinct(used, BagOf(kids), added, b);
    assert BagOf(kids[..n] + [kid]) == BagOf(kids) + added + multiset{b};
  }

  lemma OthersApart(kids: seq<Tree>)
    requires kids != [] && Distinct(BagOf(kids))
    ensures forall x :: x in PtrsOf(kids[..|kids| - 1]) ==> x !in Ptrs(kids[|kids| - 1]) && x in BagOf(kids)
    ensures PtrsOf(kids) == PtrsOf(kids[..|kids| - 1]) + Ptrs(kids[|kids| - 1])
  {
    hide Bag, Ptrs, Leaves, Distinct;
    var n := |kids| - 1;
    BagPartsOf(kids[..n]);
    BagParts(kids[n]);
    Parts(BagOf(kids[..n]), Bag(kids[n]));
    forall x | x in PtrsOf(kids[..n]) ensures x !in Ptrs(kids[n]) && x in BagOf(kids) {
      assert x in BagOf(kids[..n]) && x !in Bag(kids[n]);
    }
  }

  /** `i_blocks` counts sectors. */
  function Sectors(blockSize: nat, n: nat): nat {
    n * (blockSize / SECTOR)
  }

  lemma SectorBytes(blockSize: nat, n: nat)
    requires blockSize % 512 == 0
    ensures Sectors(blockSize, n) * 512 == blockSize * n
  {
    var k := blockSize / 512;
    assert blockSize == k * 512;
    assert n * k * 512 == (k * 512) * n;
  }

  lemma MoreSectors(blockSize: nat, n: nat, m: nat)
    ensures Sectors(blockSize, n + m) == Sectors(blockSize, n) + Sectors(blockSize, m)
  {
  }

  lemma EmptyFile(disk: seq<seq<Byte>>, used: set<nat>, e: nat, blockSize: nat)
    requires Pointers(disk, e)
    ensures Mapped(disk, used, e, seq(SLOTS, _ => 0), [])
    ensures |LeavesOf([])| == 0 && Sectors(blockSize, |BagOf([])|) == 0
  {
  }

  datatype Outcome = Added | TooLarge | Full

  // ----- How many blocks a file has -----

  function Ceil(m: nat, span: nat): nat
    requires span > 0
  {
    Slot(m, span) + if Rest(m, span) == 0 then 0 else 1
  }

  /** The pointer blocks of a file with `n` data blocks. */
  function PointerBlocks(e: nat, n: nat): nat
    requires e > 0
  {
    var double, triple := 12 + e, 12 + e + e * e;
    if n <= 12 then 0
    else if n <= double then 1
    else if n <= triple then 2 + Ceil(n - double, e)
    else SpanPositive(e, 2); Spans(e); 3 + e + Ceil(n - triple, e) + Ceil(n - triple, e * e)
  }

  /** All blocks of a file with `n` data blocks. */
  function BlocksFor(e: nat, n: nat): nat
    requires e > 0
  {
    n + PointerBlocks(e, n)
  }

  /** The pointer blocks that leaf `m` of a tier of depth `d` needs, the root with the first. */
  function NeedIn(e: nat, d: nat, m: nat): nat
    requires e > 0
  {
    (if m == 0 then 1 else 0) + NewNodes(e, d, m)
  }

  /** The pointer blocks that data block `k` needs. */
  function PointersFor(e: nat, k: nat): nat
    requires e > 0
  {
    if k < 12 then 0
    else if k < 12 + e then NeedIn(e, 1, k - 12)
    else if k < 12 + e + e * e then NeedIn(e, 2, k - (12 + e))
    else NeedIn(e, 3, k - (12 + e + e * e))
  }

  lemma NeedAt(e: nat, j: nat, k: nat)
    requires e > 0 && DIRECT <= j < SLOTS && First(e, j) <= k < First(e, j + 1)
    ensures PointersFor(e, k) == NeedIn(e, Depth(j), k - First(e, j))
  {
    hide First, NeedIn;
    Limits(e);
  }

  lemma NeedFirst(e: nat, j: nat)
    requires e > 0 && DIRECT <= j < SLOTS
    ensures PointersFor(e, First(e, j)) == 1 + NewNodes(e, Depth(j), 0)
  {
    hide First, NewNodes, PointersFor;
    FirstSteps(e, j, j + 1);
    NeedAt(e, j, First(e, j));
  }

  lemma CeilStep(m: nat, span: nat)
    requires span > 0
    ensures Ceil(m + 1, span) == Ceil(m, span) + if Rest(m, span) == 0 then 1 else 0
  {
    hide Slot, Rest;
    var q, r := Slot(m, span), Rest(m, span);
    SlotRest(m, span, q, r);
    if r + 1 < span {
      SlotRest(m + 1, span, q, r + 1);
    } else {
      assert (q + 1) * span == q * span + span;
      SlotRest(m + 1, span, q + 1, 0);
    }
  }

  lemma CeilWhole(q: nat, span: nat)
    requires span > 0
    ensures Ceil(q * span, span) == q
  {
    hide Slot, Rest;
    SlotRest(q * span, span, q, 0);
  }

  lemma RestOfRest(e: nat, m: nat)
    requires e > 0 && e * e > 0
    ensures Rest(Rest(m, e * e), e) == Rest(m, e)
  {
    TripleIndices(m, e);
  }

  lemma RestZero(e: nat)
    requires e > 0
    ensures Rest(0, e) == 0
  {
  }

  lemma NeedTwo(e: nat, m: nat)
    requires e > 0
    ensures NewNodes(e, 2, m) == if Rest(m, e) == 0 then 1 else 0
  {
    hide Rest;
    Spans(e);
    assert NewNodes(e, 1, 0) == 0 && NewNodes(e, 1, Rest(m, e)) == 0;
  }

  lemma NeedThree(e: nat, m: nat)
    requires e > 0 && e * e > 0
    ensures NewNodes(e, 3, m) == (if Rest(m, e * e) == 0 then 1 else 0) + (if Rest(m, e) == 0 then 1 else 0)
  {
    hide Rest;
    Spans(e);
    RestOfRest(e, m);
    RestZero(e);
    NeedTwo(e, 0);
    NeedTwo(e, Rest(m, e * e));
  }

  /** Each data block brings the pointer blocks that it needs. */
  lemma PointerStep(e: nat, k: nat)
    requires e > 0
    ensures PointerBlocks(e, k + 1) == PointerBlocks(e, k) + PointersFor(e, k)
  {
    hide Slot, Rest, Ceil, NewNodes;
    var double, triple := 12 + e, 12 + e + e * e;
    SpanPositive(e, 2);
    Spans(e);
    RestZero(e);
    RestZero(e * e);
    OneLevel(e, k);
    if double <= k < triple {
      CeilStep(k - double, e);
      CeilWhole(0, e);
      NeedTwo(e, k - double);
    } else if k >= triple {
      CeilStep(k - triple, e);
      CeilStep(k - triple, e * e);
      CeilWhole(e, e);
      CeilWhole(0, e);
      CeilWhole(0, e * e);
      NeedThree(e, k - triple);
    }
  }

  lemma OneLevel(e: nat, k: nat)
    requires e > 0
    ensures 12 <= k ==> NewNodes(e, 1, k - 12) == 0
  {
  }

  class Inode {
    var block: seq<nat>
    var blocks: nat      // in sectors
    var size: nat        // in bytes
    var count: nat       // of data blocks
    ghost var kids: seq<Tree>

    /** `blocks` and `count` say how many blocks and data blocks the block map has, and it has no
        pointer blocks that it does not need. */
    ghost predicate Valid(v: Volume)
      reads this, v
    {
      var e := v.blockSize / 4;
      && v.Valid() && v.blockSize == 4 * e && Mapped(v.disk, v.Used(), e, block, kids)
      && count == |LeavesOf(kids)| && blocks == Sectors(v.blockSize, |BagOf(kids)|) &&
        |BagOf(kids)| == BlocksFor(e, count)
    }

    /** `i_blocks` times 512 is the size of all blocks of the inode, data and pointer blocks. */
    lemma SectorCount(v: Volume)
      requires Valid(v) && v.blockSize % 512 == 0
      ensures blocks * 512 == v.blockSize * |BagOf(kids)|
    {
      hide Mapped, BagOf, LeavesOf, BlocksFor, Volume.Valid;
      SectorBytes(v.blockSize, |BagOf(kids)|);
    }

    /** An empty file. */
    constructor (v: Volume)
      requires v.Valid() && v.blockSize == 4 * (v.blockSize / 4) > 0
      ensures Valid(v) && kids == [] && size == 0
    {
      block := seq(SLOTS, _ => 0);
      blocks, size, count := 0, 0, 0;
      kids := [];
      EmptyFile(v.disk, v.Used(), v.blockSize / 4, v.blockSize);
    }

    /** The result of appending `b`, with pointer blocks `added`: one more data block at the
        end, and no block of anyone else's changed. */
    ghost predicate Extended(v: Volume, kids0: seq<Tree>, disk0: seq<seq<Byte>>, used0: set<nat>, b: nat,
                             added: multiset<nat>)
      reads this, v
    {
      && Valid(v) && LeavesOf(kids) == LeavesOf(kids0) + [b] && BagOf(kids) == BagOf(kids0) + added + multiset{b}
      && Allocated(used0, v.Used(), added) && Only(disk0, v.disk, PtrsOf(kids0) + added)
    }

    /** Enters the new block map, which has one more data block and `n` more blocks. */
    method Record(v: Volume, to: seq<nat>, ghost ks: seq<Tree>, n: nat)
      requires v.Valid() && v.blockSize == 4 * (v.blockSize / 4) && Mapped(v.disk, v.Used(), v.blockSize / 4, to, ks)
      requires |LeavesOf(ks)| == count + 1 && |BagOf(ks)| == |BagOf(kids)| + n &&
               blocks == Sectors(v.blockSize, |BagOf(kids)|)
      requires v.blockSize / 4 > 0 && |BagOf(kids)| == BlocksFor(v.blockSize / 4, count) &&
               n == 1 + PointersFor(v.blockSize / 4, count)
      modifies this
      ensures Valid(v) && kids == ks && size == old(size)
    {
      hide Mapped, LeavesOf, BagOf, Sectors, PointerBlocks, PointersFor;
      MoreSectors(v.blockSize, |BagOf(kids)|, n);
      PointerStep(v.blockSize / 4, count);
      block := to;
      blocks := blocks + Sectors(v.blockSize, n);
      count := count + 1;
      kids := ks;
    }

    method AddDirect(v: Volume, b: nat)
      requires Valid(v) && b in v.Used() && 0 < b < |v.disk| && b !in BagOf(kids) && count < DIRECT
      modifies this
      ensures size == old(size) && Extended(v, old(kids), v.disk, v.Used(), b, multiset{})
    {
      hide Span, Packed, Stored, First, AllTaken, Depth, Leaves, LeavesOf, Bag, BagOf, Distinct, Sectors;
      ghost var e := v.blockSize / 4;
      DirectPlace(kids, e);
      OneLeaf(v.disk, e, b);
      NoneAllocated(v.Used());
      MapAdd(v.disk, v.disk, v.Used(), v.Used(), e, block, kids, Leaf(b), b, multiset{});
      Record(v, block[count := b], kids + [Leaf(b)], 1);
    }

    /** Appends below place `j`, whose tree is not there yet. */
    method AddFirst(v: Volume, b: nat, j: nat) returns (ok: bool, ghost added: multiset<nat>)
      requires Valid(v) && b in v.Used() && 0 < b < |v.disk| && b !in BagOf(kids)
      requires DIRECT <= j < SLOTS && count == First(v.blockSize / 4, j)
      modifies this, v
      ensures v.Valid() && size == old(size) && (!ok ==> v.IsFull())
      ensures ok <==> old(v.totalFree) >= 1 + NewNodes(v.blockSize / 4, Depth(j), 0)
      ensures ok ==> v.totalFree == old(v.totalFree) - (1 + NewNodes(v.blockSize / 4, Depth(j), 0))
      ensures ok ==> Extended(v, old(kids), old(v.disk), old(v.Used()), b, added)
    {
      hide Span, Packed, Stored, First, AllTaken, Leaves, LeavesOf, Bag, BagOf, Distinct, Appended, Sectors, NewNodes,
           PointersFor, BlocksFor;
      var e := v.blockSize / 4;
      NotNegative(v);
      ghost var used := v.Used();
      NewPlace(kids, e, j);
      added := multiset{};
      var root := v.AllocBlock();
      if root == -1 {
        return false, added;
      }
      ghost var disk1, used1 := v.disk, v.Used();
      EmptyTree(v.disk, e, root, Depth(j));
      SpanPositive(e, Depth(j));
      var more: nat;
      ghost var t': Tree;
      ok, more, t', added := Append(v, Node(root, []), root, e, Depth(j), 0, b);
      if ok {
        FirstGrown(old(v.disk), disk1, v.disk, root, t', e, Depth(j), b, added);
        OneMore(used, used1, v.Used(), root, added);
        added := added + multiset{root as nat};
        MapAdd(old(v.disk), v.disk, used, v.Used(), e, block, kids, t', b, added);
        assert Only(old(v.disk), v.disk, PtrsOf(kids) + added);
        NeedFirst(e, j);
        Record(v, block[j := root], kids + [t'], 2 + more);
      }
    }

    /** Appends below place `j`, whose tree has room. */
    method AddNext(v: Volume, b: nat, j: nat) returns (ok: bool, ghost added: multiset<nat>)
      requires Valid(v) && b in v.Used() && 0 < b < |v.disk| && b !in BagOf(kids)
      requires DIRECT <= j < SLOTS && First(v.blockSize / 4, j) < count < First(v.blockSize / 4, j + 1)
      modifies this, v
      ensures v.Valid() && size == old(size) && (!ok ==> v.IsFull())
      ensures ok <==> old(v.totalFree) >= NewNodes(v.blockSize / 4, Depth(j), old(count) - First(v.blockSize / 4, j))
      ensures ok ==>
              v.totalFree ==
              old(v.totalFree) - NewNodes(v.blockSize / 4, Depth(j), old(count) - First(v.blockSize / 4, j))
      ensures ok ==> Extended(v, old(kids), old(v.disk), old(v.Used()), b, added)
    {
      hide Span, Packed, Stored, First, AllTaken, Leaves, LeavesOf, Bag, BagOf, Distinct, Appended, Sectors, NewNodes,
           PointersFor, BlocksFor;
      var e := v.blockSize / 4;
      NextPlace(kids, e, j);
      LastTree(kids, e);
      var more: nat;
      ghost var t': Tree;
      ok, more, t', added := Append(v, kids[j], block[j], e, Depth(j), count - First(e, j), b);
      if ok {
        MapLast(old(v.disk), v.disk, old(v.Used()), v.Used(), e, block, kids, t', b, added);
        NeedAt(e, j, count);
        Record(v, block, kids[..j] + [t'], 1 + more);
      }
    }

    lemma Entries(v: Volume)
      requires Valid(v)
      ensures v.blockSize / 4 > 0
    {
    }

    /** `node_add_block`: appends data block `b`.  Too large is the answer when the file has as
        many blocks as it can; full, where the kernel stops, when a pointer block is needed and
        there is none. */
    method AddBlock(v: Volume, b: nat) returns (r: Outcome, ghost added: multiset<nat>)
      requires Valid(v) && b in v.Used() && 0 < b < |v.disk| && b !in BagOf(kids)
      modifies this, v
      ensures v.Valid() && size == old(size) && (r == Full ==> v.IsFull())
      ensures r == Added ==> Extended(v, old(kids), old(v.disk), old(v.Used()), b, added)
      ensures r == TooLarge <==> old(count) >= First(v.blockSize / 4, SLOTS)
      ensures r == Full <==>
                old(count) < First(v.blockSize / 4, SLOTS) &&
                  old(v.totalFree) < PointersFor(v.blockSize / 4, old(count))
      ensures r == Added ==> v.totalFree == old(v.totalFree) - PointersFor(v.blockSize / 4, old(count))
      ensures r == TooLarge ==> Valid(v) && kids == old(kids) && v.disk == old(v.disk) && v.Used() == old(v.Used())
    {
      hide Span, Packed, Stored, First, AllTaken, Leaves, LeavesOf, Bag, BagOf, Ptrs, PtrsOf, Distinct, Mapped, Only,
           Allocated, Sectors, NewNodes;
      var e := v.blockSize / 4;
      added := multiset{};
      NotNegative(v);
      if count < DIRECT {
        DirectFits(e, count);
        AddDirect(v, b);
        return Added, added;
      }
      var j := Tier(e, count);
      if j == SLOTS {
        return TooLarge, added;
      }
      Entries(v);
      NeedAt(e, j, count);
      var ok: bool;
      if count == First(e, j) {
        ok, added := AddFirst(v, b, j);
      } else {
        ok, added := AddNext(v, b, j);
      }
      r := if ok then Added else Full;
    }
  }

  lemma LastTree(kids: seq<Tree>, e: nat)
    requires |kids| > DIRECT && FilePacked(kids, e) && Distinct(BagOf(kids))
    ensures var t := kids[|kids| - 1];
            && t.Node? && Packed(t, e, Depth(|kids| - 1)) && Distinct(Bag(t)) && forall x :: x in Bag(t) ==>
              x in BagOf(kids)
  {
    var n := |kids| - 1;
    assert forall x :: BagOf(kids)[x] == BagOf(kids[..n])[x] + Bag(kids[n])[x];
    forall x ensures Bag(kids[n])[x] <= 1 { assert BagOf(kids)[x] <= 1; }
  }

  lemma NewPlace(kids: seq<Tree>, e: nat, j: nat)
    requires e > 0 && FilePacked(kids, e) && DIRECT <= j < SLOTS && |LeavesOf(kids)| == First(e, j)
    ensures |kids| == j && |Leaves(kids[j - 1])| == Span(e, Depth(j - 1))
  {
    FirstSteps(e, j, j + 1);
    NextPlace(kids, e, j);
  }

  lemma EmptyTree(disk: seq<seq<Byte>>, e: nat, b: nat, d: nat)
    requires 0 < b < |disk| && disk[b] == Zeros(4 * e) && d > 0
    ensures var t := Node(b, []);
            Stored(disk, t, e) && Packed(t, e, d) && Leaves(t) == [] && Bag(t) == multiset{b} && Distinct(Bag(t))
  {
    DecodeZeros(4 * e);
  }

  lemma FirstGrown(disk: seq<seq<Byte>>, disk1: seq<seq<Byte>>, disk2: seq<seq<Byte>>, root: nat, t': Tree, e: nat,
                   d: nat,
                   b: nat, more: multiset<nat>)
    requires root < |disk| && |disk1| == |disk| && disk1 == disk[root := disk1[root]]
    requires Appended(disk1, disk2, Node(root, []), t', e, d, b, more)
    ensures Packed(t', e, d) && Leaves(t') == [b] && Stored(disk2, t', e) && t'.block == root
    ensures Bag(t') == more + multiset{root} + multiset{b} && Only(disk, disk2, more + multiset{root})
  {
    hide Packed, Stored;
    NothingThere(root);
  }

  lemma DirectPlace(kids: seq<Tree>, e: nat)
    requires e > 0 && FilePacked(kids, e) && |LeavesOf(kids)| < DIRECT
    ensures |kids| == |LeavesOf(kids)| && Depth(|kids|) == 0
    ensures kids != [] ==> |Leaves(kids[|kids| - 1])| == Span(e, Depth(|kids| - 1))
  {
    FirstDirect(e, |LeavesOf(kids)|);
    FirstDirect(e, |LeavesOf(kids)| + 1);
    NextPlace(kids, e, |LeavesOf(kids)|);
  }

  lemma OneLeaf(disk: seq<seq<Byte>>, e: nat, b: nat)
    requires 0 < b < |disk|
    ensures Packed(Leaf(b), e, 0) && Leaves(Leaf(b)) == [b] && Stored(disk, Leaf(b), e) &&
            Bag(Leaf(b)) == multiset{} + multiset{b}
  {
  }
}
