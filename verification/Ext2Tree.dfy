/** The pointer trees of an inode, as values.

    A tree of depth 0 is a data block; a tree of depth d is a pointer block with trees of
    depth d - 1 below it.  Trees are packed: only the last child at each level may have
    room, and unused pointers are zero.
  */
module Ext2Tree {
  import opened Words
  import opened ByteWords
  import opened Ext2Volume

  datatype Tree = Leaf(block: nat) | Node(block: nat, kids: seq<Tree>)

  /** How many data blocks a tree of depth `d` can have, with `e` pointers to a block. */
  function Span(e: nat, d: nat): nat {
    if d == 0 then 1 else e * Span(e, d - 1)
  }

  lemma {:induction false} SpanPositive(e: nat, d: nat)
    requires e > 0
    ensures Span(e, d) > 0
  {
    if d > 0 { SpanPositive(e, d - 1); }
  }

  /** The data blocks, in order. */
  function Leaves(t: Tree): seq<nat>
    decreases t, 0
  {
    match t
    case Leaf(b) => [b]
    case Node(_, kids) => LeavesOf(kids)
  }

  function LeavesOf(ts: seq<Tree>): seq<nat>
    decreases ts, |ts|
  {
    if ts == [] then [] else LeavesOf(ts[..|ts| - 1]) + Leaves(ts[|ts| - 1])
  }

  /** All blocks, data and pointers. */
  function Bag(t: Tree): multiset<nat>
    decreases t, 0
  {
    match t
    case Leaf(b) => multiset{b}
    case Node(b, kids) => BagOf(kids) + multiset{b}
  }

  function BagOf(ts: seq<Tree>): multiset<nat>
    decreases ts, |ts|
  {
    if ts == [] then multiset{} else BagOf(ts[..|ts| - 1]) + Bag(ts[|ts| - 1])
  }

  /** The pointer blocks. */
  function Ptrs(t: Tree): multiset<nat>
    decreases t, 0
  {
    match t
    case Leaf(_) => multiset{}
    case Node(b, kids) => PtrsOf(kids) + multiset{b}
  }

  function PtrsOf(ts: seq<Tree>): multiset<nat>
    decreases ts, |ts|
  {
    if ts == [] then multiset{} else PtrsOf(ts[..|ts| - 1]) + Ptrs(ts[|ts| - 1])
  }

  /** Every block is a data block or a pointer block. */
  lemma {:induction false} BagParts(t: Tree)
    ensures Bag(t) == Ptrs(t) + multiset(Leaves(t))
    decreases t, 0
  {
    if t.Node? { BagPartsOf(t.kids); }
  }

  lemma {:induction false} BagPartsOf(ts: seq<Tree>)
    ensures BagOf(ts) == PtrsOf(ts) + multiset(LeavesOf(ts))
    decreases ts, |ts|
  {
    if ts != [] {
      BagPartsOf(ts[..|ts| - 1]);
      BagParts(ts[|ts| - 1]);
    }
  }

  ghost predicate Distinct(m: multiset<nat>) {
    forall x :: m[x] <= 1
  }

  lemma Parts(a: multiset<nat>, b: multiset<nat>)
    requires Distinct(a + b)
    ensures Distinct(a) && Distinct(b) && forall x :: x in a ==> x !in b
  {
    forall x ensures a[x] + b[x] <= 1 { assert (a + b)[x] <= 1; }
  }

  ghost predicate Packed(t: Tree, e: nat, d: nat)
    decreases d, 0
  {
    match t
    case Leaf(_) => d == 0
    case Node(_, kids) => d > 0 && |kids| <= e && KidsPacked(kids, e, d - 1)
  }

  /** All children but the last are full, and none is empty. */
  ghost predicate KidsPacked(kids: seq<Tree>, e: nat, d: nat)
    decreases d, 1
  {
    && (forall j :: 0 <= j < |kids| ==> Packed(kids[j], e, d) && Leaves(kids[j]) != [])
    && (forall j :: 0 <= j < |kids| - 1 ==> |Leaves(kids[j])| == Span(e, d))
  }

  function Roots(kids: seq<Tree>): (r: seq<nat>)
    ensures |r| == |kids|
  {
    seq(|kids|, j requires 0 <= j < |kids| => kids[j].block)
  }

  /** The pointer blocks on the disk are those of the tree. */
  ghost predicate Stored(disk: seq<seq<Byte>>, t: Tree, e: nat) {
    match t
    case Leaf(b) => 0 < b < |disk|
    case Node(b, kids) =>
      && 0 < b < |disk| && |kids| <= e && Decode(disk[b]) == Roots(kids) + seq(e - |kids|, _ => 0)
      && (forall j :: 0 <= j < |kids| ==> Stored(disk, kids[j], e))
  }

  lemma {:induction false} PackedSize(t: Tree, e: nat, d: nat)
    requires e > 0 && Packed(t, e, d)
    ensures |Leaves(t)| <= Span(e, d)
    decreases d, 0
  {
    if t.Node? { KidsSize(t.kids, e, d - 1); MulMono(|t.kids|, e, Span(e, d - 1)); }
  }

  /** The children before the last hold a full span each. */
  lemma {:induction false} KidsSize(kids: seq<Tree>, e: nat, d: nat)
    requires e > 0 && KidsPacked(kids, e, d)
    ensures kids == [] ==> LeavesOf(kids) == []
    ensures kids != [] ==>
              |LeavesOf(kids)| == (|kids| - 1) * Span(e, d) + |Leaves(kids[|kids| - 1])| <= |kids| * Span(e, d)
    decreases d, 1, |kids|
  {
    if kids != [] {
      var last, init := kids[|kids| - 1], kids[..|kids| - 1];
      PackedSize(last, e, d);
      KidsSize(init, e, d);
      assert init != [] ==> |Leaves(init[|init| - 1])| == Span(e, d);
      if init != [] {
        assert (|kids| - 2) * Span(e, d) + Span(e, d) == (|kids| - 1) * Span(e, d);
      }
    }
  }

  /** Leaf `r` of child `q` is leaf `q * span + r`. */
  lemma {:induction false} LeafIn(kids: seq<Tree>, e: nat, d: nat, q: nat, r: nat)
    requires e > 0 && KidsPacked(kids, e, d) && q < |kids| && r < |Leaves(kids[q])|
    ensures q * Span(e, d) + r < |LeavesOf(kids)| && LeavesOf(kids)[q * Span(e, d) + r] == Leaves(kids[q])[r]
    decreases |kids|
  {
    hide Span, Packed, Leaves;
    var n := |kids| - 1;
    KidsSize(kids, e, d);
    KidsSize(kids[..n], e, d);
    if q < n {
      LeafIn(kids[..n], e, d, q, r);
    } else {
      assert n > 0 ==> (n - 1) * Span(e, d) + Span(e, d) == n * Span(e, d);
    }
  }

  function Slot(i: nat, span: nat): nat
    requires span > 0
  {
    i / span
  }

  function Rest(i: nat, span: nat): (r: nat)
    requires span > 0
    ensures r < span
  {
    i % span
  }

  lemma SlotRest(i: nat, span: nat, q: nat, r: nat)
    requires span > 0 && r < span
    ensures i == q * span + r <==> Slot(i, span) == q && Rest(i, span) == r
  {
    assert i == i / span * span + i % span;
    if i == q * span + r { DivUnique(i, span, q, r); }
  }

  /** Leaf `i` is found in child `i / span`, at `i % span`. */
  lemma LeafAt(kids: seq<Tree>, e: nat, d: nat, i: nat)
    requires e > 0 && KidsPacked(kids, e, d) && i < |LeavesOf(kids)|
    ensures Span(e, d) > 0
    ensures var q, r := Slot(i, Span(e, d)), Rest(i, Span(e, d));
            q < |kids| && r < |Leaves(kids[q])| && LeavesOf(kids)[i] == Leaves(kids[q])[r]
  {
    hide Span, Packed, Slot, Rest, Leaves, LeavesOf;
    SpanPositive(e, d);
    var span := Span(e, d);
    var q, r := Slot(i, span), Rest(i, span);
    SlotRest(i, span, q, r);
    KidsSize(kids, e, d);
    MulMono(|kids|, q, span);
    if q == |kids| - 1 {
      assert r < |Leaves(kids[q])|;
    }
    LeafIn(kids, e, d, q, r);
  }

  // ----- Reading through the pointers -----

  predicate Pointers(disk: seq<seq<Byte>>, e: nat) {
    e > 0 && forall b :: 0 <= b < |disk| ==> |disk[b]| / 4 == e
  }

  /** Pointer `q` of block `b`; zero also where the block itself is missing. */
  function Pointer(disk: seq<seq<Byte>>, e: nat, b: nat, q: nat): nat
    requires Pointers(disk, e)
  {
    if b == 0 || b >= |disk| || q >= e then 0 else Decode(disk[b])[q]
  }

  /** The block number reached from root `b` over `d` levels of pointers. */
  function Lookup(disk: seq<seq<Byte>>, e: nat, b: nat, d: nat, i: nat): nat
    requires Pointers(disk, e)
    decreases d
  {
    if d == 0 then b else
    SpanPositive(e, d - 1);
    Lookup(disk, e, Pointer(disk, e, b, Slot(i, Span(e, d - 1))), d - 1, Rest(i, Span(e, d - 1)))
  }

  lemma {:induction false} LookupLeaf(disk: seq<seq<Byte>>, e: nat, t: Tree, d: nat, i: nat)
    requires Pointers(disk, e) && Packed(t, e, d) && Stored(disk, t, e) && i < |Leaves(t)|
    ensures Lookup(disk, e, t.block, d, i) == Leaves(t)[i]
    decreases d
  {
    if d > 0 {
      hide Span, Slot, Rest;
      SpanPositive(e, d - 1);
      LeafAt(t.kids, e, d - 1, i);
      var q, r := Slot(i, Span(e, d - 1)), Rest(i, Span(e, d - 1));
      assert Pointer(disk, e, t.block, q) == Roots(t.kids)[q] == t.kids[q].block;
      LookupLeaf(disk, e, t.kids[q], d - 1, r);
    }
  }

  // ----- What a change of the disk leaves alone -----

  lemma {:induction false} KidInBag(kids: seq<Tree>, j: nat, x: nat)
    requires j < |kids|
    ensures Bag(kids[j])[x] <= BagOf(kids)[x]
    decreases |kids|
  {
    if j < |kids| - 1 { KidInBag(kids[..|kids| - 1], j, x); }
  }

  lemma {:induction false} KidInPtrs(kids: seq<Tree>, j: nat, x: nat)
    requires j < |kids|
    ensures Ptrs(kids[j])[x] <= PtrsOf(kids)[x]
    decreases |kids|
  {
    if j < |kids| - 1 { KidInPtrs(kids[..|kids| - 1], j, x); }
  }

  lemma {:induction false} StoredFrame(disk: seq<seq<Byte>>, disk': seq<seq<Byte>>, e: nat, t: Tree)
    requires Stored(disk, t, e) && |disk'| == |disk|
    requires forall x :: x in Ptrs(t) && x < |disk| ==> disk'[x] == disk[x]
    ensures Stored(disk', t, e)
    decreases t
  {
    if t.Node? {
      assert t.block in Ptrs(t);
      forall j | 0 <= j < |t.kids| ensures Stored(disk', t.kids[j], e) {
        forall x | x in Ptrs(t.kids[j]) && x < |disk| ensures disk'[x] == disk[x] { KidInPtrs(t.kids, j, x); }
        StoredFrame(disk, disk', e, t.kids[j]);
      }
    }
  }

  /** Every block of a stored tree exists. */
  lemma {:induction false} StoredBlocks(disk: seq<seq<Byte>>, e: nat, t: Tree, x: nat)
    requires Stored(disk, t, e) && x in Bag(t)
    ensures 0 < x < |disk|
    decreases t
  {
    if t.Node? && x != t.block {
      var j := InSomeKid(t.kids, x);
      StoredBlocks(disk, e, t.kids[j], x);
    }
  }

  lemma {:induction false} InSomeKid(kids: seq<Tree>, x: nat) returns (j: nat)
    requires x in BagOf(kids)
    ensures j < |kids| && x in Bag(kids[j])
    decreases |kids|
  {
    var n := |kids| - 1;
    if x in Bag(kids[n]) {
      j := n;
    } else {
      j := InSomeKid(kids[..n], x);
    }
  }

  /** Distinct children share no block. */
  lemma {:induction false} KidsApart(kids: seq<Tree>, i: nat, j: nat, x: nat)
    requires i < j < |kids| && Distinct(BagOf(kids))
    ensures !(x in Bag(kids[i]) && x in Bag(kids[j]))
    decreases |kids|
  {
    var n := |kids| - 1;
    assert forall y :: BagOf(kids)[y] == BagOf(kids[..n])[y] + Bag(kids[n])[y];
    if j == n {
      KidInBag(kids[..n], i, x);
    } else {
      forall y ensures BagOf(kids[..n])[y] <= 1 { assert BagOf(kids)[y] <= 1; }
      KidsApart(kids[..n], i, j, x);
    }
  }

  // ----- Where the next block goes -----

  lemma NextSlot(kids: seq<Tree>, e: nat, d: nat)
    requires e > 0 && KidsPacked(kids, e, d) && |LeavesOf(kids)| < Span(e, d + 1) && |kids| <= e
    ensures Span(e, d) > 0
    ensures var q, r, n := Slot(|LeavesOf(kids)|, Span(e, d)), Rest(|LeavesOf(kids)|, Span(e, d)), |kids|;
            && q < e
            && (r == 0 ==> q == n && (n > 0 ==> |Leaves(kids[n - 1])| == Span(e, d)))
            && (r != 0 ==> q == n - 1 && r == |Leaves(kids[n - 1])| < Span(e, d))
  {
    var span, n, i := Span(e, d), |kids|, |LeavesOf(kids)|;
    SpanPositive(e, d);
    KidsSize(kids, e, d);
    if n == 0 {
      SlotRest(i, span, 0, 0);
    } else {
      PackedSize(kids[n - 1], e, d);
      if |Leaves(kids[n - 1])| == span {
        assert (n - 1) * span + span == n * span;
        SlotRest(i, span, n, 0);
        MulMono(e, n, span);
      } else {
        SlotRest(i, span, n - 1, |Leaves(kids[n - 1])|);
      }
    }
  }
}
