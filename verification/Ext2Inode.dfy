/** Pointer trees on the disk, and hanging one more data block into them.

    `node_add_block` is written out in the file system once for each depth; here the
    descent through a pointer tree is one recursive method.
  */
module Ext2Inode {
  import opened Words
  import opened ByteWords
  import opened Ext2Volume
  import opened Ext2Tree

  // ----- Trees with one more block -----

  function WithKid(t: Tree, kid: Tree): Tree
    requires t.Node?
  {
    t.(kids := t.kids + [kid])
  }

  function WithLast(t: Tree, kid: Tree): Tree
    requires t.Node? && t.kids != []
  {
    t.(kids := t.kids[..|t.kids| - 1] + [kid])
  }

  lemma AddKid(t: Tree, e: nat, d: nat, kid: Tree)
    requires t.Node? && d > 0 && Packed(t, e, d) && |t.kids| < e && Packed(kid, e, d - 1) && Leaves(kid) != []
    requires t.kids != [] ==> |Leaves(t.kids[|t.kids| - 1])| == Span(e, d - 1)
    ensures Packed(WithKid(t, kid), e, d)
    ensures Leaves(WithKid(t, kid)) == Leaves(t) + Leaves(kid)
    ensures Bag(WithKid(t, kid)) == Bag(t) + Bag(kid)
  {
    hide Span;
    assert WithKid(t, kid).kids[..|t.kids|] == t.kids;
  }

  lemma ChangeLast(t: Tree, e: nat, d: nat, kid: Tree)
    requires t.Node? && t.kids != [] && d > 0 && Packed(t, e, d) && Packed(kid, e, d - 1) && Leaves(kid) != []
    ensures Packed(WithLast(t, kid), e, d)
    ensures Leaves(WithLast(t, kid)) == LeavesOf(t.kids[..|t.kids| - 1]) + Leaves(kid)
    ensures Bag(WithLast(t, kid)) == BagOf(t.kids[..|t.kids| - 1]) + Bag(kid) + multiset{t.block}
  {
    hide Span;
    assert WithLast(t, kid).kids[..|t.kids| - 1] == t.kids[..|t.kids| - 1];
  }

  // ----- Pointers on the disk -----

  /** The tree is on the disk, in blocks of its own that are allocated. */
  ghost predicate Placed(v: Volume, t: Tree, e: nat)
    reads v
  {
    && v.Valid() && v.blockSize == 4 * e && e > 0
    && Stored(v.disk, t, e) && Distinct(Bag(t)) && (forall x :: x in Bag(t) ==> x in v.Used())
  }

  method Read(v: Volume, b: nat) returns (ws: seq<nat>)
    requires v.Valid() && b < |v.disk|
    ensures ws == Decode(v.disk[b])
  {
    ws := Decode(v.disk[b]);
  }

  method Write(v: Volume, b: nat, ws: seq<nat>)
    requires v.Valid() && b < |v.disk| && v.blockSize == 4 * |ws| && forall q :: 0 <= q < |ws| ==> ws[q] < MODULUS
    modifies v`disk
    ensures v.Valid() && v.disk == old(v.disk)[b := v.disk[b]] && Decode(v.disk[b]) == ws && v.Used() == old(v.Used())
  {
    DecodeEncode(ws);
    v.disk := v.disk[b := Encode(ws)];
  }

  lemma PointersFit(disk: seq<seq<Byte>>, t: Tree, e: nat)
    requires t.Node? && Stored(disk, t, e) && |disk| <= MODULUS
    ensures forall q :: 0 <= q < e ==> Decode(disk[t.block])[q] < MODULUS
    ensures |Decode(disk[t.block])| == e
    ensures forall q :: 0 <= q < |t.kids| ==> Decode(disk[t.block])[q] == t.kids[q].block
  {
    forall q | 0 <= q < |t.kids| ensures t.kids[q].block < MODULUS {
      assert Stored(disk, t.kids[q], e);
    }
  }

  lemma StoreKid(disk: seq<seq<Byte>>, disk': seq<seq<Byte>>, t: Tree, e: nat, kid: Tree)
    requires t.Node? && |t.kids| < e && Stored(disk, t, e) && |disk'| == |disk|
    requires forall x :: x in PtrsOf(t.kids) && x < |disk| ==> disk'[x] == disk[x]
    requires Decode(disk'[t.block]) == Decode(disk[t.block])[|t.kids| := kid.block]
    requires Stored(disk', kid, e)
    ensures Stored(disk', WithKid(t, kid), e)
  {
    hide Ptrs, PtrsOf, Decode;
    var t' := WithKid(t, kid);
    forall j | 0 <= j < |t'.kids| ensures Stored(disk', t'.kids[j], e) {
      if j < |t.kids| {
        forall x | x in Ptrs(t.kids[j]) && x < |disk| ensures disk'[x] == disk[x] { KidInPtrs(t.kids, j, x); }
        StoredFrame(disk, disk', e, t.kids[j]);
      }
    }
    assert Decode(disk'[t.block]) == Roots(t'.kids) + seq(e - |t'.kids|, _ => 0);
  }

  lemma StoreLast(disk: seq<seq<Byte>>, disk': seq<seq<Byte>>, t: Tree, e: nat, kid: Tree)
    requires t.Node? && t.kids != [] && Stored(disk, t, e) && |disk'| == |disk|
    requires disk'[t.block] == disk[t.block] && kid.block == t.kids[|t.kids| - 1].block
    requires forall x :: x in PtrsOf(t.kids[..|t.kids| - 1]) && x < |disk| ==> disk'[x] == disk[x]
    requires Stored(disk', kid, e)
    ensures Stored(disk', WithLast(t, kid), e)
  {
    hide Ptrs, PtrsOf, Decode;
    var t', n := WithLast(t, kid), |t.kids| - 1;
    forall j | 0 <= j < |t'.kids| ensures Stored(disk', t'.kids[j], e) {
      if j < n {
        forall x | x in Ptrs(t.kids[j]) && x < |disk| ensures disk'[x] == disk[x] { KidInPtrs(t.kids[..n], j, x); }
        StoredFrame(disk, disk', e, t.kids[j]);
      }
    }
    assert Roots(t'.kids) == Roots(t.kids);
  }

  // ----- Appending -----

  /** Between `disk` and `disk'` only the blocks of `touched` change. */
  ghost predicate Only(disk: seq<seq<Byte>>, disk': seq<seq<Byte>>, touched: multiset<nat>) {
    |disk'| == |disk| && forall x :: 0 <= x < |disk| && x !in touched ==> disk'[x] == disk[x]
  }

  /** What appending block `b` to tree `t` comes to: the tree `t'` has one more leaf, and the
      blocks `added` were allocated for pointers.  No other block has changed. */
  ghost predicate Appended(disk: seq<seq<Byte>>, disk': seq<seq<Byte>>, t: Tree, t': Tree, e: nat, d: nat, b: nat,
                           added: multiset<nat>) {
    && Only(disk, disk', Ptrs(t) + added) && t'.block == t.block && t'.Node? && Packed(t', e, d) && Stored(disk', t', e)
    && Leaves(t') == Leaves(t) + [b] && Bag(t') == Bag(t) + added + multiset{b}
  }

  lemma RootApart(t: Tree)
    requires t.Node? && Distinct(Bag(t))
    ensures t.block !in BagOf(t.kids) && Distinct(BagOf(t.kids)) && t.block !in PtrsOf(t.kids)
  {
    BagPartsOf(t.kids);
    assert Bag(t)[t.block] == BagOf(t.kids)[t.block] + 1;
    forall x ensures BagOf(t.kids)[x] <= 1 { assert Bag(t)[x] <= 1; }
  }

  lemma LeafCount(t: Tree, e: nat)
    requires t.Node? && e > 0 && Packed(t, e, 1)
    ensures |Leaves(t)| == |t.kids| && Span(e, 0) == 1
    ensures t.kids != [] ==> |Leaves(t.kids[|t.kids| - 1])| == 1
  {
    KidsSize(t.kids, e, 0);
    if t.kids != [] {
      PackedSize(t.kids[|t.kids| - 1], e, 0);
    }
  }

  lemma LeafAppended(disk: seq<seq<Byte>>, disk': seq<seq<Byte>>, t: Tree, e: nat, b: nat)
    requires t.Node? && e > 0 && Stored(disk, t, e) && Packed(t, e, 1) && Distinct(Bag(t)) && |t.kids| < e &&
             0 < b < |disk|
    requires |disk'| == |disk| && disk' == disk[t.block := disk'[t.block]] &&
             Decode(disk'[t.block]) == Decode(disk[t.block])[|t.kids| := b]
    ensures Appended(disk, disk', t, WithKid(t, Leaf(b)), e, 1, b, multiset{})
  {
    hide Decode, Span, Packed, LeavesOf, BagOf, Distinct;
    LeafCount(t, e);
    assert Packed(Leaf(b), e, 0) by { PackedLeaf(b, e); }
    AddKid(t, e, 1, Leaf(b));
    RootApart(t);
    StoreKid(disk, disk', t, e, Leaf(b));
    assert t.block in Ptrs(t);
  }

  lemma PackedLeaf(b: nat, e: nat)
    ensures Packed(Leaf(b), e, 0) && Span(e, 0) == 1
  {
  }

  /** The last level: the pointer goes into the block itself. */
  method AppendLeaf(v: Volume, ghost t: Tree, root: nat, e: nat, i: nat, b: nat) returns (ghost t': Tree)
    requires t.Node? && t.block == root && Placed(v, t, e) && Packed(t, e, 1) && i == |Leaves(t)| < e
    requires b in v.Used() && 0 < b < |v.disk|
    modifies v`disk
    ensures v.Valid() && v.Used() == old(v.Used())
    ensures Appended(old(v.disk), v.disk, t, t', e, 1, b, multiset{})
  {
    hide Decode, Packed, Leaves, Bag, Distinct, AllTaken, Counted;
    PointersFit(v.disk, t, e);
    LeafCount(t, e);
    var ptrs := Read(v, root);
    Write(v, root, ptrs[i := b]);
    t' := WithKid(t, Leaf(b));
    LeafAppended(old(v.disk), v.disk, t, e, b);
  }

  lemma KidsInBag(t: Tree)
    requires t.Node?
    ensures Bag(t) == BagOf(t.kids) + multiset{t.block}
    ensures t.block in Bag(t) && forall x :: x in BagOf(t.kids) ==> x in Bag(t)
    ensures t.block in Ptrs(t) && forall x :: x in PtrsOf(t.kids) ==> x in Bag(t)
  {
    BagPartsOf(t.kids);
  }

  lemma NewKidStored(disk: seq<seq<Byte>>, disk1: seq<seq<Byte>>, disk2: seq<seq<Byte>>, t: Tree, e: nat, kid: Tree,
                     made: multiset<nat>)
    requires t.Node? && Stored(disk, t, e) && Distinct(Bag(t)) && |t.kids| < e
    requires Only(disk, disk1, made + multiset{t.block}) && Only(disk1, disk2, made)
    requires forall x :: x in made ==> x !in Bag(t)
    requires t.block < |disk| && Decode(disk1[t.block]) == Roots(t.kids) + [kid.block] + seq(e - |t.kids| - 1, _ => 0)
    requires Stored(disk2, kid, e)
    ensures Stored(disk2, WithKid(t, kid), e)
  {
    hide Decode, Distinct, Bag, BagOf, Ptrs, PtrsOf;
    RootApart(t);
    KidsInBag(t);
    assert disk2[t.block] == disk1[t.block];
    assert Decode(disk2[t.block]) == Decode(disk[t.block])[|t.kids| := kid.block];
    StoreKid(disk, disk2, t, e, kid);
  }

  lemma NothingThere(child: nat)
    ensures Leaves(Node(child, [])) == [] && Bag(Node(child, [])) == multiset{child} &&
            Ptrs(Node(child, [])) == multiset{child}
  {
  }

  lemma StoredRoot(disk: seq<seq<Byte>>, t: Tree, e: nat)
    requires Stored(disk, t, e)
    ensures 0 < t.block < |disk| && (t.Node? ==> |t.kids| <= e && |Decode(disk[t.block])| == e)
  {
  }

  lemma NewKid(disk: seq<seq<Byte>>, disk1: seq<seq<Byte>>, disk2: seq<seq<Byte>>, t: Tree, e: nat, d: nat,
               child: nat, kid: Tree, b: nat, more: multiset<nat>)
    requires t.Node? && d > 1 && e > 0 && Stored(disk, t, e) && Packed(t, e, d) && Distinct(Bag(t)) && |t.kids| < e
    requires t.kids != [] ==> |Leaves(t.kids[|t.kids| - 1])| == Span(e, d - 1)
    requires Only(disk, disk1, multiset{child, t.block})
    requires t.block < |disk| && Decode(disk1[t.block]) == Roots(t.kids) + [child] + seq(e - |t.kids| - 1, _ => 0)
    requires Appended(disk1, disk2, Node(child, []), kid, e, d - 1, b, more)
    requires child !in Bag(t) && forall x :: x in more ==> x !in Bag(t)
    ensures Appended(disk, disk2, t, WithKid(t, kid), e, d, b, more + multiset{child})
  {
    hide Decode, Span, Packed, Distinct, Stored, Bag, BagOf, Leaves, LeavesOf, Ptrs, PtrsOf, KidsPacked;
    NothingThere(child);
    KidsInBag(t);
    var made := more + multiset{child};
    assert Only(disk, disk1, made + multiset{t.block}) && Only(disk1, disk2, made);
    NewKidStored(disk, disk1, disk2, t, e, kid, made);
    AddKid(t, e, d, kid);
  }

  lemma LastKid(disk: seq<seq<Byte>>, disk': seq<seq<Byte>>, t: Tree, e: nat, d: nat, kid: Tree, b: nat,
                more: multiset<nat>)
    requires t.Node? && d > 1 && e > 0 && Stored(disk, t, e) && Packed(t, e, d) && Distinct(Bag(t)) && t.kids != []
    requires Appended(disk, disk', t.kids[|t.kids| - 1], kid, e, d - 1, b, more)
    requires forall x :: x in more ==> x !in Bag(t)
    ensures Appended(disk, disk', t, WithLast(t, kid), e, d, b, more)
  {
    hide Decode, Span, Packed, Distinct, Stored, Bag, BagOf, Leaves, LeavesOf, Ptrs, PtrsOf;
    LastApart(t);
    ChangeLast(t, e, d, kid);
    StoredRoot(disk, t, e);
    KidsInBag(t);
    StoreLast(disk, disk', t, e, kid);
  }

  lemma Unfolded(t: Tree)
    requires t.Node? && t.kids != []
    ensures var n := |t.kids| - 1;
            && Bag(t) == BagOf(t.kids[..n]) + Bag(t.kids[n]) + multiset{t.block}
            && Ptrs(t) == PtrsOf(t.kids[..n]) + Ptrs(t.kids[n]) + multiset{t.block}
            && Leaves(t) == LeavesOf(t.kids[..n]) + Leaves(t.kids[n])
            && Ptrs(t.kids[n]) <= Bag(t.kids[n]) && PtrsOf(t.kids[..n]) <= BagOf(t.kids[..n])
  {
    var n := |t.kids| - 1;
    BagParts(t.kids[n]);
    BagPartsOf(t.kids[..n]);
  }

  /** The last child has no block in common with the others or with the parent. */
  lemma LastApart(t: Tree)
    requires t.Node? && t.kids != [] && Distinct(Bag(t))
    ensures var last, others := Bag(t.kids[|t.kids| - 1]), BagOf(t.kids[..|t.kids| - 1]);
            && t.block !in last && (forall x :: x in others ==> x !in last) &&
              (forall x :: x in last ==> x in Bag(t)) && Distinct(last)
            && (forall x :: x in others ==> x in Bag(t)) && Bag(t) == others + last + multiset{t.block}
    ensures Leaves(t) == LeavesOf(t.kids[..|t.kids| - 1]) + Leaves(t.kids[|t.kids| - 1])
    ensures var last, others := Ptrs(t.kids[|t.kids| - 1]), PtrsOf(t.kids[..|t.kids| - 1]);
            && t.block !in last && (forall x :: x in others ==> x !in last && x in Bag(t))
            && Ptrs(t) == others + last + multiset{t.block}
  {
    hide Bag, BagOf, Ptrs, PtrsOf, Leaves, LeavesOf, Distinct;
    Unfolded(t);
    var n := |t.kids| - 1;
    Parts(BagOf(t.kids[..n]) + Bag(t.kids[n]), multiset{t.block});
    Parts(BagOf(t.kids[..n]), Bag(t.kids[n]));
  }

  /** `added` are newly allocated blocks. */
  ghost predicate Allocated(used: set<nat>, used': set<nat>, added: multiset<nat>) {
    && Distinct(added) && (forall x :: x in added ==> x !in used)
    && (forall x :: x in used' <==> x in used || x in added)
  }

  lemma StillDistinct(used: set<nat>, bag: multiset<nat>, added: multiset<nat>, b: nat)
    requires Distinct(bag) && Distinct(added) && (forall x :: x in bag ==> x in used) &&
             (forall x :: x in added ==> x !in used)
    requires b in used && b !in bag
    ensures Distinct(bag + added + multiset{b})
  {
    forall x ensures (bag + added + multiset{b})[x] <= 1 {
      assert bag[x] <= 1 && added[x] <= 1;
    }
  }

  /** Allocates a pointer block and records it as the next child of the block at `root`. */
  method NewPointerBlock(v: Volume, ghost t: Tree, root: nat, e: nat, q: nat) returns (child: int)
    requires t.Node? && t.block == root && Placed(v, t, e) && q == |t.kids| < e
    modifies v
    ensures v.Valid() && (child == -1 ==> v.IsFull()) && (child == -1 <==> old(v.totalFree) == 0)
    ensures child != -1 ==> v.totalFree == old(v.totalFree) - 1
    ensures child != -1 ==>
              && 0 < child < |v.disk| && child !in old(v.Used()) && v.Used() == old(v.Used()) + {child as nat}
              && Only(old(v.disk), v.disk, multiset{child as nat, root})
              && Decode(v.disk[root]) == Roots(t.kids) + [child as nat] + seq(e - |t.kids| - 1, _ => 0)
              && Placed(v, Node(child, []), e)
  {
    hide Decode, Bag, BagOf, AllTaken;
    PointersFit(v.disk, t, e);
    KidsInBag(t);
    var ptrs := Read(v, root);
    child := v.AllocBlock();
    if child != -1 {
      DecodeZeros(v.blockSize);
      Write(v, root, ptrs[q := child]);
      NothingThere(child);
    }
  }

  lemma SpanOne(e: nat)
    ensures Span(e, 1) == e
  {
  }

  lemma PackedKids(t: Tree, e: nat, d: nat)
    requires t.Node? && Packed(t, e, d)
    ensures d > 0 && |t.kids| <= e && KidsPacked(t.kids, e, d - 1) && Leaves(t) == LeavesOf(t.kids)
  {
  }

  lemma EmptyPacked(child: nat, e: nat, d: nat)
    requires d > 0
    ensures Packed(Node(child, []), e, d)
  {
  }

  /** What an append needs. */
  ghost predicate Ready(v: Volume, t: Tree, root: nat, e: nat, d: nat, i: nat, b: nat)
    reads v
  {
    && t.Node? && t.block == root && Placed(v, t, e) && d > 0 && Packed(t, e, d) && i == |Leaves(t)| < Span(e, d)
    && b in v.Used() && 0 < b < |v.disk| && b !in Bag(t)
  }

  /** The pointer blocks that a tree of depth `d` needs for leaf `i`, its root apart. */
  function NewNodes(e: nat, d: nat, i: nat): nat
    requires e > 0
    decreases d
  {
    if d <= 1 then 0 else
    SpanPositive(e, d - 1);
    if Rest(i, Span(e, d - 1)) == 0 then 1 + NewNodes(e, d - 1, 0) else NewNodes(e, d - 1, Rest(i, Span(e, d - 1)))
  }

  /** Free blocks are counted without sign. */
  lemma NotNegative(v: Volume)
    requires v.Valid()
    ensures v.totalFree >= 0
  {
    TotalCount(v.bitmaps, v.perGroup, v.groupFree, v.totalFree);
  }

  /** Hangs data block `b` into the pointer tree of depth `d` at `root`, as leaf number `i`;
      false when a pointer block is needed and the volume is full. */
  method Append(v: Volume, ghost t: Tree, root: nat, e: nat, d: nat, i: nat, b: nat)
    returns (ok: bool, count: nat, ghost t': Tree, ghost added: multiset<nat>)
    requires Ready(v, t, root, e, d, i, b)
    modifies v
    ensures v.Valid() && (!ok ==> v.IsFull()) && (ok <==> old(v.totalFree) >= NewNodes(e, d, i))
    ensures ok ==> count == NewNodes(e, d, i) && v.totalFree == old(v.totalFree) - count
    ensures ok ==> Appended(old(v.disk), v.disk, t, t', e, d, b, added) && |added| == count
    ensures ok ==> Allocated(old(v.Used()), v.Used(), added)
    decreases d, 1
  {
    hide Decode, Packed, Bag, Leaves, Distinct, AllTaken, Span, Slot, Rest, Appended, Stored;
    NotNegative(v);
    if d == 1 {
      SpanOne(e);
      t' := AppendLeaf(v, t, root, e, i, b);
      NoneAllocated(v.Used());
      return true, 0, t', multiset{};
    }
    PackedKids(t, e, d);
    NextSlot(t.kids, e, d - 1);
    if Rest(i, Span(e, d - 1)) == 0 {
      ok, count, t', added := AppendNew(v, t, root, e, d, Slot(i, Span(e, d - 1)), b);
    } else {
      ok, count, t', added := AppendLast(v, t, root, e, d, Slot(i, Span(e, d - 1)), Rest(i, Span(e, d - 1)), b);
    }
  }

  method AppendNew(v: Volume, ghost t: Tree, root: nat, e: nat, d: nat, q: nat, b: nat)
    returns (ok: bool, count: nat, ghost t': Tree, ghost added: multiset<nat>)
    requires Ready(v, t, root, e, d, |Leaves(t)|, b) && d > 1 && q == |t.kids| < e
    requires t.kids != [] ==> |Leaves(t.kids[|t.kids| - 1])| == Span(e, d - 1)
    modifies v
    ensures v.Valid() && (!ok ==> v.IsFull()) && (ok <==> old(v.totalFree) >= 1 + NewNodes(e, d - 1, 0))
    ensures ok ==> count == 1 + NewNodes(e, d - 1, 0) && v.totalFree == old(v.totalFree) - count
    ensures ok ==> Appended(old(v.disk), v.disk, t, t', e, d, b, added) && |added| == count
    ensures ok ==> Allocated(old(v.Used()), v.Used(), added)
    decreases d, 0
  {
    hide Decode, Packed, Bag, Leaves, Distinct, AllTaken, Span, Appended, Stored;
    t', added, count := t, multiset{}, 0;
    NotNegative(v);
    StoredRoot(v.disk, t, e);
    var child := NewPointerBlock(v, t, root, e, q);
    if child == -1 {
      return false, 0, t, added;
    }
    ghost var disk1, used1 := v.disk, v.Used();
    NothingThere(child);
    EmptyPacked(child, e, d - 1);
    SpanPositive(e, d - 1);
    ok, count, t', added := Append(v, Node(child, []), child, e, d - 1, 0, b);
    if ok {
      NewKid(old(v.disk), disk1, v.disk, t, e, d, child, t', b, added);
      OneMore(old(v.Used()), used1, v.Used(), child, added);
      t', added, count := WithKid(t, t'), added + multiset{child as nat}, count + 1;
    }
  }

  method AppendLast(v: Volume, ghost t: Tree, root: nat, e: nat, d: nat, q: nat, r: nat, b: nat)
    returns (ok: bool, count: nat, ghost t': Tree, ghost added: multiset<nat>)
    requires Ready(v, t, root, e, d, |Leaves(t)|, b) && d > 1 && t.kids != [] && q == |t.kids| - 1
    requires r == |Leaves(t.kids[q])| < Span(e, d - 1)
    modifies v
    ensures v.Valid() && (!ok ==> v.IsFull()) && (ok <==> old(v.totalFree) >= NewNodes(e, d - 1, r))
    ensures ok ==> count == NewNodes(e, d - 1, r) && v.totalFree == old(v.totalFree) - count
    ensures ok ==> Appended(old(v.disk), v.disk, t, t', e, d, b, added) && |added| == count
    ensures ok ==> Allocated(old(v.Used()), v.Used(), added)
    decreases d, 0
  {
    hide Decode, Bag, Leaves, Distinct, AllTaken, Span, Appended;
    PointersFit(v.disk, t, e);
    LastApart(t);
    var ptrs := Read(v, root);
    KidShape(t, e, d, q);
    assert Stored(v.disk, t.kids[q], e);
    ok, count, t', added := Append(v, t.kids[q], ptrs[q], e, d - 1, r, b);
    if ok {
      LastKid(old(v.disk), v.disk, t, e, d, t', b, added);
      t' := WithLast(t, t');
    }
  }

  lemma KidShape(t: Tree, e: nat, d: nat, q: nat)
    requires t.Node? && Packed(t, e, d) && d > 1 && q < |t.kids|
    ensures Packed(t.kids[q], e, d - 1) && t.kids[q].Node?
  {
  }

  lemma NoneAllocated(used: set<nat>)
    ensures Allocated(used, used, multiset{})
  {
  }

  lemma OneMore(used: set<nat>, used1: set<nat>, used2: set<nat>, child: nat, more: multiset<nat>)
    requires child !in used && used1 == used + {child} && Allocated(used1, used2, more)
    ensures Allocated(used, used2, more + multiset{child})
  {
    forall x ensures (more + multiset{child})[x] <= 1 { assert more[x] <= 1; }
  }
}
