/** The physical frame allocator: free lists threaded through the free frames, a bitmap,
    and allocation and freeing by splitting and merging buddies.

    Frames are numbered from 0.  `next`, `prev` and `order` are the words at the start of
    each frame; while the frame is allocated they belong to its owner.  `free` and `live`
    are the blocks that the lists and the clients hold.
  */
module Physmem {
  import opened Sequences
  import opened Words
  import opened Dyadic
  import opened BuddyBlocks
  import opened FreeLists

  /** The upper half of a live block is within range and is not the head of a block. */
  lemma UpperHalf(s: State, i: nat, n: nat, m: nat)
    requires BuddyBlocks.Valid(s, n, m) && i in s.live && s.live[i] > 0
    ensures i + Pow2(s.live[i] - 1) < n && i + Pow2(s.live[i] - 1) !in s.free && s.live[i] <= m
  {
    SplitValid(s, i, n, m);
    assert i in All(s);
    Pow2Less(s.live[i] - 1, s.live[i]);
  }

  lemma LiveApart(b: Blocks, i: nat, j: nat, f: nat)
    requires Apart(b) && i in b && j in b && i != j && Within(f, j, b[j])
    ensures !Within(f, i, b[i])
  {
  }

  /** Frames that become live were free. */
  lemma WasFree(s: State, t: State, n: nat, m: nat, i: nat, k: nat)
    requires BuddyBlocks.Valid(s, n, m) && BuddyBlocks.Valid(t, n, m)
    requires i !in s.live && t.live == s.live[i := k]
    ensures WhollyFree(s.free, i, k)
  {
    hide Pow2, NoBuddyPair, Placed, Apart, Within;
    forall f: nat | Within(f, i, k) ensures Covers(s.free, f) {
      FrameInRange(All(t), i, n, m, f);
      assert Covers(All(s), f);
      var j: nat :| j in All(s) && Within(f, j, All(s)[j]);
      if j !in s.free { LiveApart(All(t), i, j, f); }
    }
  }

  lemma FrameInRange(b: Blocks, i: nat, n: nat, m: nat, f: nat)
    requires Placed(b, n, m) && i in b && Within(f, i, b[i])
    ensures f < n
  {
  }

  // ----- The initial decomposition -----

  /** No larger block could have been placed at `i`. */
  ghost predicate Largest(i: nat, k: nat, n: nat, m: nat) {
    k == m || !Aligned(i, k + 1) || i + Pow2(k + 1) > n
  }

  ghost predicate AllLargest(free: Blocks, n: nat, m: nat) {
    forall i :: i in free ==> Largest(i, free[i], n, m)
  }

  /** Frames up to `pos` are divided into blocks, each the largest that fits where it is. */
  ghost predicate Divided(free: Blocks, pos: nat, n: nat, m: nat) {
    && Placed(free, n, m) && Apart(free) && Tiles(free, pos) && AllLargest(free, n, m)
    && (forall i :: i in free ==> i + Pow2(free[i]) <= pos)
  }

  lemma DividedStart(n: nat, m: nat)
    ensures Divided(map[], 0, n, m)
  {
  }

  lemma DividedStep(free: Blocks, pos: nat, n: nat, m: nat, k: nat)
    requires Divided(free, pos, n, m)
    requires k <= m && Aligned(pos, k) && pos + Pow2(k) <= n && Largest(pos, k, n, m)
    ensures pos !in free && Divided(free[pos := k], pos + Pow2(k), n, m)
  {
    hide Aligned, Pow2, Largest;
    var free' := free[pos := k];
    forall f: nat | f < pos + Pow2(k) ensures Covers(free', f) {
      if f < pos {
        assert Covers(free, f);
        var j: nat :| j in free && Within(f, j, free[j]);
        assert j in free' && Within(f, j, free'[j]);
      } else {
        assert pos in free' && Within(f, pos, free'[pos]);
      }
    }
  }

  lemma LargestNoPair(free: Blocks, n: nat, m: nat, i: nat)
    requires Placed(free, n, m) && AllLargest(free, n, m) && i in free && free[i] < m
    ensures !(Buddy(i, free[i]) in free && free[Buddy(i, free[i])] == free[i])
  {
    hide Pow2, AlignDown, Buddy;
    var k := free[i];
    BuddyHalves(i, k);
    Pow2Double(k);
  }

  lemma DividedValid(free: Blocks, n: nat, m: nat)
    requires Divided(free, n, n, m)
    ensures BuddyBlocks.Valid(State(free, map[]), n, m)
  {
    hide Placed, Apart, Tiles, AllLargest, Buddy;
    assert All(State(free, map[])) == free;
    forall i | i in free && free[i] < m ensures !(Buddy(i, free[i]) in free && free[Buddy(i, free[i])] == free[i]) {
      LargestNoPair(free, n, m, i);
    }
  }

  class Allocator {
    const frames: nat
    const maxOrder: nat
    const heads: array<int>
    const next: array<int>
    const prev: array<int>
    const order: array<int>
    const bits: array<bool>
    ghost var free: Blocks
    ghost var live: Blocks
    ghost var lists: seq<seq<nat>>

    ghost predicate Shape() {
      && frames < Pow2(32) && maxOrder < 32
      && heads.Length == maxOrder + 1
      && next.Length == prev.Length == order.Length == bits.Length == frames
      && heads != next && heads != prev && heads != order
      && next != prev && next != order && prev != order
    }

    ghost function Repr(): set<object> {
      {this, heads, next, prev, order, bits}
    }

    ghost function Snapshot(): Snap
      reads heads, next, prev, order, bits
    {
      Snap(heads[..], next[..], prev[..], order[..], bits[..])
    }

    ghost predicate Listed()
      reads Repr()
    {
      Shape() && Inv(Snapshot(), free, lists, frames, maxOrder)
    }

    ghost predicate Valid()
      reads Repr()
    {
      Listed() && BuddyBlocks.Valid(State(free, live), frames, maxOrder)
    }

    // ----- Free lists -----

    method Link(x: nat, k: nat)
      requires Shape() && x < frames && k <= maxOrder && (heads[k] == NIL || 0 <= heads[k] < frames)
      modifies heads, next, prev, order, bits
      ensures Snapshot() == Push(old(Snapshot()), x, k)
    {
      prev[x] := NIL;
      next[x] := heads[k];
      if heads[k] != NIL {
        prev[heads[k]] := x;
      }
      heads[k] := x;
      bits[x] := true;
      order[x] := k;
    }

    method Unlink(x: nat)
      requires Shape() && x < frames && 0 <= order[x] <= maxOrder
      requires (prev[x] == NIL || 0 <= prev[x] < frames) && (next[x] == NIL || 0 <= next[x] < frames)
      modifies heads, next, prev, bits
      ensures Snapshot() == Remove(old(Snapshot()), x)
    {
      if prev[x] != NIL {
        next[prev[x]] := next[x];
      } else {
        heads[order[x]] := next[x];
      }
      if next[x] != NIL {
        prev[next[x]] := prev[x];
      }
      bits[x] := false;
      prev[x] := NIL;
      next[x] := NIL;
    }

    method FreeListPush(x: nat, k: nat)
      requires Listed() && x < frames && x !in free && k <= maxOrder
      modifies this`free, this`lists, heads, next, prev, order, bits
      ensures Listed() && free == old(free)[x := k]
    {
      PushInv(Snapshot(), free, lists, frames, maxOrder, x, k);
      Link(x, k);
      lists := lists[k := [x] + lists[k]];
      free := free[x := k];
    }

    method FreeListRemove(x: nat)
      requires Listed() && x in free
      modifies this`free, this`lists, heads, next, prev, bits
      ensures Listed() && free == old(free) - {x}
    {
      RemoveInv(Snapshot(), free, lists, frames, maxOrder, x);
      Unlink(x);
      lists := lists[free[x] := Cut(lists[free[x]], IndexOf(lists[free[x]], x))];
      free := free - {x};
    }

    method FreeListPop(k: nat) returns (x: int)
      requires Listed() && k <= maxOrder
      modifies this`free, this`lists, heads, next, prev, bits
      ensures Listed() && x == old(heads[k])
      ensures x == NIL ==> free == old(free) && forall i :: i in free ==> free[i] != k
      ensures x != NIL ==> x >= 0 && (var i: nat := x; i in old(free) && old(free)[i] == k && free == old(free) - {i})
    {
      HeadIsFree(Snapshot(), free, lists, frames, maxOrder, k);
      if heads[k] == NIL {
        return NIL;
      }
      x := heads[k];
      RemoveInv(Snapshot(), free, lists, frames, maxOrder, x);
      ghost var s := Snapshot();
      heads[k] := next[x];
      if next[x] != NIL {
        prev[next[x]] := NIL;
      }
      next[x] := NIL;
      prev[x] := NIL;
      bits[x] := false;
      assert Snapshot() == Remove(s, x);
      lists := lists[k := Cut(lists[k], IndexOf(lists[k], x))];
      free := free - {x};
    }

    // ----- Blocks -----

    /** The smallest order from `k` up that has a free block, or NIL. */
    method FindOrder(k: nat) returns (c: int)
      requires Listed() && k <= maxOrder
      ensures c == NIL ==> forall i :: i in free ==> free[i] < k
      ensures c != NIL ==> k <= c <= maxOrder && heads[c] != NIL && forall i :: i in free && k <= free[i] ==>
              c <= free[i]
    {
      c := k;
      HeadIsFree(Snapshot(), free, lists, frames, maxOrder, c);
      while heads[c] == NIL
        invariant k <= c <= maxOrder
        invariant forall i :: i in free && k <= free[i] ==> c <= free[i]
        invariant heads[c] == NIL ==> forall i :: i in free ==> free[i] != c
        decreases maxOrder - c
      {
        if c >= maxOrder {
          return NIL;
        }
        c := c + 1;
        HeadIsFree(Snapshot(), free, lists, frames, maxOrder, c);
      }
    }

    method SplitOnce(x: nat, k: nat)
      requires Valid() && x in live && live[x] == k + 1
      modifies Repr()
      ensures Valid() && live == old(live)[x := k]
    {
      hide BuddyBlocks.Valid, Inv, Pow2;
      SplitValid(State(free, live), x, frames, maxOrder);
      UpperHalf(State(free, live), x, frames, maxOrder);
      FreeListPush(x + Pow2(k), k);
      live := live[x := k];
    }

    /** Puts the upper halves of the block at `x` back until it has order `k`. */
    method SplitDown(x: nat, from: nat, k: nat)
      requires Valid() && x in live && live[x] == from && k <= from
      modifies Repr()
      ensures Valid() && live == old(live)[x := k]
    {
      hide BuddyBlocks.Valid, Inv, Pow2;
      var c := from;
      while c > k
        invariant Valid() && k <= c && live == old(live)[x := c]
      {
        c := c - 1;
        SplitOnce(x, c);
      }
    }

    method AllocOrder(k: nat) returns (x: int)
      requires Valid() && k <= maxOrder
      modifies Repr()
      ensures Valid()
      ensures x == NIL <==> forall i: nat :: Aligned(i, k) ==> !WhollyFree(old(free), i, k)
      ensures x == NIL ==> free == old(free) && live == old(live)
      ensures x != NIL ==>
                && x >= 0 && WhollyFree(old(free), x, k)
                && x !in old(live) && live == old(live)[x as nat := k]
    {
      hide BuddyBlocks.Valid, Inv, Pow2, WhollyFree, Aligned, Canonical, Shape;
      FreeCanonical(State(free, live), frames, maxOrder);
      AllocationFails(free, frames, maxOrder, k);
      var c := FindOrder(k);
      if c == NIL {
        return NIL;
      }
      x := FreeListPop(c);
      TakeValid(State(old(free), live), x, frames, maxOrder);
      live := live[x as nat := c as nat];
      SplitDown(x, c, k);
      WasFree(State(old(free), old(live)), State(free, live), frames, maxOrder, x, k);
    }

    /** The buddy of a live block if it is free and of the same order, or NIL. */
    method FreeBuddy(i: nat, k: nat) returns (b: int)
      requires Valid() && i in live && live[i] == k && k < maxOrder
      ensures b == NIL <==> !CanMerge(State(free, live), i, maxOrder)
      ensures b != NIL ==> b == Buddy(i, k)
    {
      assert i in All(State(free, live));
      BuddyIsXor(32, i, k);
      b := Bits(BXor, 32, i, Pow2(k));
      if b >= frames {
        return NIL;
      }
      if !bits[b] {
        return NIL;
      }
      if order[b] != k {
        return NIL;
      }
    }

    /** Merges the live block at `i` with its buddy at `b`. */
    method MergeOnce(i: nat, k: nat, b: nat) returns (j: nat)
      requires Valid() && i in live && live[i] == k && CanMerge(State(free, live), i, maxOrder) && b == Buddy(i, k)
      modifies Repr()
      ensures Valid() && j in live && live[j] == k + 1 && live - {j} == old(live) - {i}
    {
      hide BuddyBlocks.Valid, Inv, Pow2, Buddy;
      MergeValid(State(free, live), i, frames, maxOrder);
      FreeListRemove(b);
      j := if b < i then b else i;
      live := (live - {i})[j := k + 1];
    }

    method FreeOrder(x: nat, k: nat)
      requires Valid() && x in live && live[x] == k
      modifies Repr()
      ensures Valid() && live == old(live) - {x}
    {
      hide BuddyBlocks.Valid, Inv, Buddy;
      var i, c := x, k;
      while c < maxOrder
        invariant Valid() && i in live && live[i] == c && live - {i} == old(live) - {x}
        decreases maxOrder - c
      {
        var b := FreeBuddy(i, c);
        if b == NIL {
          break;
        }
        i := MergeOnce(i, c, b);
        c := c + 1;
      }
      GiveValid(State(free, live), i, frames, maxOrder);
      FreeListPush(i, c);
      live := live - {i};
    }

    // ----- Start-up -----

    /** The largest order of a block that fits at `pos` and is aligned there. */
    method LargestOrder(pos: nat) returns (k: nat)
      requires pos < frames
      ensures k <= maxOrder && Aligned(pos, k) && pos + Pow2(k) <= frames && Largest(pos, k, frames, maxOrder)
    {
      k := maxOrder;
      while k > 0 && Pow2(k) > frames - pos
        invariant k <= maxOrder && (k == maxOrder || pos + Pow2(k + 1) > frames)
      {
        k := k - 1;
      }
      AlignedIsMask(pos, k);
      while k > 0 && pos % Pow2(k) != 0
        invariant k <= maxOrder && pos + Pow2(k) <= frames && Largest(pos, k, frames, maxOrder)
        invariant Aligned(pos, k) <==> pos % Pow2(k) == 0
      {
        k := k - 1;
        AlignedIsMask(pos, k);
      }
    }

    method Populate()
      requires Listed() && free == map[] && live == map[]
      modifies Repr()
      ensures Valid() && live == map[] && Divided(free, frames, frames, maxOrder)
    {
      hide Inv, Pow2, Aligned, Largest, BuddyBlocks.Valid, Divided;
      var pos := 0;
      DividedStart(frames, maxOrder);
      while pos < frames
        invariant pos <= frames && Listed() && Divided(free, pos, frames, maxOrder) && live == map[]
      {
        var k := LargestOrder(pos);
        DividedStep(free, pos, frames, maxOrder, k);
        FreeListPush(pos, k);
        pos := pos + Pow2(k);
      }
      DividedValid(free, frames, maxOrder);
    }

    constructor (n: nat, m: nat)
      requires n < Pow2(32) && m < 32
      ensures Valid() && frames == n && maxOrder == m && live == map[] && Divided(free, n, n, m)
      ensures fresh(Repr())
    {
      hide Inv, Pow2, BuddyBlocks.Valid, Divided;
      frames, maxOrder := n, m;
      heads := new int[m + 1](_ => NIL);
      next, prev, order := new int[n], new int[n], new int[n];
      bits := new bool[n](_ => false);
      free, live, lists := map[], map[], seq(m + 1, _ => []);
      new;
      assert Snapshot().heads == seq(m + 1, _ => NIL) && Snapshot().bits == seq(n, _ => false);
      EmptyLists(Snapshot(), n, m);
      Populate();
    }

    /** The owner of a block may overwrite the words in which the allocator keeps its links. */
    method OwnerWrites(i: nat, a: int, b: int, c: int)
      requires Valid() && i < frames && !Covers(free, i)
      modifies next, prev, order
      ensures Valid()
    {
      assert i in free ==> Within(i, i, free[i]);
      ScribbleInv(Snapshot(), free, lists, frames, maxOrder, i, a, b, c);
      ghost var s := Snapshot();
      next[i], prev[i], order[i] := a, b, c;
      assert Snapshot() == s.(next := s.next[i := a], prev := s.prev[i := b], order := s.order[i := c]);
    }
  }

  /** Whenever nothing is allocated, the free blocks are those of start-up. */
  lemma BackToStart(a: Allocator, start: Blocks)
    requires a.Valid() && a.live == map[] && Divided(start, a.frames, a.frames, a.maxOrder)
    ensures a.free == start
  {
    hide BuddyBlocks.Valid, Inv, Divided;
    DividedValid(start, a.frames, a.maxOrder);
    ResetUnique(a.free, start, a.frames, a.maxOrder);
  }
}
