/** The buddy system as sets of blocks.

    `free` and `live` map the first frame of a block to its order.  Allocation takes a
    free block and splits it; freeing merges with the buddy as long as it can.  The
    free blocks turn out to be determined by which frames are free, and that fixes
    both when an allocation can fail and where the allocator returns to.
  */
module BuddyBlocks {
  import opened Words
  import opened Dyadic

  type Blocks = map<nat, nat>

  datatype State = State(free: Blocks, live: Blocks)

  ghost predicate Placed(b: Blocks, n: nat, m: nat) {
    forall i :: i in b ==> b[i] <= m && Aligned(i, b[i]) && i + Pow2(b[i]) <= n
  }

  ghost predicate Apart(b: Blocks) {
    forall i, j :: i in b && j in b && i < j ==> i + Pow2(b[i]) <= j
  }

  ghost predicate Covers(b: Blocks, f: nat) {
    exists i :: i in b && Within(f, i, b[i])
  }

  ghost predicate Tiles(b: Blocks, n: nat) {
    forall f: nat :: f < n ==> Covers(b, f)
  }

  /** No two free blocks could be merged. */
  ghost predicate NoBuddyPair(free: Blocks, m: nat) {
    forall i :: i in free && free[i] < m ==> !(Buddy(i, free[i]) in free && free[Buddy(i, free[i])] == free[i])
  }

  ghost function All(s: State): Blocks {
    s.free + s.live
  }

  /** Free and allocated blocks are aligned, disjoint and cover frames 0..n exactly. */
  ghost predicate Valid(s: State, n: nat, m: nat) {
    && s.free.Keys !! s.live.Keys
    && Placed(All(s), n, m) && Apart(All(s)) && Tiles(All(s), n)
    && NoBuddyPair(s.free, m)
  }

  // ----- The four steps that allocation and freeing are made of -----

  ghost function Take(s: State, i: nat): State
    requires i in s.free
  {
    State(s.free - {i}, s.live[i := s.free[i]])
  }

  ghost function Split(s: State, i: nat): State
    requires i in s.live && s.live[i] > 0
  {
    var k := s.live[i] - 1;
    State(s.free[i + Pow2(k) := k], s.live[i := k])
  }

  ghost predicate CanMerge(s: State, i: nat, m: nat)
    requires i in s.live
  {
    var b := Buddy(i, s.live[i]);
    s.live[i] < m && b in s.free && s.free[b] == s.live[i]
  }

  ghost function Merge(s: State, i: nat): State
    requires i in s.live
  {
    var k := s.live[i];
    var b := Buddy(i, k);
    State(s.free - {b}, (s.live - {i})[if b < i then b else i := k + 1])
  }

  ghost function Give(s: State, i: nat): State
    requires i in s.live
  {
    State(s.free[i := s.live[i]], s.live - {i})
  }

  lemma TakeValid(s: State, i: nat, n: nat, m: nat)
    requires Valid(s, n, m) && i in s.free
    ensures Valid(Take(s, i), n, m) && i !in s.live
  {
    hide AlignDown, Pow2, Buddy, Placed, Apart, Tiles;
    assert All(Take(s, i)) == All(s);
  }

  lemma Pow2Double(k: nat)
    ensures Pow2(k + 1) == 2 * Pow2(k)
  {
  }

  lemma SplitBlocks(b: Blocks, i: nat, k: nat, n: nat, m: nat)
    requires Placed(b, n, m) && Apart(b) && Tiles(b, n) && i in b && b[i] == k + 1
    ensures var b' := b[i := k][i + Pow2(k) := k];
            i + Pow2(k) !in b && Placed(b', n, m) && Apart(b') && Tiles(b', n)
  {
    hide AlignDown, Pow2, Buddy;
    Halves(i, k);
    Pow2Double(k);
    var b' := b[i := k][i + Pow2(k) := k];
    forall f: nat | f < n ensures Covers(b', f) {
      assert Covers(b, f);
      var j: nat :| j in b && Within(f, j, b[j]);
      var j' := if j != i then j else if f < i + Pow2(k) then i else i + Pow2(k);
      assert j' in b' && Within(f, j', b'[j']);
    }
  }

  lemma SplitValid(s: State, i: nat, n: nat, m: nat)
    requires Valid(s, n, m) && i in s.live && s.live[i] > 0
    ensures Valid(Split(s, i), n, m)
    ensures i + Pow2(s.live[i] - 1) !in All(s)
  {
    hide AlignDown, Pow2, Buddy, Apart, Tiles;
    var k := s.live[i] - 1;
    SplitBlocks(All(s), i, k, n, m);
    assert All(Split(s, i)) == All(s)[i := k][i + Pow2(k) := k];
    Halves(i, k);
    var free' := s.free[i + Pow2(k) := k];
    forall x | x in free' && free'[x] < m
      ensures !(Buddy(x, free'[x]) in free' && free'[Buddy(x, free'[x])] == free'[x])
    {
      BuddyTwice(x, free'[x]);
    }
  }

  lemma {:induction false} BuddyTwice(i: nat, k: nat)
    ensures Buddy(Buddy(i, k), k) == i && Buddy(i, k) != i
    decreases k
  {
    if k > 0 { BuddyTwice(i / 2, k - 1); }
  }

  lemma MergeBlocks(b: Blocks, lo: nat, k: nat, n: nat, m: nat)
    requires Placed(b, n, m) && Apart(b) && Tiles(b, n) && k < m
    requires Aligned(lo, k + 1) && lo in b && b[lo] == k && lo + Pow2(k) in b && b[lo + Pow2(k)] == k
    ensures var b' := (b - {lo + Pow2(k)})[lo := k + 1];
            Placed(b', n, m) && Apart(b') && Tiles(b', n)
  {
    hide AlignDown, Pow2;
    Pow2Double(k);
    var hi := lo + Pow2(k);
    var b' := (b - {hi})[lo := k + 1];
    assert hi + Pow2(k) == lo + Pow2(k + 1);
    forall f: nat | f < n ensures Covers(b', f) {
      assert Covers(b, f);
      var j: nat :| j in b && Within(f, j, b[j]);
      var j' := if j == hi then lo else j;
      assert j' in b' && Within(f, j', b'[j']);
    }
  }

  lemma MergeValid(s: State, i: nat, n: nat, m: nat)
    requires Valid(s, n, m) && i in s.live && CanMerge(s, i, m)
    ensures Valid(Merge(s, i), n, m) && Buddy(i, s.live[i]) !in s.live
  {
    hide AlignDown, Pow2, Buddy, Apart, Tiles;
    var k := s.live[i];
    assert i in All(s);
    BuddyHalves(i, k);
    var b := Buddy(i, k);
    assert b in All(s) && All(s)[b] == k && All(s)[i] == k;
    var lo := if b < i then b else i;
    MergeBlocks(All(s), lo, k, n, m);
    assert All(Merge(s, i)) == (All(s) - {lo + Pow2(k)})[lo := k + 1];
  }

  lemma GiveValid(s: State, i: nat, n: nat, m: nat)
    requires Valid(s, n, m) && i in s.live && !CanMerge(s, i, m)
    ensures Valid(Give(s, i), n, m) && i < n && i !in s.free && s.live[i] <= m
  {
    hide AlignDown, Pow2, Buddy, Apart, Tiles;
    assert i in All(s);
    assert All(Give(s, i)) == All(s);
    var free' := s.free[i := s.live[i]];
    forall x | x in free' && free'[x] < m
      ensures !(Buddy(x, free'[x]) in free' && free'[Buddy(x, free'[x])] == free'[x])
    {
      BuddyTwice(x, free'[x]);
    }
  }

  // ----- The free blocks are determined by the free frames -----

  ghost predicate Canonical(free: Blocks, n: nat, m: nat) {
    Placed(free, n, m) && Apart(free) && NoBuddyPair(free, m)
  }

  lemma FreeCanonical(s: State, n: nat, m: nat)
    requires Valid(s, n, m)
    ensures Canonical(s.free, n, m)
  {
    assert forall i :: i in s.free ==> i in All(s) && All(s)[i] == s.free[i];
  }

  /** All frames of the order-k block at `i` are free. */
  ghost predicate WhollyFree(free: Blocks, i: nat, k: nat) {
    forall f: nat :: Within(f, i, k) ==> Covers(free, f)
  }

  lemma {:induction false} Pow2Less(j: nat, k: nat)
    requires j < k
    ensures Pow2(j) < Pow2(k)
  {
    if j < k - 1 { Pow2Less(j, k - 1); }
  }

  /** A free block that contains a frame of an aligned block, and is of at least its order,
      contains all of it. */
  lemma Swallows(free: Blocks, n: nat, m: nat, j: nat, f: nat, i: nat, k: nat)
    requires Canonical(free, n, m) && j in free && Within(f, j, free[j]) && Within(f, i, k) && Aligned(i, k) &&
             k <= free[j]
    ensures j <= i && i + Pow2(k) <= j + Pow2(free[j])
  {
    BlockUnique(f, j, free[j]);
    BlockUnique(f, i, k);
    Nested(f, k, free[j]);
  }

  /** Every aligned run of free frames lies inside one free block. */
  lemma {:induction false} InsideFree(free: Blocks, n: nat, m: nat, i: nat, k: nat) returns (j: nat)
    requires Canonical(free, n, m) && Aligned(i, k) && k <= m && WhollyFree(free, i, k)
    ensures j in free && k <= free[j] && j <= i && i + Pow2(k) <= j + Pow2(free[j])
    decreases k
  {
    if k == 0 {
      assert Within(i, i, 0);
      assert Covers(free, i);
      j :| j in free && Within(i, j, free[j]);
    } else {
      var h := i + Pow2(k - 1);
      Halves(i, k - 1);
      HalfFree(free, i, k);
      j := InsideFree(free, n, m, i, k - 1);
      if free[j] >= k {
        Swallows(free, n, m, j, i, i, k);
      } else {
        SameBlock(free, n, m, j, i, k - 1);
        j := InsideFree(free, n, m, h, k - 1);
        if free[j] >= k {
          Swallows(free, n, m, j, h, i, k);
        } else {
          SameBlock(free, n, m, j, h, k - 1);
        }
      }
    }
  }

  lemma HalfFree(free: Blocks, i: nat, k: nat)
    requires k > 0 && WhollyFree(free, i, k)
    ensures WhollyFree(free, i, k - 1) && WhollyFree(free, i + Pow2(k - 1), k - 1)
  {
    forall f: nat | Within(f, i, k - 1) || Within(f, i + Pow2(k - 1), k - 1) ensures Covers(free, f) {
      assert Within(f, i, k);
    }
  }

  lemma SameBlock(free: Blocks, n: nat, m: nat, j: nat, i: nat, k: nat)
    requires Canonical(free, n, m) && j in free && free[j] == k && Aligned(i, k)
    requires j <= i && i + Pow2(k) <= j + Pow2(k)
    ensures i == j
  {
  }

  /** An allocation of order k finds no block exactly when no aligned run of 2^k frames is
      wholly free. */
  lemma AllocationFails(free: Blocks, n: nat, m: nat, k: nat)
    requires Canonical(free, n, m) && k <= m
    ensures (forall j :: j in free ==> free[j] < k) <==> (forall i: nat :: Aligned(i, k) ==> !WhollyFree(free, i, k))
  {
    if forall j :: j in free ==> free[j] < k {
      forall i: nat | Aligned(i, k) ensures !WhollyFree(free, i, k) {
        if WhollyFree(free, i, k) {
          var j := InsideFree(free, n, m, i, k);
        }
      }
    } else {
      var j: nat :| j in free && free[j] >= k;
      AlignedDown(j, k, free[j]);
      forall f: nat | Within(f, j, k) ensures Covers(free, f) {
        if k < free[j] { Pow2Less(k, free[j]); }
        assert Within(f, j, free[j]);
      }
      assert WhollyFree(free, j, k);
    }
  }

  /** Two canonical sets of free blocks with the same free frames are the same set. */
  lemma FreeUnique(a: Blocks, b: Blocks, n: nat, m: nat)
    requires Canonical(a, n, m) && Canonical(b, n, m)
    requires forall f: nat :: Covers(a, f) <==> Covers(b, f)
    ensures a == b
  {
    forall i | i in a ensures i in b && b[i] == a[i] { SameIn(a, b, n, m, i); }
    forall i | i in b ensures i in a && a[i] == b[i] { SameIn(b, a, n, m, i); }
  }

  lemma SameIn(a: Blocks, b: Blocks, n: nat, m: nat, i: nat)
    requires Canonical(a, n, m) && Canonical(b, n, m) && i in a
    requires forall f: nat :: Covers(a, f) <==> Covers(b, f)
    ensures i in b && b[i] == a[i]
  {
    BlockIsFree(a, i);
    assert WhollyFree(b, i, a[i]);
    var j := InsideFree(b, n, m, i, a[i]);
    BlockIsFree(b, j);
    assert WhollyFree(a, j, b[j]);
    var i' := InsideFree(a, n, m, j, b[j]);
    assert i' <= i && i + Pow2(a[i]) <= i' + Pow2(a[i']);
    assert i' == i;
  }

  lemma BlockIsFree(a: Blocks, i: nat)
    requires i in a
    ensures WhollyFree(a, i, a[i])
  {
  }

  /** When everything has been freed, the free blocks are the same whatever the history. */
  lemma ResetUnique(a: Blocks, b: Blocks, n: nat, m: nat)
    requires Valid(State(a, map[]), n, m) && Valid(State(b, map[]), n, m)
    ensures a == b
  {
    FreeCanonical(State(a, map[]), n, m);
    FreeCanonical(State(b, map[]), n, m);
    CoverAll(a, n, m);
    CoverAll(b, n, m);
    FreeUnique(a, b, n, m);
  }

  lemma CoverAll(a: Blocks, n: nat, m: nat)
    requires Valid(State(a, map[]), n, m)
    ensures forall f: nat :: Covers(a, f) <==> f < n
  {
    assert All(State(a, map[])) == a;
  }
}
