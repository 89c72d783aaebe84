/** Aligned power-of-two ranges of frames.

    A block of order k is a range of 2^k frames that starts at a multiple of 2^k.
    Everything is defined by halving, so that the order-k block around a frame is
    the order-(k-1) block around half of it.
  */
module Dyadic {
  import opened Words

  /** The multiple of 2^k at or below `f`. */
  function AlignDown(f: nat, k: nat): nat
    decreases k
  {
    if k == 0 then f else 2 * AlignDown(f / 2, k - 1)
  }

  predicate Aligned(i: nat, k: nat) {
    AlignDown(i, k) == i
  }

  /** `i` with bit `k` flipped. */
  function Buddy(i: nat, k: nat): nat
    decreases k
  {
    if k == 0 then (if i % 2 == 0 then i + 1 else i - 1)
    else 2 * Buddy(i / 2, k - 1) + i % 2
  }

  predicate Within(f: nat, i: nat, k: nat) {
    i <= f < i + Pow2(k)
  }

  lemma {:induction false} AlignDownBounds(f: nat, k: nat)
    ensures AlignDown(f, k) <= f < AlignDown(f, k) + Pow2(k)
    ensures Aligned(AlignDown(f, k), k)
    decreases k
  {
    if k > 0 { AlignDownBounds(f / 2, k - 1); }
  }

  /** The only order-k block that contains `f` is the one at `AlignDown(f, k)`. */
  lemma {:induction false} BlockUnique(f: nat, i: nat, k: nat)
    requires Aligned(i, k) && Within(f, i, k)
    ensures AlignDown(f, k) == i
    decreases k
  {
    if k > 0 {
      BlockUnique(f / 2, i / 2, k - 1);
    }
  }

  /** A block lies within the larger blocks around any of its frames. */
  lemma {:induction false} Nested(f: nat, k: nat, j: nat)
    requires k <= j
    ensures AlignDown(f, j) <= AlignDown(f, k)
    ensures AlignDown(f, k) + Pow2(k) <= AlignDown(f, j) + Pow2(j)
    decreases j
  {
    if k == 0 {
      AlignDownBounds(f, j);
    } else {
      Nested(f / 2, k - 1, j - 1);
    }
  }

  /** The halves of a block are buddies of each other. */
  lemma {:induction false} Halves(i: nat, k: nat)
    requires Aligned(i, k + 1)
    ensures Aligned(i, k) && Aligned(i + Pow2(k), k)
    ensures Buddy(i, k) == i + Pow2(k) && Buddy(i + Pow2(k), k) == i
    decreases k
  {
    if k > 0 {
      Halves(i / 2, k - 1);
    }
  }

  /** Two buddies are the halves of the block of the next order. */
  lemma {:induction false} BuddyHalves(i: nat, k: nat)
    requires Aligned(i, k)
    ensures Aligned(AlignDown(i, k + 1), k + 1)
    ensures (i == AlignDown(i, k + 1) && Buddy(i, k) == i + Pow2(k)) ||
            (i == AlignDown(i, k + 1) + Pow2(k) && Buddy(i, k) == AlignDown(i, k + 1))
    decreases k
  {
    AlignDownBounds(i, k + 1);
    if k > 0 {
      BuddyHalves(i / 2, k - 1);
    }
  }

  lemma {:induction false} AlignedDown(i: nat, k: nat, j: nat)
    requires Aligned(i, j) && k <= j
    ensures Aligned(i, k)
    decreases k
  {
    if k > 0 { AlignedDown(i / 2, k - 1, j - 1); }
  }

  // ----- The machine's view: masks and exclusive or -----

  lemma DivTwice(i: nat, m: nat)
    requires m > 0
    ensures i % (2 * m) == 0 <==> i % 2 == 0 && (i / 2) % m == 0
  {
    if i % 2 == 0 {
      var h := i / 2;
      var q, r := h / m, h % m;
      assert h == q * m + r;
      assert i == q * (2 * m) + 2 * r;
      DivUnique(i, 2 * m, q, 2 * r);
    } else {
      var q := i / (2 * m);
      assert i == q * (2 * m) + i % (2 * m);
      assert q * (2 * m) == 2 * (q * m);
    }
  }

  /** The test `(i & ((1 << k) - 1)) == 0`, as a remainder, is alignment. */
  lemma {:induction false} AlignedIsMask(i: nat, k: nat)
    ensures Aligned(i, k) <==> i % Pow2(k) == 0
    decreases k
  {
    if k > 0 {
      AlignedIsMask(i / 2, k - 1);
      DivTwice(i, Pow2(k - 1));
    }
  }

  lemma {:induction false} XorZero(n: nat, i: nat)
    requires i < Pow2(n)
    ensures Bits(BXor, n, i, 0) == i
    decreases n
  {
    if n > 0 { XorZero(n - 1, i / 2); }
  }

  /** Exclusive or with `1 << k` gives the buddy. */
  lemma {:induction false} BuddyIsXor(n: nat, i: nat, k: nat)
    requires i < Pow2(n) && k < n
    ensures Bits(BXor, n, i, Pow2(k)) == Buddy(i, k)
    decreases n
  {
    if k == 0 {
      XorZero(n - 1, i / 2);
    } else {
      BuddyIsXor(n - 1, i / 2, k - 1);
    }
  }
}
