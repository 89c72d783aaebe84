/** Bitmaps of bytes: single bits, and how many are clear. */
module Ext2Bits {
  import opened Words

  // ----- Bits of a byte -----

  lemma {:induction false} PowerBit(j: nat, k: nat)
    ensures BitAt(Pow2(j), k) <==> j == k
    decreases k
  {
    if k > 0 {
      if j > 0 {
        PowerBit(j - 1, k - 1);
      } else {
        ZeroBit(k - 1);
      }
    }
  }

  lemma {:induction false} ZeroBit(k: nat)
    ensures !BitAt(0, k)
    decreases k
  {
    if k > 0 { ZeroBit(k - 1); }
  }

  lemma {:induction false} OnesBit(n: nat, k: nat)
    requires k < n
    ensures BitAt(Pow2(n) - 1, k)
    decreases k
  {
    assert Pow2(n) - 1 == 2 * (Pow2(n - 1) - 1) + 1;
    if k > 0 { OnesBit(n - 1, k - 1); }
  }

  // ----- Bitmaps -----

  predicate IsBitmap(m: seq<nat>, n: nat) {
    |m| == (n + 7) / 8 && forall j :: 0 <= j < |m| ==> m[j] < 256
  }

  predicate InUse(m: seq<nat>, n: nat, i: nat)
    requires IsBitmap(m, n) && i < n
  {
    BitAt(m[i / 8], i % 8)
  }

  function Mark(m: seq<nat>, n: nat, i: nat): seq<nat>
    requires IsBitmap(m, n) && i < n
  {
    m[i / 8 := Bits(BOr, 8, m[i / 8], Pow2(i % 8))]
  }

  function Clear(m: seq<nat>, n: nat, i: nat): seq<nat>
    requires IsBitmap(m, n) && i < n
  {
    m[i / 8 := Bits(BAnd, 8, m[i / 8], Bits(BXor, 8, 255, Pow2(i % 8)))]
  }

  lemma MarkBit(m: seq<nat>, n: nat, i: nat, j: nat)
    requires IsBitmap(m, n) && i < n && j < n
    ensures IsBitmap(Mark(m, n, i), n) && InUse(Mark(m, n, i), n, j) == (InUse(m, n, j) || i == j)
  {
    assert Pow2(8) == 256;
    BitsAt(BOr, 8, m[i / 8], Pow2(i % 8), j % 8);
    PowerBit(i % 8, j % 8);
  }

  lemma ClearOneBit(m: seq<nat>, n: nat, i: nat, j: nat)
    requires IsBitmap(m, n) && i < n && j < n
    ensures IsBitmap(Clear(m, n, i), n) && InUse(Clear(m, n, i), n, j) == (InUse(m, n, j) && i != j)
  {
    assert Pow2(8) == 256;
    BitsAt(BAnd, 8, m[i / 8], Bits(BXor, 8, 255, Pow2(i % 8)), j % 8);
    BitsAt(BXor, 8, 255, Pow2(i % 8), j % 8);
    PowerBit(i % 8, j % 8);
    OnesBit(8, j % 8);
  }

  /** How many of the first `k` entries are free. */
  function FreeEntries(m: seq<nat>, n: nat, k: nat): (c: nat)
    requires IsBitmap(m, n) && k <= n
    ensures c <= k
  {
    if k == 0 then 0 else FreeEntries(m, n, k - 1) + if InUse(m, n, k - 1) then 0 else 1
  }

  lemma {:induction false} FreeSome(m: seq<nat>, n: nat, k: nat)
    requires IsBitmap(m, n) && k <= n
    ensures FreeEntries(m, n, k) > 0 <==> exists i: nat :: i < k && !InUse(m, n, i)
  {
    if k > 0 { FreeSome(m, n, k - 1); }
  }

  lemma {:induction false} MarkCount(m: seq<nat>, n: nat, i: nat, k: nat)
    requires IsBitmap(m, n) && i < n && !InUse(m, n, i) && k <= n
    ensures IsBitmap(Mark(m, n, i), n)
    ensures FreeEntries(Mark(m, n, i), n, k) == FreeEntries(m, n, k) - if i < k then 1 else 0
  {
    hide Mark, InUse;
    MarkBit(m, n, i, i);
    if k > 0 {
      MarkCount(m, n, i, k - 1);
      MarkBit(m, n, i, k - 1);
    }
  }

  lemma {:induction false} ClearCount(m: seq<nat>, n: nat, i: nat, k: nat)
    requires IsBitmap(m, n) && i < n && InUse(m, n, i) && k <= n
    ensures IsBitmap(Clear(m, n, i), n)
    ensures FreeEntries(Clear(m, n, i), n, k) == FreeEntries(m, n, k) + if i < k then 1 else 0
  {
    hide Clear, InUse;
    ClearOneBit(m, n, i, i);
    if k > 0 {
      ClearCount(m, n, i, k - 1);
      ClearOneBit(m, n, i, k - 1);
    }
  }

  /** In a bitmap of zeros everything is free. */
  lemma {:induction false} AllClear(m: seq<nat>, n: nat, k: nat)
    requires IsBitmap(m, n) && k <= n && forall j :: 0 <= j < |m| ==> m[j] == 0
    ensures FreeEntries(m, n, k) == k && forall i: nat :: i < k ==> !InUse(m, n, i)
  {
    if k > 0 {
      AllClear(m, n, k - 1);
      ZeroBit((k - 1) % 8);
    }
  }
}
