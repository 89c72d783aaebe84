/** Block images and the block allocator of the file system: one bitmap per group, a count of
    free blocks per group, and one for the whole volume. */
module Ext2Volume {
  import opened Words
  import opened ByteWords
  import opened Ext2Bits

  // ----- Blocks as words -----

  /** A buffer of 32-bit words as it lies in memory, low byte first. */
  function Encode(ws: seq<nat>): (r: seq<Byte>)
    ensures |r| == 4 * |ws|
  {
    seq(4 * |ws|, p requires 0 <= p < 4 * |ws| => ByteOf(ws[p / 4], p % 4))
  }

  function WordAt(b: seq<Byte>, i: nat): nat
    requires 4 * i + 3 < |b|
  {
    Word4(b[4 * i], b[4 * i + 1], b[4 * i + 2], b[4 * i + 3])
  }

  function Decode(b: seq<Byte>): (ws: seq<nat>)
    ensures |ws| == |b| / 4
  {
    seq(|b| / 4, i requires 0 <= i < |b| / 4 => WordAt(b, i))
  }

  lemma DecodeEncode(ws: seq<nat>)
    requires forall i :: 0 <= i < |ws| ==> ws[i] < MODULUS
    ensures Decode(Encode(ws)) == ws
  {
    forall i | 0 <= i < |ws| ensures Decode(Encode(ws))[i] == ws[i] {
      WordBytes(ws[i]);
      assert (4 * i) / 4 == i && (4 * i + 1) / 4 == i && (4 * i + 2) / 4 == i && (4 * i + 3) / 4 == i;
    }
  }

  lemma DecodeZeros(n: nat)
    ensures Decode(Zeros(n)) == seq(n / 4, _ => 0)
  {
  }

  // ----- Counters -----

  function Sum(s: seq<int>): int {
    if s == [] then 0 else s[0] + Sum(s[1..])
  }

  lemma {:induction false} SumPositive(s: seq<int>)
    requires forall i :: 0 <= i < |s| ==> s[i] >= 0
    ensures Sum(s) >= 0 && (Sum(s) == 0 <==> forall i :: 0 <= i < |s| ==> s[i] == 0)
  {
    if s != [] {
      SumPositive(s[1..]);
      assert forall i :: 1 <= i < |s| ==> s[i] == s[1..][i - 1];
      if Sum(s) == 0 {
        forall i | 0 <= i < |s| ensures s[i] == 0 {
          if i > 0 { assert s[i] == s[1..][i - 1]; }
        }
      }
    }
  }

  lemma {:induction false} SumUpdate(s: seq<int>, i: nat, v: int)
    requires i < |s|
    ensures Sum(s[i := v]) == Sum(s) - s[i] + v
  {
    if i == 0 {
      assert s[i := v][1..] == s[1..];
    } else {
      assert s[i := v][1..] == s[1..][i - 1 := v];
      SumUpdate(s[1..], i - 1, v);
    }
  }

  // ----- All the groups together -----

  /** The group of a block, and its number within the group. */
  function GroupOf(b: nat, first: nat, perGroup: nat): nat
    requires perGroup > 0 && b >= first
  {
    (b - first) / perGroup
  }

  function LocalOf(b: nat, first: nat, perGroup: nat): (i: nat)
    requires perGroup > 0 && b >= first
    ensures i < perGroup
  {
    (b - first) % perGroup
  }

  function BlockAt(first: nat, g: nat, perGroup: nat, i: nat): nat {
    first + (g * perGroup + i)
  }

  lemma GroupExists(b: nat, first: nat, groups: nat, perGroup: nat)
    requires perGroup > 0 && first <= b < first + groups * perGroup
    ensures GroupOf(b, first, perGroup) < groups
  {
    var q := (b - first) / perGroup;
    assert b - first == q * perGroup + (b - first) % perGroup;
    MulMono(groups, q, perGroup);
  }

  lemma SamePlace(b: nat, first: nat, g: nat, i: nat, perGroup: nat)
    requires i < perGroup && b >= first
    ensures b == BlockAt(first, g, perGroup, i) <==>
            GroupOf(b, first, perGroup) == g && LocalOf(b, first, perGroup) == i
  {
    var x := b - first;
    assert x == x / perGroup * perGroup + x % perGroup;
    if x == g * perGroup + i { DivUnique(x, perGroup, g, i); }
  }

  lemma BlockInRange(first: nat, g: nat, groups: nat, perGroup: nat, i: nat)
    requires i < perGroup && g < groups
    ensures first <= BlockAt(first, g, perGroup, i) < first + groups * perGroup
  {
    MulMono(g + 1, groups, perGroup);
  }

  predicate AreBitmaps(m: seq<seq<nat>>, perGroup: nat) {
    perGroup > 0 && forall g :: 0 <= g < |m| ==> IsBitmap(m[g], perGroup)
  }

  predicate IsBlock(m: seq<seq<nat>>, perGroup: nat, first: nat, b: nat) {
    perGroup > 0 && first <= b < first + |m| * perGroup
  }

  /** Whether the bitmaps say that block `b` is allocated. */
  predicate Taken(m: seq<seq<nat>>, perGroup: nat, first: nat, b: nat)
    requires AreBitmaps(m, perGroup) && IsBlock(m, perGroup, first, b)
  {
    GroupExists(b, first, |m|, perGroup);
    InUse(m[GroupOf(b, first, perGroup)], perGroup, LocalOf(b, first, perGroup))
  }

  ghost function AllTaken(m: seq<seq<nat>>, perGroup: nat, first: nat): set<nat>
    requires AreBitmaps(m, perGroup)
  {
    set b: nat | first <= b < first + |m| * perGroup && IsBlock(m, perGroup, first, b) && Taken(m, perGroup, first, b)
  }

  lemma MarkBitIn(m: seq<seq<nat>>, perGroup: nat, g: nat, i: nat, q: nat, r: nat)
    requires AreBitmaps(m, perGroup) && g < |m| && i < perGroup && q < |m| && r < perGroup
    ensures AreBitmaps(m[g := Mark(m[g], perGroup, i)], perGroup)
    ensures InUse(m[g := Mark(m[g], perGroup, i)][q], perGroup, r) == (InUse(m[q], perGroup, r) || (q == g && r == i))
  {
    hide Mark, InUse;
    MarkBit(m[g], perGroup, i, r);
  }

  lemma MarkTakenAt(m: seq<seq<nat>>, perGroup: nat, first: nat, g: nat, i: nat, b: nat)
    requires AreBitmaps(m, perGroup) && g < |m| && i < perGroup && IsBlock(m, perGroup, first, b)
    ensures AreBitmaps(m[g := Mark(m[g], perGroup, i)], perGroup)
    ensures Taken(m[g := Mark(m[g], perGroup, i)], perGroup, first, b) ==
            (Taken(m, perGroup, first, b) || b == BlockAt(first, g, perGroup, i))
  {
    hide Mark, InUse, IsBitmap, GroupOf, LocalOf, BlockAt;
    GroupExists(b, first, |m|, perGroup);
    SamePlace(b, first, g, i, perGroup);
    MarkBitIn(m, perGroup, g, i, GroupOf(b, first, perGroup), LocalOf(b, first, perGroup));
  }

  lemma MarkTaken(m: seq<seq<nat>>, perGroup: nat, first: nat, g: nat, i: nat)
    requires AreBitmaps(m, perGroup) && g < |m| && i < perGroup
    ensures AreBitmaps(m[g := Mark(m[g], perGroup, i)], perGroup)
    ensures AllTaken(m[g := Mark(m[g], perGroup, i)], perGroup, first) ==
            AllTaken(m, perGroup, first) + {BlockAt(first, g, perGroup, i)}
  {
    hide Mark, InUse, Taken, BlockAt;
    MarkBit(m[g], perGroup, i, i);
    BlockInRange(first, g, |m|, perGroup, i);
    forall b: nat | IsBlock(m, perGroup, first, b)
      ensures Taken(m[g := Mark(m[g], perGroup, i)], perGroup, first, b) ==
              (Taken(m, perGroup, first, b) || b == BlockAt(first, g, perGroup, i))
    {
      MarkTakenAt(m, perGroup, first, g, i, b);
    }
  }

  lemma ClearBitIn(m: seq<seq<nat>>, perGroup: nat, g: nat, i: nat, q: nat, r: nat)
    requires AreBitmaps(m, perGroup) && g < |m| && i < perGroup && q < |m| && r < perGroup
    ensures AreBitmaps(m[g := Clear(m[g], perGroup, i)], perGroup)
    ensures InUse(m[g := Clear(m[g], perGroup, i)][q], perGroup, r) == (InUse(m[q], perGroup, r) && !(q == g && r == i))
  {
    hide Clear, InUse;
    ClearOneBit(m[g], perGroup, i, r);
  }

  lemma ClearTakenAt(m: seq<seq<nat>>, perGroup: nat, first: nat, g: nat, i: nat, b: nat)
    requires AreBitmaps(m, perGroup) && g < |m| && i < perGroup && IsBlock(m, perGroup, first, b)
    ensures AreBitmaps(m[g := Clear(m[g], perGroup, i)], perGroup)
    ensures Taken(m[g := Clear(m[g], perGroup, i)], perGroup, first, b) ==
            (Taken(m, perGroup, first, b) && b != BlockAt(first, g, perGroup, i))
  {
    hide Clear, InUse, IsBitmap, GroupOf, LocalOf, BlockAt;
    GroupExists(b, first, |m|, perGroup);
    SamePlace(b, first, g, i, perGroup);
    ClearBitIn(m, perGroup, g, i, GroupOf(b, first, perGroup), LocalOf(b, first, perGroup));
  }

  lemma ClearTaken(m: seq<seq<nat>>, perGroup: nat, first: nat, g: nat, i: nat)
    requires AreBitmaps(m, perGroup) && g < |m| && i < perGroup
    ensures AreBitmaps(m[g := Clear(m[g], perGroup, i)], perGroup)
    ensures AllTaken(m[g := Clear(m[g], perGroup, i)], perGroup, first) ==
            AllTaken(m, perGroup, first) - {BlockAt(first, g, perGroup, i)}
  {
    hide Clear, InUse, Taken, BlockAt;
    ClearOneBit(m[g], perGroup, i, i);
    forall b: nat | IsBlock(m, perGroup, first, b)
      ensures Taken(m[g := Clear(m[g], perGroup, i)], perGroup, first, b) ==
              (Taken(m, perGroup, first, b) && b != BlockAt(first, g, perGroup, i))
    {
      ClearTakenAt(m, perGroup, first, g, i, b);
    }
    ghost var was, now := AllTaken(m, perGroup, first), AllTaken(m[g := Clear(m[g], perGroup, i)], perGroup, first);
    forall b: nat ensures b in now <==> b in was && b != BlockAt(first, g, perGroup, i) {
      assert IsBlock(m, perGroup, first, b) <==> IsBlock(m[g := Clear(m[g], perGroup, i)], perGroup, first, b);
    }
  }

  /** The group counts tell the number of clear bits, and the volume count is their sum. */
  ghost predicate Counted(m: seq<seq<nat>>, perGroup: nat, groupFree: seq<int>, totalFree: int) {
    && AreBitmaps(m, perGroup) && |groupFree| == |m|
    && (forall g :: 0 <= g < |m| ==> groupFree[g] == FreeEntries(m[g], perGroup, perGroup))
    && totalFree == Sum(groupFree)
  }

  lemma MarkCounted(m: seq<seq<nat>>, perGroup: nat, groupFree: seq<int>, totalFree: int, g: nat, i: nat)
    requires Counted(m, perGroup, groupFree, totalFree) && g < |m| && i < perGroup && !InUse(m[g], perGroup, i)
    ensures Counted(m[g := Mark(m[g], perGroup, i)], perGroup, groupFree[g := groupFree[g] - 1], totalFree - 1)
  {
    hide Mark, InUse;
    MarkCount(m[g], perGroup, i, perGroup);
    SumUpdate(groupFree, g, groupFree[g] - 1);
  }

  lemma ClearCounted(m: seq<seq<nat>>, perGroup: nat, groupFree: seq<int>, totalFree: int, g: nat, i: nat)
    requires Counted(m, perGroup, groupFree, totalFree) && g < |m| && i < perGroup && InUse(m[g], perGroup, i)
    ensures Counted(m[g := Clear(m[g], perGroup, i)], perGroup, groupFree[g := groupFree[g] + 1], totalFree + 1)
  {
    hide Clear, InUse;
    ClearCount(m[g], perGroup, i, perGroup);
    SumUpdate(groupFree, g, groupFree[g] + 1);
  }

  /** The volume's count is that of its groups, none of which is negative. */
  lemma TotalCount(m: seq<seq<nat>>, perGroup: nat, groupFree: seq<int>, totalFree: int)
    requires Counted(m, perGroup, groupFree, totalFree)
    ensures totalFree >= 0 && (totalFree == 0 <==> forall g :: 0 <= g < |m| ==> groupFree[g] <= 0)
  {
    SumPositive(groupFree);
    if forall g :: 0 <= g < |m| ==> groupFree[g] <= 0 {
      assert forall g :: 0 <= g < |groupFree| ==> groupFree[g] == 0;
    }
  }

  /** When every group count is zero, every block is taken. */
  lemma NothingFree(m: seq<seq<nat>>, perGroup: nat, groupFree: seq<int>, totalFree: int, first: nat, b: nat)
    requires Counted(m, perGroup, groupFree, totalFree) && forall g :: 0 <= g < |m| ==> groupFree[g] <= 0
    requires IsBlock(m, perGroup, first, b)
    ensures b in AllTaken(m, perGroup, first)
  {
    hide InUse, GroupOf, LocalOf;
    GroupExists(b, first, |m|, perGroup);
    FreeSome(m[GroupOf(b, first, perGroup)], perGroup, perGroup);
  }

  lemma EmptyVolume(m: seq<seq<nat>>, perGroup: nat, first: nat, groupFree: seq<int>, map0: seq<nat>)
    requires perGroup > 0 && IsBitmap(map0, perGroup) && (forall j :: 0 <= j < |map0| ==> map0[j] == 0)
    requires |groupFree| == |m| && forall g :: 0 <= g < |m| ==> m[g] == map0 && groupFree[g] == perGroup
    ensures Counted(m, perGroup, groupFree, Sum(groupFree)) && AllTaken(m, perGroup, first) == {}
  {
    hide InUse, GroupOf, LocalOf, FreeEntries;
    AllClear(map0, perGroup, perGroup);
    forall b: nat | IsBlock(m, perGroup, first, b) ensures !Taken(m, perGroup, first, b) {
      GroupExists(b, first, |m|, perGroup);
    }
  }

  class Volume {
    const first: nat        // number of the first block of the first group
    const perGroup: nat
    const blockSize: nat
    var bitmaps: seq<seq<nat>>
    var groupFree: seq<int>
    var totalFree: int
    var disk: seq<seq<Byte>>

    /** The counters are right, and block 0 is never free. */
    ghost predicate Valid()
      reads this
    {
      && Counted(bitmaps, perGroup, groupFree, totalFree)
      && |disk| == first + |bitmaps| * perGroup <= MODULUS
      && (forall b :: 0 <= b < |disk| ==> |disk[b]| == blockSize)
      && (first == 0 && |disk| > 0 ==> 0 in Used())
    }

    /** An empty volume: some blocks in front, and then `groups` groups of free blocks. */
    constructor (front: nat, groups: nat, per: nat, size: nat)
      requires front > 0 && per > 0 && front + groups * per <= MODULUS
      ensures Valid() && first == front && perGroup == per && blockSize == size && |bitmaps| == groups && Used() == {}
    {
      var map0 := seq((per + 7) / 8, _ => 0);
      first, perGroup, blockSize := front, per, size;
      bitmaps := seq(groups, _ => map0);
      groupFree := seq(groups, _ => per);
      totalFree := Sum(seq(groups, _ => per));
      disk := seq(front + groups * per, _ => Zeros(size));
      new;
      EmptyVolume(bitmaps, perGroup, first, groupFree, map0);
    }

    ghost function Used(): set<nat>
      requires AreBitmaps(bitmaps, perGroup)
      reads this
    {
      AllTaken(bitmaps, perGroup, first)
    }

    ghost predicate IsFull()
      requires AreBitmaps(bitmaps, perGroup)
      reads this
    {
      forall x: nat :: first <= x < |disk| ==> x in Used()
    }

    method Claim(g: nat, i: nat)
      requires Valid() && g < |bitmaps| && i < perGroup && !InUse(bitmaps[g], perGroup, i)
      modifies this
      ensures Valid() && totalFree == old(totalFree) - 1 && |bitmaps| == old(|bitmaps|)
      ensures var b := BlockAt(first, g, perGroup, i);
              b < |disk| && Used() == old(Used()) + {b} && disk == old(disk)[b := Zeros(blockSize)]
    {
      hide Mark, AllTaken, BlockAt;
      MarkCounted(bitmaps, perGroup, groupFree, totalFree, g, i);
      MarkTaken(bitmaps, perGroup, first, g, i);
      BlockInRange(first, g, |bitmaps|, perGroup, i);
      groupFree := groupFree[g := groupFree[g] - 1];
      totalFree := totalFree - 1;
      bitmaps := bitmaps[g := Mark(bitmaps[g], perGroup, i)];
      disk := disk[BlockAt(first, g, perGroup, i) := Zeros(blockSize)];
    }

    /** Allocates the first free block of the first group with any, and clears it; -1 when the
        volume is full, where the kernel stops. */
    method AllocBlock() returns (b: int)
      requires Valid()
      modifies this
      ensures Valid() && |bitmaps| == old(|bitmaps|)
      ensures (b == -1 <==> old(IsFull())) && (b == -1 <==> old(totalFree) == 0)
      ensures b == -1 ==> disk == old(disk) && Used() == old(Used()) && totalFree == 0
      ensures b != -1 ==>
                && 0 < b < |disk| && b !in old(Used()) && Used() == old(Used()) + {b as nat}
                && disk == old(disk)[b := Zeros(blockSize)] && totalFree == old(totalFree) - 1
    {
      hide AllTaken, Taken, InUse, BlockAt;
      TotalCount(bitmaps, perGroup, groupFree, totalFree);
      var g := 0;
      while g < |bitmaps|
        invariant g <= |bitmaps|
        invariant forall h :: 0 <= h < g ==> groupFree[h] <= 0
      {
        if groupFree[g] > 0 {
          var i := FindClear(bitmaps[g], perGroup);
          FreeSome(bitmaps[g], perGroup, perGroup);
          NotTaken(bitmaps, perGroup, first, g, i);
          Claim(g, i);
          return BlockAt(first, g, perGroup, i);
        }
        g := g + 1;
      }
      forall x: nat | first <= x < |disk| ensures x in Used() {
        NothingFree(bitmaps, perGroup, groupFree, totalFree, first, x);
      }
      return -1;
    }

    /** Gives an allocated block back.  Its contents stay as they are. */
    method DeallocBlock(b: nat)
      requires Valid() && b in Used() && b != 0
      modifies this
      ensures Valid() && |bitmaps| == old(|bitmaps|)
      ensures Used() == old(Used()) - {b} && disk == old(disk) && totalFree == old(totalFree) + 1
    {
      hide InUse, Clear, AllTaken, GroupOf, LocalOf, BlockAt;
      TakenWhere(bitmaps, perGroup, first, b);
      var g, i := GroupOf(b, first, perGroup), LocalOf(b, first, perGroup);
      ClearCounted(bitmaps, perGroup, groupFree, totalFree, g, i);
      ClearTaken(bitmaps, perGroup, first, g, i);
      bitmaps := bitmaps[g := Clear(bitmaps[g], perGroup, i)];
      groupFree := groupFree[g := groupFree[g] + 1];
      totalFree := totalFree + 1;
    }
  }

  lemma InTaken(m: seq<seq<nat>>, perGroup: nat, first: nat, b: nat)
    requires AreBitmaps(m, perGroup) && b in AllTaken(m, perGroup, first)
    ensures IsBlock(m, perGroup, first, b) && Taken(m, perGroup, first, b)
  {
    hide Taken, InUse, IsBitmap;
  }

  lemma TakenWhere(m: seq<seq<nat>>, perGroup: nat, first: nat, b: nat)
    requires AreBitmaps(m, perGroup) && b in AllTaken(m, perGroup, first)
    ensures b >= first
    ensures var g, i := GroupOf(b, first, perGroup), LocalOf(b, first, perGroup);
            g < |m| && InUse(m[g], perGroup, i) && b == BlockAt(first, g, perGroup, i)
  {
    hide InUse, AllTaken, IsBitmap, GroupOf, LocalOf, BlockAt;
    InTaken(m, perGroup, first, b);
    GroupExists(b, first, |m|, perGroup);
    SamePlace(b, first, GroupOf(b, first, perGroup), LocalOf(b, first, perGroup), perGroup);
  }

  lemma NotTaken(m: seq<seq<nat>>, perGroup: nat, first: nat, g: nat, i: nat)
    requires AreBitmaps(m, perGroup) && g < |m| && i < perGroup && !InUse(m[g], perGroup, i)
    ensures first <= BlockAt(first, g, perGroup, i) < first + |m| * perGroup
    ensures BlockAt(first, g, perGroup, i) !in AllTaken(m, perGroup, first)
  {
    hide InUse, IsBitmap, GroupOf, LocalOf, BlockAt, AllTaken;
    var b := BlockAt(first, g, perGroup, i);
    BlockInRange(first, g, |m|, perGroup, i);
    SamePlace(b, first, g, i, perGroup);
    if b in AllTaken(m, perGroup, first) { InTaken(m, perGroup, first, b); }
  }

  /** The first clear bit among the first `n`, or -1. */
  method FindClear(m: seq<nat>, n: nat) returns (i: int)
    requires IsBitmap(m, n)
    ensures -1 <= i < n && (i != -1 ==> !InUse(m, n, i))
    ensures forall x: nat :: x < n && (i == -1 || x < i) ==> InUse(m, n, x)
  {
    var j := 0;
    while j < |m|
      invariant j <= |m| && forall x: nat :: x < n && x < 8 * j ==> InUse(m, n, x)
    {
      if m[j] != 0xFF {
        var k := 0;
        while k < 8
          invariant k <= 8 && forall x: nat :: x < n && x < 8 * j + k ==> InUse(m, n, x)
        {
          if 8 * j + k >= n {
            break;
          }
          if !BitAt(m[j], k) {
            assert (8 * j + k) / 8 == j && (8 * j + k) % 8 == k;
            return 8 * j + k;
          }
          assert (8 * j + k) / 8 == j && (8 * j + k) % 8 == k;
          k := k + 1;
        }
      } else {
        forall x: nat | x < n && 8 * j <= x < 8 * j + 8 ensures InUse(m, n, x) {
          OnesBit(8, x % 8);
          assert Pow2(8) == 256;
        }
      }
      j := j + 1;
    }
    return -1;
  }
}
