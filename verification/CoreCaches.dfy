/** The per-core page caches in front of the frame allocator.

    Each core keeps a stack of up to 64 single frames.  An allocation on an empty stack
    first takes 32 frames from the allocator; a free on a full stack first gives frames
    back until 31 are left.
  */
module CoreCaches {
  import opened Words
  import opened Dyadic
  import opened BuddyBlocks
  import opened FreeLists
  import opened Physmem

  const SIZE := 64
  const REFILL := 32
  const FRAME_COUNT := 32440
  const MAX_ORDER := 14

  /** Who has an allocated block: a caller of `physmem_alloc_order`, a caller of
      `physmem_alloc`, or the cache of a core, at a given place. */
  datatype Owner = Client(order: nat) | Page | Cached(core: nat, slot: nat)

  function OrderOf(w: Owner): nat {
    if w.Client? then w.order else 0
  }

  /** The blocks that are in the hands of callers. */
  ghost function HandedOut(owner: map<nat, Owner>): map<nat, Owner> {
    map x | x in owner && !owner[x].Cached? :: owner[x]
  }

  /** Every allocated block has one owner, and the caches hold exactly what they own. */
  ghost predicate Accounted(live: Blocks, owner: map<nat, Owner>, stacks: seq<seq<nat>>) {
    && owner.Keys == live.Keys
    && (forall i :: i in owner ==> live[i] == OrderOf(owner[i]))
    && (forall i :: i in owner && owner[i].Cached? ==>
          owner[i].core < |stacks| && owner[i].slot < |stacks[owner[i].core]| &&
            stacks[owner[i].core][owner[i].slot] == i)
    && (forall c, j :: 0 <= c < |stacks| && 0 <= j < |stacks[c]| ==>
          stacks[c][j] in owner && owner[stacks[c][j]] == Cached(c, j))
  }

  lemma CachePush(live: Blocks, owner: map<nat, Owner>, stacks: seq<seq<nat>>, c: nat, x: nat)
    requires Accounted(live, owner, stacks) && c < |stacks|
    requires x in live ==> owner[x] == Page
    ensures var owner' := owner[x := Cached(c, |stacks[c]|)];
            && Accounted(live[x := 0], owner', stacks[c := stacks[c] + [x]])
            && HandedOut(owner') == HandedOut(owner) - {x} && (x in live ==> live[x] == 0)
  {
  }

  lemma ClientGone(live: Blocks, owner: map<nat, Owner>, stacks: seq<seq<nat>>, x: nat)
    requires Accounted(live, owner, stacks) && x in owner && owner[x].Client?
    ensures x in live && live[x] == owner[x].order
    ensures Accounted(live - {x}, owner - {x}, stacks) && HandedOut(owner - {x}) == HandedOut(owner) - {x}
  {
  }

  lemma NewClient(live: Blocks, owner: map<nat, Owner>, stacks: seq<seq<nat>>, x: nat, k: nat)
    requires Accounted(live, owner, stacks) && x !in live
    ensures Accounted(live[x := k], owner[x := Client(k)], stacks)
    ensures x !in HandedOut(owner) && HandedOut(owner[x := Client(k)]) == HandedOut(owner)[x := Client(k)]
  {
  }

  lemma OwnersAreLive(live: Blocks, owner: map<nat, Owner>, stacks: seq<seq<nat>>)
    requires Accounted(live, owner, stacks)
    ensures HandedOut(owner).Keys <= live.Keys
  {
  }

  lemma SameLive(live: Blocks, owner: map<nat, Owner>, stacks: seq<seq<nat>>, x: nat)
    requires Accounted(live, owner, stacks) && x in owner && owner[x] == Page
    ensures x in live && live[x := 0] == live
  {
  }

  lemma CachePop(live: Blocks, owner: map<nat, Owner>, stacks: seq<seq<nat>>, c: nat)
    requires Accounted(live, owner, stacks) && c < |stacks| && stacks[c] != []
    ensures var x := stacks[c][|stacks[c]| - 1]; var rest := stacks[c := stacks[c][..|stacks[c]| - 1]];
            && x in owner && owner[x].Cached? && x in live && live[x] == 0
            && HandedOut(owner[x := Page]) == HandedOut(owner)[x := Page] && HandedOut(owner - {x}) == HandedOut(owner)
            && x !in HandedOut(owner) && Accounted(live, owner[x := Page], rest) &&
              Accounted(live - {x}, owner - {x}, rest)
  {
    var x := stacks[c][|stacks[c]| - 1];
    assert owner[x] == Cached(c, |stacks[c]| - 1);
    NotHandedOut(owner, x);
    hide HandedOut;
  }

  lemma NotHandedOut(owner: map<nat, Owner>, x: nat)
    requires x in owner && owner[x].Cached?
    ensures x !in HandedOut(owner) && HandedOut(owner[x := Page]) == HandedOut(owner)[x := Page] &&
            HandedOut(owner - {x}) == HandedOut(owner)
  {
  }

  lemma Handed(owner: map<nat, Owner>, p: nat)
    ensures p in HandedOut(owner) ==> p in owner && HandedOut(owner)[p] == owner[p]
    ensures p in owner && owner[p] == Page ==> p in HandedOut(owner)
  {
  }

  // ----- Counting free frames -----

  ghost function FreeFrames(free: Blocks, n: nat): set<nat> {
    set f: nat | f < n && Covers(free, f)
  }

  lemma FreeIsNotLive(s: State, n: nat, m: nat, f: nat)
    requires BuddyBlocks.Valid(s, n, m) && f < n
    ensures Covers(s.free, f) <==> !Covers(s.live, f)
  {
    hide Aligned, Pow2, NoBuddyPair, Placed, Apart, Within;
    assert Covers(All(s), f);
    var j: nat :| j in All(s) && Within(f, j, All(s)[j]);
    if Covers(s.free, f) && Covers(s.live, f) {
      var a: nat :| a in s.free && Within(f, a, s.free[a]);
      var b: nat :| b in s.live && Within(f, b, s.live[b]);
      LiveApart(All(s), a, b, f);
    }
  }

  /** Taking a single frame leaves one free frame less. */
  lemma FrameTaken(s: State, t: State, n: nat, m: nat, x: nat)
    requires BuddyBlocks.Valid(s, n, m) && BuddyBlocks.Valid(t, n, m)
    requires x !in s.live && t.live == s.live[x := 0]
    ensures x in FreeFrames(s.free, n) && FreeFrames(t.free, n) == FreeFrames(s.free, n) - {x}
  {
    WasFree(s, t, n, m, x, 0);
    assert Within(x, x, 0);
    assert x in All(t);
    forall f: nat | f < n ensures Covers(t.free, f) <==> Covers(s.free, f) && f != x {
      FreeIsNotLive(s, n, m, f);
      FreeIsNotLive(t, n, m, f);
      FrameLive(s.live, x, f);
    }
  }

  lemma FrameLive(live: Blocks, x: nat, f: nat)
    requires x !in live
    ensures Covers(live[x := 0], f) <==> Covers(live, f) || f == x
  {
    if Covers(live, f) {
      var b: nat :| b in live && Within(f, b, live[b]);
      assert b in live[x := 0] && Within(f, b, live[x := 0][b]);
    }
    if f == x {
      assert Within(f, x, live[x := 0][x]);
    }
  }

  lemma {:induction false} FirstNumbers(s: set<nat>, n: nat)
    requires forall f: nat :: f in s <==> f < n
    ensures |s| == n
  {
    if n == 0 {
      assert s == {};
    } else {
      FirstNumbers(s - {n - 1}, n - 1);
    }
  }

  /** With nothing allocated every frame is free. */
  lemma AllFrames(s: State, n: nat, m: nat)
    requires BuddyBlocks.Valid(s, n, m) && s.live == map[]
    ensures |FreeFrames(s.free, n)| == n
  {
    hide BuddyBlocks.Valid;
    forall f: nat | f < n ensures f in FreeFrames(s.free, n) { FreeIsNotLive(s, n, m, f); }
    FirstNumbers(FreeFrames(s.free, n), n);
  }

  lemma NoFreeFrame(free: Blocks, live: Blocks, n: nat, m: nat)
    requires BuddyBlocks.Valid(State(free, live), n, m)
    ensures |FreeFrames(free, n)| == 0 <==> forall i: nat :: Aligned(i, 0) ==> !WhollyFree(free, i, 0)
  {
    if FreeFrames(free, n) == {} {
      forall i: nat ensures !WhollyFree(free, i, 0) {
        assert Within(i, i, 0);
        assert i !in FreeFrames(free, n);
      }
    } else {
      var f :| f in FreeFrames(free, n);
      assert Aligned(f, 0) && WhollyFree(free, f, 0);
    }
  }

  // ----- The caches -----

  class FrameCaches {
    const buddy: Allocator
    const pages: array2<nat>
    const count: array<nat>
    ghost var owner: map<nat, Owner>
    ghost var stacks: seq<seq<nat>>

    ghost predicate Separate() {
      && pages.Length0 == count.Length && pages.Length1 == SIZE
      && this !in buddy.Repr() && pages !in buddy.Repr() && count !in buddy.Repr()
    }

    ghost function Repr(): set<object> {
      {this, pages, count} + buddy.Repr()
    }

    ghost predicate Stacked()
      reads this, pages, count
    {
      && Separate() && |stacks| == count.Length
      && (forall c :: 0 <= c < |stacks| ==> |stacks[c]| <= SIZE)
      && (forall c, j :: 0 <= c < |stacks| && 0 <= j < |stacks[c]| ==> pages[c, j] == stacks[c][j])
    }

    /** The pages of each core are those it owns, whatever `count` says. */
    ghost predicate Books()
      reads Repr()
    {
      Stacked() && buddy.Valid() && Accounted(buddy.live, owner, stacks)
    }

    ghost predicate Valid()
      reads Repr()
    {
      Books() && forall c :: 0 <= c < count.Length ==> |stacks[c]| == count[c]
    }

    ghost function FreeCount(): nat
      reads buddy
    {
      |FreeFrames(buddy.free, buddy.frames)|
    }

    /** The number of frames that core `c` can have, one after another: its own, and what the
        allocator can give in whole refills. */
    ghost function Available(c: nat): nat
      requires c < count.Length
      reads count, buddy
    {
      count[c] + REFILL * (FreeCount() / REFILL)
    }

    method TakeFrame(c: nat, i: nat) returns (ok: bool)
      requires Books() && c < count.Length && |stacks[c]| == i < SIZE
      modifies this, buddy.Repr(), pages
      ensures ok <==> old(FreeCount()) > 0
      ensures ok ==> Books() && FreeCount() == old(FreeCount()) - 1
      ensures ok ==> HandedOut(owner) == old(HandedOut(owner))
      ensures ok ==> |stacks[c]| == i + 1 && forall d :: 0 <= d < count.Length && d != c ==> stacks[d] == old(stacks[d])
    {
      hide BuddyBlocks.Valid, Inv, WhollyFree, Aligned, FreeFrames, Accounted, HandedOut;
      OwnersAreLive(buddy.live, owner, stacks);
      ghost var s := State(buddy.free, buddy.live);
      NoFreeFrame(buddy.free, buddy.live, buddy.frames, buddy.maxOrder);
      var x := buddy.AllocOrder(0);
      ok := x != NIL;
      if ok {
        FrameTaken(s, State(buddy.free, buddy.live), buddy.frames, buddy.maxOrder, x);
        CachePush(s.live, owner, stacks, c, x);
        KeepFrame(c, i, x);
      }
    }

    /** Enters an allocated frame into the cache of core `c`. */
    method KeepFrame(c: nat, i: nat, x: nat)
      requires Stacked() && buddy.Valid() && c < count.Length && |stacks[c]| == i < SIZE
      requires Accounted(buddy.live, owner[x := Cached(c, i)], stacks[c := stacks[c] + [x]])
      modifies this, pages
      ensures Books() && owner == old(owner)[x := Cached(c, i)] && stacks == old(stacks)[c := old(stacks[c]) + [x]]
    {
      hide Accounted, Allocator.Valid;
      pages[c, i] := x;
      owner := owner[x := Cached(c, i)];
      stacks := stacks[c := stacks[c] + [x]];
    }

    method GiveFrame(c: nat, i: nat)
      requires Books() && c < count.Length && |stacks[c]| == i + 1
      modifies this, buddy.Repr()
      ensures Books() && stacks == old(stacks)[c := old(stacks[c])[..i]]
      ensures HandedOut(owner) == old(HandedOut(owner)) && FreeCount() == old(FreeCount()) + 1
    {
      hide BuddyBlocks.Valid, Inv, FreeFrames, Accounted, HandedOut;
      var x := pages[c, i];
      assert x == stacks[c][i];
      CachePop(buddy.live, owner, stacks, c);
      ghost var s := State(buddy.free, buddy.live);
      buddy.FreeOrder(x, 0);
      assert s.live == buddy.live[x := 0];
      FrameTaken(State(buddy.free, buddy.live), s, buddy.frames, buddy.maxOrder, x);
      owner := owner - {x};
      stacks := stacks[c := stacks[c][..i]];
    }

    method Refill(c: nat) returns (ok: bool)
      requires Valid() && c < count.Length && count[c] == 0
      modifies Repr()
      ensures ok <==> old(FreeCount()) >= REFILL
      ensures ok ==> Valid() && count[c] == REFILL && HandedOut(owner) == old(HandedOut(owner))
      ensures ok ==> FreeCount() == old(FreeCount()) - REFILL && count[..] == old(count[..])[c := REFILL]
    {
      hide Accounted, Inv, BuddyBlocks.Valid, FreeFrames, HandedOut;
      var i := 0;
      ok := true;
      while i < REFILL
        invariant i <= REFILL && Books() && |stacks[c]| == i && FreeCount() == old(FreeCount()) - i
        invariant HandedOut(owner) == old(HandedOut(owner))
        invariant forall d :: 0 <= d < count.Length && d != c ==> stacks[d] == old(stacks[d])
        invariant count[..] == old(count[..])
      {
        ok := TakeFrame(c, i);
        if !ok {
          return;
        }
        i := i + 1;
      }
      count[c] := REFILL;
    }

    method PopPage(c: nat) returns (p: nat)
      requires Valid() && c < count.Length && count[c] > 0
      modifies this, count
      ensures Valid() && p !in old(HandedOut(owner)) && HandedOut(owner) == old(HandedOut(owner))[p := Page]
      ensures count[..] == old(count[..])[c := old(count[c]) - 1]
    {
      hide Accounted, HandedOut, Allocator.Valid;
      CachePop(buddy.live, owner, stacks, c);
      count[c] := count[c] - 1;
      p := pages[c, count[c]];
      owner := owner[p := Page];
      stacks := stacks[c := stacks[c][..count[c]]];
    }

    method PushPage(c: nat, p: nat)
      requires Valid() && c < count.Length && count[c] < SIZE && p in owner && owner[p] == Page
      modifies this, pages, count
      ensures Valid() && HandedOut(owner) == old(HandedOut(owner)) - {p}
      ensures count[..] == old(count[..])[c := old(count[c]) + 1]
    {
      hide Accounted, HandedOut, Allocator.Valid;
      CachePush(buddy.live, owner, stacks, c, p);
      SameLive(buddy.live, owner, stacks, p);
      pages[c, count[c]] := p;
      owner := owner[p := Cached(c, count[c])];
      stacks := stacks[c := stacks[c] + [p]];
      count[c] := count[c] + 1;
    }

    /** A core that has no frames left takes 32 from the allocator first. */
    method Alloc(c: nat) returns (p: int)
      requires Valid() && c < count.Length
      modifies Repr()
      ensures p == NIL <==> old(Available(c)) == 0
      ensures p != NIL ==> Available(c) == old(Available(c)) - 1 && FreeCount() % REFILL == old(FreeCount()) % REFILL
      ensures p != NIL ==>
                && Valid() && p >= 0 && p !in old(HandedOut(owner))
                && HandedOut(owner) == old(HandedOut(owner))[p as nat := Page]
      ensures p != NIL ==>
                && count[..] == old(count[..])[c := if old(count[c]) == 0 then 31 else old(count[c]) - 1]
                && FreeCount() == old(FreeCount()) - if old(count[c]) == 0 then 32 else 0
    {
      hide Allocator.Valid, Accounted, HandedOut, FreeFrames;
      if count[c] == 0 {
        var ok := Refill(c);
        if !ok {
          return NIL;
        }
      }
      p := PopPage(c);
    }

    method Drain(c: nat)
      requires Valid() && c < count.Length && count[c] == SIZE
      modifies Repr()
      ensures Valid() && HandedOut(owner) == old(HandedOut(owner))
      ensures count[..] == old(count[..])[c := REFILL - 1] && FreeCount() == old(FreeCount()) + SIZE - (REFILL - 1)
    {
      hide Accounted, HandedOut, Allocator.Valid, FreeFrames;
      while count[c] >= REFILL
        invariant Valid() && REFILL - 1 <= count[c] <= SIZE && HandedOut(owner) == old(HandedOut(owner))
        invariant count[..] == old(count[..])[c := count[c]] && FreeCount() == old(FreeCount()) + SIZE - count[c]
        decreases count[c]
      {
        GiveFrame(c, count[c] - 1);
        count[c] := count[c] - 1;
      }
    }

    /** A core that has 64 frames gives 33 back to the allocator first. */
    method Free(c: nat, p: nat)
      requires Valid() && c < count.Length && p in owner && owner[p] == Page
      modifies Repr()
      ensures Valid() && HandedOut(owner) == old(HandedOut(owner)) - {p}
      ensures count[..] == old(count[..])[c := if old(count[c]) == 64 then 32 else old(count[c]) + 1]
      ensures FreeCount() == old(FreeCount()) + if old(count[c]) == 64 then 33 else 0
    {
      hide Accounted, FreeFrames, HandedOut, Allocator.Valid;
      Handed(owner, p);
      if count[c] == SIZE {
        Drain(c);
      }
      Handed(owner, p);
      PushPage(c, p);
    }

    constructor (cores: nat, n: nat, m: nat)
      requires n < Pow2(32) && m < 32
      ensures Valid() && count.Length == cores && owner == map[] && buddy.frames == n && buddy.maxOrder == m
      ensures fresh(Repr()) && FreeCount() == n && forall c :: 0 <= c < cores ==> count[c] == 0
    {
      hide BuddyBlocks.Valid, Inv, Pow2, FreeFrames;
      buddy := new Allocator(n, m);
      owner := map[];
      stacks := seq(cores, _ => []);
      pages := new nat[cores, SIZE];
      count := new nat[cores](_ => 0);
      new;
      AllFrames(State(buddy.free, buddy.live), n, m);
    }

    method AllocBlock(k: nat) returns (x: int)
      requires Valid() && k <= buddy.maxOrder
      modifies Repr()
      ensures Valid()
      ensures x == NIL <==> forall i: nat :: Aligned(i, k) ==> !WhollyFree(old(buddy.free), i, k)
      ensures x == NIL ==> HandedOut(owner) == old(HandedOut(owner))
      ensures x != NIL ==>
                && x >= 0 && x !in old(HandedOut(owner))
                && HandedOut(owner) == old(HandedOut(owner))[x as nat := Client(k)]
    {
      hide BuddyBlocks.Valid, Inv, WhollyFree, Aligned, Accounted, HandedOut;
      ghost var live := buddy.live;
      x := buddy.AllocOrder(k);
      if x != NIL {
        NewClient(live, owner, stacks, x, k);
        owner := owner[x as nat := Client(k)];
      }
    }

    method FreeBlock(x: nat, k: nat)
      requires Valid() && x in owner && owner[x] == Client(k)
      modifies Repr()
      ensures Valid() && HandedOut(owner) == old(HandedOut(owner)) - {x}
    {
      hide BuddyBlocks.Valid, Inv, Accounted, HandedOut;
      ClientGone(buddy.live, owner, stacks, x);
      buddy.FreeOrder(x, k);
      owner := owner - {x};
    }
  }

  method Boot(cores: nat) returns (f: FrameCaches)
    ensures f.Valid() && f.count.Length == cores && f.owner == map[]
    ensures f.buddy.frames == 32440 && f.buddy.maxOrder == 14
    ensures fresh(f.Repr()) && f.FreeCount() == 32440 && forall c :: 0 <= c < cores ==> f.Available(c) == 32416
  {
    hide FrameCaches.Valid, FrameCaches.FreeCount, Pow2;
    Pow2Of32();
    f := new FrameCaches(cores, FRAME_COUNT, MAX_ORDER);
  }

  /** A core takes frames until the kernel stops: it gets those that are available to it.  `left` is
      how many are free when the call begins in which the kernel stops, the remainder of the free
      frames by 32; the refill of that call takes them, and none of them is handed out. */
  method TakeAll(f: FrameCaches, c: nat) returns (n: nat, ghost left: nat)
    requires f.Valid() && c < f.count.Length
    modifies f.Repr()
    ensures n == old(f.Available(c)) && left == old(f.FreeCount()) % REFILL
  {
    hide FrameCaches.Valid;
    n, left := 0, f.FreeCount();
    var p := 0;
    while p != NIL
      invariant p != NIL ==>
                f.Valid() && n + f.Available(c) == old(f.Available(c)) &&
                f.FreeCount() % REFILL == old(f.FreeCount()) % REFILL
      invariant p == NIL ==> n == old(f.Available(c)) && left == old(f.FreeCount()) % REFILL
      decreases p != NIL, if p != NIL then f.Available(c) else 0
    {
      left := f.FreeCount();
      p := f.Alloc(c);
      if p != NIL {
        n := n + 1;
      }
    }
  }

  /** On the machine itself one core can take 32416 of the 32440 frames, and the kernel stops in a call
      that begins with 24 free. */
  method StopsWithFramesFree() returns (n: nat, ghost left: nat)
    ensures n == 32416 && left == 24
  {
    hide FrameCaches.Valid;
    var f := Boot(1);
    n, left := TakeAll(f, 0);
  }

  /** What callers hold is disjoint, and none of it is free. */
  lemma HandedOutApart(s: State, n: nat, m: nat, owner: map<nat, Owner>, stacks: seq<seq<nat>>, x: nat, y: nat, f: nat)
    requires BuddyBlocks.Valid(s, n, m) && Accounted(s.live, owner, stacks)
    requires x in HandedOut(owner) && Within(f, x, OrderOf(HandedOut(owner)[x]))
    ensures f < n && !Covers(s.free, f)
    ensures y in HandedOut(owner) && y != x ==> !Within(f, y, OrderOf(HandedOut(owner)[y]))
  {
    assert x in All(s) && s.live[x] == OrderOf(owner[x]);
    FrameInRange(All(s), x, n, m, f);
    FreeIsNotLive(s, n, m, f);
    assert Covers(s.live, f);
    if y in HandedOut(owner) && y != x {
      LiveApart(All(s), y, x, f);
    }
  }
}
