/** The kernel heap.

    Requests of up to 1024 bytes are served from slabs of the least of nine object sizes,
    through a list per core and size; larger ones get whole blocks of frames, whose orders
    are kept in a table by first frame.  `free` tells the two apart by alignment.

    Lists per core have their head last.
  */
module SlabHeap {
  import opened Words
  import opened Dyadic
  import opened BuddyBlocks
  import FreeLists
  import opened Physmem
  import opened CoreCaches
  import opened Sequences
  import opened SlabObjects

  const NONE: nat := 0xFF
  const MAX_KEPT := 64
  const REFILL_KEPT := 32

  function Max(a: int, b: int): int { if a < b then b else a }

  function Min(a: int, b: int): int { if a < b then a else b }

  type Lists = seq<seq<seq<nat>>>

  ghost predicate KeptAt(slabs: map<nat, Slab>, place: map<nat, Where>, c: nat, k: nat, j: nat, a: nat) {
    && a in place && place[a] == Kept(c, k, j)
    && k < CLASSES && FrameOf(a) in slabs && slabs[FrameOf(a)].objectSize == SIZES[k]
  }

  ghost predicate HasKept(lists: Lists, a: nat, w: Where) {
    w.Kept? ==>
      && w.core < |lists| && w.k < |lists[w.core]| && w.slot < |lists[w.core][w.k]|
      && lists[w.core][w.k][w.slot] == a
  }

  /** The lists of the cores have exactly the objects that are kept there, each in the list of
      its size. */
  ghost predicate CoresOk(slabs: map<nat, Slab>, place: map<nat, Where>, lists: Lists) {
    && (forall c :: 0 <= c < |lists| ==> |lists[c]| == CLASSES)
    && (forall c, k, j :: 0 <= c < |lists| && 0 <= k < |lists[c]| && 0 <= j < |lists[c][k]| ==>
          KeptAt(slabs, place, c, k, j, lists[c][k][j]))
    && (forall a :: a in place ==> HasKept(lists, a, place[a]))
  }

  lemma KeepObject(slabs: map<nat, Slab>, place: map<nat, Where>, lists: Lists, c: nat, k: nat, a: nat)
    requires CoresOk(slabs, place, lists) && c < |lists| && k < CLASSES && a in place && place[a] == Held
    requires FrameOf(a) in slabs && slabs[FrameOf(a)].objectSize == SIZES[k]
    ensures CoresOk(slabs, place[a := Kept(c, k, |lists[c][k]|)], lists[c := lists[c][k := lists[c][k] + [a]]])
  {
    hide FrameOf;
    var place', lists' := place[a := Kept(c, k, |lists[c][k]|)], lists[c := lists[c][k := lists[c][k] + [a]]];
    forall d, m, j | 0 <= d < |lists'| && 0 <= m < |lists'[d]| && 0 <= j < |lists'[d][m]|
      ensures KeptAt(slabs, place', d, m, j, lists'[d][m][j])
    {
      assert !(d == c && m == k && j == |lists[c][k]|) ==> KeptAt(slabs, place, d, m, j, lists[d][m][j]);
    }
  }

  lemma LetGo(slabs: map<nat, Slab>, place: map<nat, Where>, lists: Lists, c: nat, k: nat)
    requires CoresOk(slabs, place, lists) && c < |lists| && k < CLASSES && lists[c][k] != []
    ensures var a := lists[c][k][|lists[c][k]| - 1];
            && KeptAt(slabs, place, c, k, |lists[c][k]| - 1, a)
            && CoresOk(slabs, place[a := Held], lists[c := lists[c][k := lists[c][k][..|lists[c][k]| - 1]]])
  {
    hide FrameOf;
    var n := |lists[c][k]| - 1;
    var a := lists[c][k][n];
    assert KeptAt(slabs, place, c, k, n, a);
    var place', lists' := place[a := Held], lists[c := lists[c][k := lists[c][k][..n]]];
    forall d, m, j | 0 <= d < |lists'| && 0 <= m < |lists'[d]| && 0 <= j < |lists'[d][m]|
      ensures KeptAt(slabs, place', d, m, j, lists'[d][m][j])
    {
      assert lists'[d][m][j] == lists[d][m][j];
      assert KeptAt(slabs, place, d, m, j, lists[d][m][j]);
    }
  }

  /** What the cores keep does not change when other objects come and go. */
  lemma SameKept(slabs: map<nat, Slab>, slabs': map<nat, Slab>, place: map<nat, Where>, place': map<nat, Where>,
                 lists: Lists)
    requires CoresOk(slabs, place, lists)
    requires forall a :: a in place && place[a].Kept? ==>
               && a in place' && place'[a] == place[a] && FrameOf(a) in slabs'
               && (FrameOf(a) in slabs ==> slabs'[FrameOf(a)].objectSize == slabs[FrameOf(a)].objectSize)
    requires forall a :: a in place' && place'[a].Kept? ==> a in place && place[a] == place'[a]
    ensures CoresOk(slabs', place', lists)
  {
    hide FrameOf;
    forall c, k, j | 0 <= c < |lists| && 0 <= k < |lists[c]| && 0 <= j < |lists[c][k]|
      ensures KeptAt(slabs', place', c, k, j, lists[c][k][j])
    {
      assert KeptAt(slabs, place, c, k, j, lists[c][k][j]);
    }
    forall a | a in place' ensures HasKept(lists, a, place'[a]) {
      if place'[a].Kept? { assert HasKept(lists, a, place[a]); }
    }
  }

  // ----- The frames of the heap -----

  predicate Tracked(orders: seq<nat>, f: nat) {
    f < |orders| && orders[f] != NONE
  }

  /** The heap owns its slabs and its large blocks. */
  ghost predicate Backed(slabs: map<nat, Slab>, orders: seq<nat>, handed: map<nat, Owner>) {
    && (forall f :: f in slabs ==> f in handed && handed[f] == Page)
    && (forall f: nat :: Tracked(orders, f) ==> f in handed && handed[f] == Client(orders[f]))
  }

  /** The frames that others own. */
  ghost function Others(slabs: map<nat, Slab>, orders: seq<nat>, handed: map<nat, Owner>): map<nat, Owner> {
    map f | f in handed && f !in slabs && !Tracked(orders, f) :: handed[f]
  }

  ghost function LargeFrames(orders: seq<nat>): set<nat> {
    set f: nat | f < |orders| && Tracked(orders, f)
  }

  ghost function Small(place: map<nat, Where>): set<nat> {
    set a | a in place && place[a] == Held
  }

  ghost function SizeAt(slabs: map<nat, Slab>, a: nat): nat {
    if FrameOf(a) in slabs then slabs[FrameOf(a)].objectSize else 0
  }

  ghost function LiveLarge(orders: seq<nat>): map<nat, nat> {
    map a | a in (set f | f in LargeFrames(orders) :: Base(f)) :: LargeSize(orders, FrameOf(a))
  }

  ghost function LiveSmall(slabs: map<nat, Slab>, place: map<nat, Where>): map<nat, nat> {
    map a | a in Small(place) :: SizeAt(slabs, a)
  }

  /** The blocks that callers have, each with the number of bytes it is good for. */
  ghost function Live(slabs: map<nat, Slab>, place: map<nat, Where>, orders: seq<nat>): map<nat, nat> {
    LiveSmall(slabs, place) + LiveLarge(orders)
  }

  function LargeSize(orders: seq<nat>, f: nat): nat {
    if f < |orders| then FRAME * Pow2(orders[f]) else 0
  }

  lemma FrameGone(slabs: map<nat, Slab>, orders: seq<nat>, handed: map<nat, Owner>, f: nat)
    requires Backed(slabs, orders, handed) && f in slabs
    ensures Backed(slabs - {f}, orders, handed) && f !in Others(slabs, orders, handed)
    ensures Others(slabs - {f}, orders, handed) == Others(slabs, orders, handed)[f := Page]
  {
  }

  lemma FrameCame(slabs: map<nat, Slab>, orders: seq<nat>, handed: map<nat, Owner>, f: nat, s: Slab)
    requires Backed(slabs, orders, handed) && f in Others(slabs, orders, handed) &&
             Others(slabs, orders, handed)[f] == Page
    ensures f !in slabs && Backed(slabs[f := s], orders, handed)
    ensures Others(slabs[f := s], orders, handed) == Others(slabs, orders, handed) - {f}
  {
  }

  lemma OtherCame(slabs: map<nat, Slab>, orders: seq<nat>, handed: map<nat, Owner>, f: nat)
    requires Backed(slabs, orders, handed) && f !in handed
    ensures Backed(slabs, orders, handed[f := Page]) && f !in Others(slabs, orders, handed)
    ensures Others(slabs, orders, handed[f := Page]) == Others(slabs, orders, handed)[f := Page]
  {
  }

  lemma OtherGone(slabs: map<nat, Slab>, orders: seq<nat>, owner: map<nat, Owner>, f: nat)
    requires var handed := HandedOut(owner);
             Backed(slabs, orders, handed) && f in Others(slabs, orders, handed) &&
               Others(slabs, orders, handed)[f] == Page
    ensures var handed := HandedOut(owner);
            && f in owner && owner[f] == Page && Backed(slabs, orders, handed - {f})
            && Others(slabs, orders, handed - {f}) == Others(slabs, orders, handed) - {f}
  {
  }

  lemma LiveMore(slabs: map<nat, Slab>, slabs': map<nat, Slab>, place: map<nat, Where>, place': map<nat, Where>,
                 orders: seq<nat>, a: nat)
    requires Small(place') == Small(place) + {a} && !IsFrame(a)
    requires forall b :: b in Small(place) ==> SizeAt(slabs', b) == SizeAt(slabs, b)
    ensures Live(slabs', place', orders) == Live(slabs, place, orders)[a := SizeAt(slabs', a)]
    ensures a in Live(slabs, place, orders) ==> a in Small(place)
  {
    hide SizeAt, Small, IsFrame, FrameOf, LiveLarge;
    LargeAt(orders, a);
  }

  lemma LiveLess(slabs: map<nat, Slab>, slabs': map<nat, Slab>, place: map<nat, Where>, place': map<nat, Where>,
                 orders: seq<nat>, a: nat)
    requires Small(place') == Small(place) - {a} && !IsFrame(a)
    requires forall b :: b in Small(place) && b != a ==> SizeAt(slabs', b) == SizeAt(slabs, b)
    ensures Live(slabs', place', orders) == Live(slabs, place, orders) - {a}
  {
    hide SizeAt, Small, IsFrame, FrameOf, LiveLarge;
    LargeAt(orders, a);
  }

  // ----- The lists of slabs of all classes -----

  ghost predicate AllSorted(slabs: map<nat, Slab>, caches: seq<Cache>) {
    |caches| == CLASSES && forall k :: 0 <= k < CLASSES ==> Sorted(slabs, SIZES[k], caches[k])
  }

  lemma SizesDiffer(j: nat, k: nat)
    requires j < CLASSES && k < CLASSES && j != k
    ensures SIZES[j] != SIZES[k]
  {
  }

  /** A change of one slab of class `k`, and of the lists of that class. */
  lemma OneClass(slabs: map<nat, Slab>, slabs': map<nat, Slab>, caches: seq<Cache>, k: nat, c: Cache, f: nat)
    requires AllSorted(slabs, caches) && k < CLASSES && slabs - {f} == slabs' - {f}
    requires f in slabs ==> slabs[f].objectSize == SIZES[k]
    requires f in slabs' ==> slabs'[f].objectSize == SIZES[k]
    requires Sorted(slabs', SIZES[k], c)
    ensures AllSorted(slabs', caches[k := c])
  {
    hide Sorted, Once;
    forall j | 0 <= j < CLASSES ensures Sorted(slabs', SIZES[j], caches[k := c][j]) {
      if j != k {
        SizesDiffer(j, k);
        Untouched(slabs, slabs', SIZES[j], caches[j], f);
      }
    }
  }

  lemma Untouched(slabs: map<nat, Slab>, slabs': map<nat, Slab>, size: nat, c: Cache, f: nat)
    requires size > 0 && Sorted(slabs, size, c) && slabs - {f} == slabs' - {f}
    requires FreeIn(slabs, size, f) == FreeIn(slabs', size, f)
    ensures Sorted(slabs', size, c)
  {
    assert InPlace(slabs, size, c, f);
    Resorted(slabs, slabs', size, c, c, f);
  }

  /** The lists after an object is taken from the first partial slab. */
  lemma TakenPartial(slabs: map<nat, Slab>, size: nat, c: Cache, f: nat)
    requires size in SIZES && Sorted(slabs, size, c) && c.partial != [] && f == c.partial[0]
    requires f in slabs && slabs[f].objectSize == size && slabs[f].free != [] && slabs[f].freeObjects > 0
    ensures Sorted(Popped(slabs, f), size,
                   if slabs[f].freeObjects == 1 then c.(partial := c.partial[1..], full := [f] + c.full) else c)
  {
    hide Once;
    Layout(size);
    assert InPlace(slabs, size, c, f);
    PopOnce(c.partial);
    PushOnce(c.full, f);
    var c' := if slabs[f].freeObjects == 1 then c.(partial := c.partial[1..], full := [f] + c.full) else c;
    Resorted(slabs, Popped(slabs, f), size, c, c', f);
  }

  /** The lists after an object is taken from a slab without lent objects, which has been put
      on the partial list. */
  lemma TakenEmpty(slabs: map<nat, Slab>, size: nat, c: Cache, f: nat)
    requires size in SIZES && Sorted(slabs, size, c) && c.empty != [] && f == c.empty[0]
    requires f in slabs && slabs[f].objectSize == size && slabs[f].free != [] && slabs[f].freeObjects > 0
    ensures c.numEmpty > 0
    ensures Sorted(Popped(slabs, f), size,
                   c.(empty := c.empty[1..], partial := [f] + c.partial, numEmpty := c.numEmpty - 1))
  {
    hide Once;
    Layout(size);
    assert InPlace(slabs, size, c, f);
    PopOnce(c.empty);
    PushOnce(c.partial, f);
    Resorted(slabs, Popped(slabs, f), size, c,
             c.(empty := c.empty[1..], partial := [f] + c.partial, numEmpty := c.numEmpty - 1), f);
  }

  lemma TakenNew(slabs: map<nat, Slab>, size: nat, c: Cache, f: nat, s: Slab)
    requires size in SIZES && Sorted(slabs, size, c) && f !in slabs && SlabOk(f, s) && s.objectSize == size &&
             s.freeObjects == Per(size)
    ensures s.free != [] && s.freeObjects > 0
    ensures Sorted(Popped(slabs[f := s], f), size, c.(partial := [f] + c.partial))
  {
    hide Once;
    Layout(size);
    assert InPlace(slabs, size, c, f);
    PushOnce(c.partial, f);
    Resorted(slabs, Popped(slabs[f := s], f), size, c, c.(partial := [f] + c.partial), f);
  }

  // ----- What a class has to give -----

  /** The free objects of the slabs of a list. */
  ghost function Spare(slabs: map<nat, Slab>, fs: seq<nat>): nat {
    if fs == [] then 0 else (if fs[0] in slabs then slabs[fs[0]].freeObjects else 0) + Spare(slabs, fs[1..])
  }

  ghost function ClassSpare(slabs: map<nat, Slab>, c: Cache): nat {
    Spare(slabs, c.partial) + Spare(slabs, c.empty)
  }

  lemma {:induction false} SpareKept(slabs: map<nat, Slab>, slabs': map<nat, Slab>, fs: seq<nat>, f: nat)
    requires f !in fs && slabs - {f} == slabs' - {f}
    ensures Spare(slabs', fs) == Spare(slabs, fs)
  {
    if fs != [] {
      assert fs[0] in slabs <==> fs[0] in slabs - {f};
      assert fs[0] in slabs' <==> fs[0] in slabs' - {f};
      SpareKept(slabs, slabs', fs[1..], f);
    }
  }

  lemma SpareTaken(slabs: map<nat, Slab>, size: nat, c: Cache, c': Cache, f: nat)
    requires size in SIZES && size > 0 && Sorted(slabs, size, c)
    requires f in slabs && slabs[f].objectSize == size && slabs[f].free != [] && slabs[f].freeObjects > 0
    requires if c.partial != [] then f == c.partial[0] && c'.empty == c.empty &&
             c'.partial == (if slabs[f].freeObjects == 1 then c.partial[1..] else c.partial)
             else c.empty != [] && f == c.empty[0] && c'.empty == c.empty[1..] && c'.partial == [f] + c.partial
    ensures ClassSpare(slabs, c) > 0 && ClassSpare(Popped(slabs, f), c') == ClassSpare(slabs, c) - 1
  {
    hide Once;
    Layout(size);
    assert InPlace(slabs, size, c, f);
    var slabs' := Popped(slabs, f);
    if c.partial != [] {
      PopOnce(c.partial);
      SpareKept(slabs, slabs', c.partial[1..], f);
      SpareKept(slabs, slabs', c.empty, f);
    } else {
      PopOnce(c.empty);
      SpareKept(slabs, slabs', c.empty[1..], f);
      assert c'.partial == [f];
    }
  }

  lemma SpareNew(slabs: map<nat, Slab>, orders: seq<nat>, handed: map<nat, Owner>, caches: seq<Cache>, k: nat, f: nat,
                 s: Slab)
    requires AllSorted(slabs, caches) && k < CLASSES && f in Others(slabs, orders, handed)
    ensures |caches| == CLASSES
    ensures ClassSpare(slabs[f := s], caches[k].(partial := [f] + caches[k].partial)) ==
            ClassSpare(slabs, caches[k]) + s.freeObjects
  {
    hide Once;
    var c := caches[k];
    Layout(SIZES[k]);
    assert Sorted(slabs, SIZES[k], c) && InPlace(slabs, SIZES[k], c, f);
    assert ([f] + c.partial)[1..] == c.partial;
    SpareKept(slabs, slabs[f := s], c.partial, f);
    SpareKept(slabs, slabs[f := s], c.empty, f);
  }

  /** The lists after an object is put back. */
  function PutBack(c: Cache, f: nat, free: nat, per: int): Cache {
    if free == per then
      if c.numEmpty >= KEPT_EMPTY then c.(partial := Without(c.partial, f))
      else c.(partial := Without(c.partial, f), empty := [f] + c.empty, numEmpty := c.numEmpty + 1)
    else if free == 1 then c.(full := Without(c.full, f), partial := [f] + c.partial)
    else c
  }

  lemma Returned(slabs: map<nat, Slab>, size: nat, c: Cache, a: nat)
    requires size in SIZES && Sorted(slabs, size, c) && FrameOf(a) in slabs && slabs[FrameOf(a)].objectSize == size
    requires slabs[FrameOf(a)].freeObjects < Per(size)
    ensures var f := FrameOf(a); var n := slabs[f].freeObjects + 1; var c' := PutBack(c, f, n, Per(size));
            Sorted(if n == Per(size) && c.numEmpty >= KEPT_EMPTY then Pushed(slabs, a) - {f}
                   else Pushed(slabs, a), size, c')
  {
    hide Once, Without, FrameOf;
    Layout(size);
    var f := FrameOf(a);
    assert InPlace(slabs, size, c, f);
    WithoutMember(c.partial, f);
    WithoutMember(c.full, f);
    PushOnce(c.empty, f);
    var n := slabs[f].freeObjects + 1;
    if n == 1 { PushOnce(c.partial, f); }
    var c' := PutBack(c, f, n, Per(size));
    if n == Per(size) && c.numEmpty >= KEPT_EMPTY {
      Resorted(slabs, Pushed(slabs, a) - {f}, size, c, c', f);
    } else {
      Resorted(slabs, Pushed(slabs, a), size, c, c', f);
    }
  }

  // ----- Objects come and go -----

  lemma SameFrames(slabs: map<nat, Slab>, slabs': map<nat, Slab>, orders: seq<nat>, handed: map<nat, Owner>)
    requires slabs'.Keys == slabs.Keys && Backed(slabs, orders, handed)
    ensures Backed(slabs', orders, handed) && Others(slabs', orders, handed) == Others(slabs, orders, handed)
  {
    assert forall f :: f in slabs <==> f in slabs.Keys;
    assert forall f :: f in slabs' <==> f in slabs'.Keys;
  }

  /** Taking the first object of a slab's free list. */
  lemma Lend(slabs: map<nat, Slab>, place: map<nat, Where>, lists: Lists, orders: seq<nat>, f: nat)
    requires SlabsOk(slabs, place) && CoresOk(slabs, place, lists) && f in slabs && slabs[f].freeObjects > 0
    ensures slabs[f].free != []
    ensures var a, slabs' := slabs[f].free[0], Popped(slabs, f); var place' := place[a := Held];
            && SlabsOk(slabs', place') && CoresOk(slabs', place', lists) && a !in Live(slabs, place, orders)
            && Live(slabs', place', orders) == Live(slabs, place, orders)[a := slabs[f].objectSize]
            && slabs'.Keys == slabs.Keys && SizeAt(slabs', a) == slabs[f].objectSize
  {
    hide SlabsOk, CoresOk, IsObject, FrameOf, IsFrame, Live;
    PopObject(slabs, place, f);
    var a, slabs' := slabs[f].free[0], Popped(slabs, f);
    var place' := place[a := Held];
    assert SlabOk(f, slabs[f]) by { LooksOk(slabs, place, f); }
    ObjectFrame(f, slabs[f].objectSize, a);
    Located(slabs, place);
    SameKept(slabs, slabs', place, place', lists);
    assert Small(place') == Small(place) + {a};
    LiveMore(slabs, slabs', place, place', orders, a);
  }

  lemma LooksOk(slabs: map<nat, Slab>, place: map<nat, Where>, f: nat)
    requires SlabsOk(slabs, place) && f in slabs
    ensures SlabOk(f, slabs[f])
  {
  }

  lemma Located(slabs: map<nat, Slab>, place: map<nat, Where>)
    requires SlabsOk(slabs, place)
    ensures forall a :: a in place ==> FrameOf(a) in slabs && !IsFrame(a)
  {
    hide IsObject, FrameOf, IsFrame;
    forall a | a in place ensures FrameOf(a) in slabs && !IsFrame(a) {
      assert Lent(slabs, a);
      assert SlabOk(FrameOf(a), slabs[FrameOf(a)]);
      ObjectFrame(FrameOf(a), slabs[FrameOf(a)].objectSize, a);
    }
  }

  lemma FirstPartial(slabs: map<nat, Slab>, caches: seq<Cache>, k: nat)
    requires AllSorted(slabs, caches) && k < CLASSES
    ensures |caches| == CLASSES && SIZES[k] in SIZES && Sorted(slabs, SIZES[k], caches[k])
    ensures forall f :: f in caches[k].partial ==> FreeIn(slabs, SIZES[k], f) > 0
    ensures forall f :: f in caches[k].empty ==> FreeIn(slabs, SIZES[k], f) > 0
  {
    Layout(SIZES[k]);
    forall f | f in caches[k].partial || f in caches[k].empty ensures FreeIn(slabs, SIZES[k], f) > 0 {
      assert InPlace(slabs, SIZES[k], caches[k], f);
    }
  }

  lemma NewKept(slabs: map<nat, Slab>, place: map<nat, Where>, lists: Lists, orders: seq<nat>, f: nat, s: Slab)
    requires SlabsOk(slabs, place) && CoresOk(slabs, place, lists) && f !in slabs
    ensures CoresOk(slabs[f := s], place, lists) && Live(slabs[f := s], place, orders) == Live(slabs, place, orders)
  {
    hide SlabsOk, CoresOk, IsObject, FrameOf, IsFrame, LiveLarge;
    Located(slabs, place);
    SameKept(slabs, slabs[f := s], place, place, lists);
  }

  lemma NextAddr(f: nat, size: nat, i: nat)
    requires size > 0
    ensures Addr(f, size, i + 1) == Addr(f, size, i) + size && Addr(f, size, 0) == Base(f) + First(size)
  {
    assert (i + 1) * size == i * size + size;
  }

  lemma {:induction false} AddrGrows(f: nat, size: nat, i: nat, j: nat)
    requires size > 0 && i < j
    ensures Addr(f, size, i) < Addr(f, size, j)
  {
    hide Addr;
    NextAddr(f, size, j - 1);
    if i < j - 1 { AddrGrows(f, size, i, j - 1); }
  }

  lemma Carved(f: nat, size: nat, free: seq<nat>)
    requires size in SIZES && size > 0 && |free| == Per(size) && forall j :: 0 <= j < |free| ==>
             free[j] == Addr(f, size, j)
    ensures SlabOk(f, Slab(size, free, |free|))
  {
    hide Addr, Per;
    forall i, j | 0 <= i < j < |free| ensures free[i] != free[j] {
      AddrGrows(f, size, i, j);
    }
    forall a | a in free ensures IsObject(f, size, a) {
      var j: nat :| j < |free| && free[j] == a;
      assert a == Addr(f, size, j);
    }
  }

  /** `slab_create`: the free list of a new slab runs through the objects in order. */
  method Carve(f: nat, size: nat) returns (s: Slab)
    requires size in SIZES
    ensures SlabOk(f, s) && s.objectSize == size && s.freeObjects == Per(size)
    ensures size > 0 && forall i :: 0 <= i < |s.free| ==> s.free[i] == Addr(f, size, i)
  {
    Layout(size);
    var per := FRAME / size - (HEADER + size - 1) / size;
    var metadata := FRAME / size - per;
    var current := Base(f) + metadata * size;
    assert per == Per(size) && current == Base(f) + First(size);
    hide Addr, Per, SlabOk, Base, First;
    NextAddr(f, size, 0);
    var free := [];
    var i := 0;
    while i < per
      invariant 0 <= i == |free| <= per && current == Addr(f, size, i)
      invariant forall j :: 0 <= j < i ==> free[j] == Addr(f, size, j)
    {
      NextAddr(f, size, i);
      free := free + [current];
      current := current + size;
      i := i + 1;
    }
    s := Slab(size, free, per);
    Carved(f, size, free);
  }

  /** Taking the first object of a new slab. */
  lemma FromCreated(slabs: map<nat, Slab>, place: map<nat, Where>, lists: Lists, orders: seq<nat>, caches: seq<Cache>,
                    handed: map<nat, Owner>, k: nat, f: nat, s: Slab)
    requires SlabsOk(slabs, place) && CoresOk(slabs, place, lists) && AllSorted(slabs, caches) && k < CLASSES
    requires Backed(slabs, orders, handed) && f in Others(slabs, orders, handed) &&
             Others(slabs, orders, handed)[f] == Page
    requires SlabOk(f, s) && s.objectSize == SIZES[k] && s.freeObjects == Per(SIZES[k])
    ensures s.free != [] && s.freeObjects > 0
    ensures var a, slabs' := s.free[0], slabs[f := Slab(s.objectSize, s.free[1..], s.freeObjects - 1)];
            var place' := place[a := Held];
            && SlabsOk(slabs', place') && CoresOk(slabs', place', lists) && a !in Live(slabs, place, orders)
            && Live(slabs', place', orders) == Live(slabs, place, orders)[a := SIZES[k]] &&
              SizeAt(slabs', a) == SIZES[k]
            && AllSorted(slabs', caches[k := caches[k].(partial := [f] + caches[k].partial)])
            && Backed(slabs', orders, handed) && Others(slabs', orders, handed) == Others(slabs, orders, handed) - {f}
  {
    hide Once, Backed, Others, IsObject, FrameOf, IsFrame, Live, SlabsOk, CoresOk, AllSorted, SizeAt, SlabOk, Sorted;
    FirstPartial(slabs, caches, k);
    FrameCame(slabs, orders, handed, f, s);
    TakenNew(slabs, SIZES[k], caches[k], f, s);
    var slabs1 := slabs[f := s];
    var slabs' := slabs[f := Slab(s.objectSize, s.free[1..], s.freeObjects - 1)];
    NewSlab(slabs, place, f, s);
    NewKept(slabs, place, lists, orders, f, s);
    assert slabs' == Popped(slabs1, f);
    Lend(slabs1, place, lists, orders, f);
    SameFrames(slabs1, slabs', orders, handed);
    OneClass(slabs, slabs', caches, k, caches[k].(partial := [f] + caches[k].partial), f);
  }

  lemma StartOk(caches: seq<Cache>, lists: Lists, orders: seq<nat>)
    requires |caches| == CLASSES && (forall k :: 0 <= k < CLASSES ==> caches[k] == Cache([], [], [], 0))
    requires forall c :: 0 <= c < |lists| ==> |lists[c]| == CLASSES && forall k :: 0 <= k < CLASSES ==>
             lists[c][k] == []
    requires forall f :: 0 <= f < |orders| ==> orders[f] == NONE
    ensures SlabsOk(map[], map[]) && AllSorted(map[], caches) && CoresOk(map[], map[], lists)
    ensures Backed(map[], orders, HandedOut(map[])) && Live(map[], map[], orders) == map[]
    ensures Others(map[], orders, HandedOut(map[])) == map[]
  {
    forall k | 0 <= k < CLASSES ensures Sorted(map[], SIZES[k], caches[k]) {
      Layout(SIZES[k]);
    }
  }

  /** Putting a held object into the list of a core. */
  lemma Keep(slabs: map<nat, Slab>, place: map<nat, Where>, lists: Lists, orders: seq<nat>, c: nat, k: nat, a: nat)
    requires SlabsOk(slabs, place) && CoresOk(slabs, place, lists) && c < |lists| && k < CLASSES
    requires a in place && place[a] == Held && SizeAt(slabs, a) == SIZES[k]
    ensures |lists[c]| == CLASSES
    ensures var place' := place[a := Kept(c, k, |lists[c][k]|)];
            && SlabsOk(slabs, place') && CoresOk(slabs, place', lists[c := lists[c][k := lists[c][k] + [a]]])
            && Live(slabs, place', orders) == Live(slabs, place, orders) - {a}
  {
    hide Lent, SlabOk, FrameOf, IsFrame, Live;
    assert |lists[c]| == CLASSES;
    Located(slabs, place);
    var place' := place[a := Kept(c, k, |lists[c][k]|)];
    KeepObject(slabs, place, lists, c, k, a) by { assert FrameOf(a) in slabs; }
    assert Small(place') == Small(place) - {a};
    LiveLess(slabs, slabs, place, place', orders, a);
  }

  /** Taking the first object of the list of a core. */
  lemma Unkeep(slabs: map<nat, Slab>, place: map<nat, Where>, lists: Lists, orders: seq<nat>, c: nat, k: nat)
    requires SlabsOk(slabs, place) && CoresOk(slabs, place, lists) && c < |lists| && k < CLASSES
    requires |lists[c]| == CLASSES && lists[c][k] != []
    ensures var n := |lists[c][k]| - 1; var a := lists[c][k][n]; var place' := place[a := Held];
            && SlabsOk(slabs, place') && CoresOk(slabs, place', lists[c := lists[c][k := lists[c][k][..n]]])
            && a !in Live(slabs, place, orders) &&
              Live(slabs, place', orders) == Live(slabs, place, orders)[a := SIZES[k]]
            && SizeAt(slabs, a) == SIZES[k]
  {
    hide Lent, SlabOk, FrameOf, IsFrame, Live;
    LetGo(slabs, place, lists, c, k);
    Located(slabs, place);
    var a := lists[c][k][|lists[c][k]| - 1];
    var place' := place[a := Held];
    assert Small(place') == Small(place) + {a};
    LiveMore(slabs, slabs, place, place', orders, a);
  }

  /** Putting a held object back into its slab. */
  lemma GiveBack(slabs: map<nat, Slab>, place: map<nat, Where>, lists: Lists, orders: seq<nat>, a: nat)
    requires SlabsOk(slabs, place) && CoresOk(slabs, place, lists) && a in place && place[a] == Held
    ensures FrameOf(a) in slabs
    ensures var slabs', place' := Pushed(slabs, a), place - {a};
            && SlabsOk(slabs', place') && CoresOk(slabs', place', lists) && slabs'.Keys == slabs.Keys
            && Live(slabs', place', orders) == Live(slabs, place, orders) - {a}
  {
    hide SlabsOk, CoresOk, IsObject, FrameOf, IsFrame, Live;
    PushObject(slabs, place, a);
    Located(slabs, place);
    var slabs', place' := Pushed(slabs, a), place - {a};
    SameKept(slabs, slabs', place, place', lists);
    assert Small(place') == Small(place) - {a};
    LiveLess(slabs, slabs', place, place', orders, a);
  }

  /** Giving a slab back to the frame allocator. */
  lemma SlabGone(slabs: map<nat, Slab>, place: map<nat, Where>, lists: Lists, orders: seq<nat>, f: nat)
    requires SlabsOk(slabs, place) && CoresOk(slabs, place, lists)
    requires f in slabs && slabs[f].objectSize > 0 && slabs[f].freeObjects == Per(slabs[f].objectSize)
    ensures SlabsOk(slabs - {f}, place) && CoresOk(slabs - {f}, place, lists)
    ensures Live(slabs - {f}, place, orders) == Live(slabs, place, orders)
  {
    hide SlabsOk, CoresOk, IsObject, FrameOf, IsFrame, LiveLarge;
    DropSlab(slabs, place, f);
    Located(slabs, place);
    SameKept(slabs, slabs - {f}, place, place, lists);
  }

  /** The slab of a held object has a size, and the least class for that size is its class. */
  lemma SlabOf(slabs: map<nat, Slab>, place: map<nat, Where>, a: nat)
    requires SlabsOk(slabs, place) && a in place
    ensures FrameOf(a) in slabs && slabs[FrameOf(a)].objectSize in SIZES && !IsFrame(a)
    ensures SizeAt(slabs, a) == slabs[FrameOf(a)].objectSize
    ensures slabs[FrameOf(a)].freeObjects < Per(slabs[FrameOf(a)].objectSize)
  {
    hide IsObject, FrameOf, IsFrame;
    PushObject(slabs, place, a);
    Located(slabs, place);
    assert SlabOk(FrameOf(a), slabs[FrameOf(a)]);
  }

  /** The class whose objects have the given size. */
  method ClassOf(size: nat) returns (k: nat)
    requires size in SIZES
    ensures k < CLASSES && SIZES[k] == size
  {
    k := 0;
    while SIZES[k] != size
      invariant k < CLASSES && forall j :: 0 <= j < k ==> SIZES[j] != size
      decreases CLASSES - k
    {
      assert exists j :: 0 <= j < CLASSES && SIZES[j] == size;
      k := k + 1;
    }
  }

  /** What `slab_free` does to the books, the slab staying or going. */
  lemma FreedBooks(slabs: map<nat, Slab>, place: map<nat, Where>, lists: Lists, orders: seq<nat>, caches: seq<Cache>,
                   k: nat, a: nat, gone: bool)
    requires SlabsOk(slabs, place) && CoresOk(slabs, place, lists) && AllSorted(slabs, caches) && k < CLASSES
    requires a in place && place[a] == Held && FrameOf(a) in slabs && slabs[FrameOf(a)].objectSize == SIZES[k]
    requires |caches| == CLASSES
    requires gone <==> slabs[FrameOf(a)].freeObjects + 1 == Per(SIZES[k]) && caches[k].numEmpty >= KEPT_EMPTY
    ensures var f := FrameOf(a); var slabs' := if gone then Pushed(slabs, a) - {f} else Pushed(slabs, a);
            var place' := place - {a};
            && SlabsOk(slabs', place') && CoresOk(slabs', place', lists)
            && Live(slabs', place', orders) == Live(slabs, place, orders) - {a}
            && AllSorted(slabs', caches[k := PutBack(caches[k], f, slabs[f].freeObjects + 1, Per(SIZES[k]))])
  {
    hide SlabsOk, CoresOk, AllSorted, IsObject, FrameOf, IsFrame, Live, PutBack, Sorted;
    var f := FrameOf(a);
    SlabOf(slabs, place, a);
    FirstPartial(slabs, caches, k);
    GiveBack(slabs, place, lists, orders, a);
    Returned(slabs, SIZES[k], caches[k], a);
    var c := PutBack(caches[k], f, slabs[f].freeObjects + 1, Per(SIZES[k]));
    if gone {
      SlabGone(Pushed(slabs, a), place - {a}, lists, orders, f);
      OneClass(slabs, Pushed(slabs, a) - {f}, caches, k, c, f);
    } else {
      OneClass(slabs, Pushed(slabs, a), caches, k, c, f);
    }
  }

  lemma FreedFrame(slabs: map<nat, Slab>, orders: seq<nat>, handed: map<nat, Owner>, a: nat, gone: bool)
    requires Backed(slabs, orders, handed) && FrameOf(a) in slabs
    ensures var f := FrameOf(a); var slabs' := if gone then Pushed(slabs, a) - {f} else Pushed(slabs, a);
            && Backed(slabs', orders, handed) && f !in Others(slabs, orders, handed)
            && Others(slabs', orders, handed) == if gone then Others(slabs, orders, handed)[f := Page]
              else Others(slabs, orders, handed)
  {
    hide Backed, Others;
    SameFrames(slabs, Pushed(slabs, a), orders, handed);
    FrameGone(Pushed(slabs, a), orders, handed, FrameOf(a));
  }

  // ----- Large blocks -----

  lemma LargeAt(orders: seq<nat>, a: nat)
    ensures a in LiveLarge(orders) <==> IsFrame(a) && Tracked(orders, FrameOf(a))
    ensures a in LiveLarge(orders) ==> a == Base(FrameOf(a)) && LiveLarge(orders)[a] == FRAME * Pow2(orders[FrameOf(a)])
  {
    hide Pow2;
    if a in LiveLarge(orders) {
      var f :| f in LargeFrames(orders) && a == Base(f);
      FrameAddress(f);
    }
    if IsFrame(a) && Tracked(orders, FrameOf(a)) {
      assert a == Base(FrameOf(a)) && FrameOf(a) in LargeFrames(orders);
    }
  }

  lemma LargeSet(orders: seq<nat>, f: nat, k: nat)
    requires f < |orders| && orders[f] == NONE && k != NONE
    ensures Base(f) !in LiveLarge(orders) && LiveLarge(orders[f := k]) == LiveLarge(orders)[Base(f) := FRAME * Pow2(k)]
  {
    hide Pow2, LiveLarge, IsFrame, FrameOf;
    FrameAddress(f);
    var l, l' := LiveLarge(orders), LiveLarge(orders[f := k]);
    LargeAt(orders, Base(f));
    forall a ensures a in l' <==> a in l || a == Base(f) {
      LargeAt(orders, a);
      LargeAt(orders[f := k], a);
    }
    forall a | a in l' ensures l'[a] == if a == Base(f) then FRAME * Pow2(k) else l[a] {
      LargeAt(orders, a);
      LargeAt(orders[f := k], a);
    }
  }

  lemma LargeCut(orders: seq<nat>, f: nat)
    requires Tracked(orders, f)
    ensures LiveLarge(orders[f := NONE]) == LiveLarge(orders) - {Base(f)}
  {
    hide Pow2, LiveLarge, IsFrame, FrameOf;
    FrameAddress(f);
    var l, l' := LiveLarge(orders), LiveLarge(orders[f := NONE]);
    forall a ensures a in l' <==> a in l && a != Base(f) {
      LargeAt(orders, a);
      LargeAt(orders[f := NONE], a);
    }
    forall a | a in l' ensures l'[a] == l[a] {
      LargeAt(orders, a);
      LargeAt(orders[f := NONE], a);
    }
  }

  lemma JoinSet(m: map<nat, nat>, l: map<nat, nat>, b: nat, n: nat)
    requires b !in m
    ensures m + l[b := n] == (m + l)[b := n]
  {
  }

  lemma JoinCut(m: map<nat, nat>, l: map<nat, nat>, b: nat)
    requires b !in m
    ensures m + (l - {b}) == (m + l) - {b}
  {
  }

  lemma LargeMore(slabs: map<nat, Slab>, place: map<nat, Where>, orders: seq<nat>, f: nat, k: nat)
    requires SlabsOk(slabs, place) && f < |orders| && orders[f] == NONE && k != NONE
    ensures Base(f) !in Live(slabs, place, orders)
    ensures Live(slabs, place, orders[f := k]) == Live(slabs, place, orders)[Base(f) := FRAME * Pow2(k)]
  {
    hide SlabsOk, SizeAt, Pow2, LiveLarge, IsFrame, FrameOf;
    Located(slabs, place);
    FrameAddress(f);
    LargeSet(orders, f, k);
    JoinSet(LiveSmall(slabs, place), LiveLarge(orders), Base(f), FRAME * Pow2(k));
  }

  lemma LargeLess(slabs: map<nat, Slab>, place: map<nat, Where>, orders: seq<nat>, f: nat)
    requires SlabsOk(slabs, place) && Tracked(orders, f)
    ensures Live(slabs, place, orders[f := NONE]) == Live(slabs, place, orders) - {Base(f)}
  {
    hide SlabsOk, SizeAt, Pow2, LiveLarge, IsFrame, FrameOf;
    Located(slabs, place);
    FrameAddress(f);
    LargeCut(orders, f);
    JoinCut(LiveSmall(slabs, place), LiveLarge(orders), Base(f));
  }

  lemma BlockCame(slabs: map<nat, Slab>, orders: seq<nat>, handed: map<nat, Owner>, f: nat, k: nat)
    requires Backed(slabs, orders, handed) && f < |orders| && f !in handed && k != NONE
    ensures orders[f] == NONE && Backed(slabs, orders[f := k], handed[f := Client(k)])
    ensures Others(slabs, orders[f := k], handed[f := Client(k)]) == Others(slabs, orders, handed)
  {
    assert !Tracked(orders, f);
    assert forall g: nat :: g != f ==> (Tracked(orders[f := k], g) <==> Tracked(orders, g));
  }

  lemma BlockGone(slabs: map<nat, Slab>, orders: seq<nat>, owner: map<nat, Owner>, f: nat)
    requires Backed(slabs, orders, HandedOut(owner)) && Tracked(orders, f)
    ensures f in owner && owner[f] == Client(orders[f])
    ensures Backed(slabs, orders[f := NONE], HandedOut(owner) - {f})
    ensures Others(slabs, orders[f := NONE], HandedOut(owner) - {f}) == Others(slabs, orders, HandedOut(owner))
  {
    assert forall g: nat :: g != f ==> (Tracked(orders[f := NONE], g) <==> Tracked(orders, g));
  }

  /** A block of a caller is at the start of a frame if and only if it is a large one. */
  lemma Routed(slabs: map<nat, Slab>, place: map<nat, Where>, orders: seq<nat>, a: nat)
    requires SlabsOk(slabs, place) && a in Live(slabs, place, orders)
    ensures IsFrame(a) <==> Tracked(orders, FrameOf(a)) && a == Base(FrameOf(a))
    ensures !IsFrame(a) <==> a in place && place[a] == Held
    ensures !IsFrame(a) ==> SizeAt(slabs, a) == Live(slabs, place, orders)[a]
    ensures IsFrame(a) ==> Base(0) <= a < Base(|orders|)
  {
    hide SlabsOk, SizeAt, LiveLarge;
    Located(slabs, place);
    LargeAt(orders, a);
  }

  /** The least order whose blocks have room for `size` bytes, or -1 if there is none. */
  method OrderFor(size: nat, max: nat) returns (k: int)
    ensures k == -1 <==> FRAME * Pow2(max) < size
    ensures k != -1 ==> 0 <= k <= max && LeastOrder(size, k)
    ensures forall j: nat :: j <= max && LeastOrder(size, j) ==> k == j
  {
    k := 0;
    var bytes := FRAME;
    while bytes < size
      invariant 0 <= k <= max && bytes == FRAME * Pow2(k) && forall j: nat :: j < k ==> FRAME * Pow2(j) < size
      decreases max - k
    {
      if k >= max {
        return -1;
      }
      k := k + 1;
      bytes := bytes * 2;
    }
    MorePow2(k, max);
  }

  lemma {:induction false} MorePow2(k: nat, m: nat)
    requires k <= m
    ensures Pow2(k) <= Pow2(m)
    decreases m
  {
    if k < m { MorePow2(k, m - 1); }
  }

  /** The first class with room for `size` bytes; none if the size is above all of them. */
  method ClassFor(size: nat) returns (k: nat)
    ensures k <= CLASSES && (k == CLASSES <==> size > 1024)
    ensures k < CLASSES ==> size <= SIZES[k]
    ensures forall j :: 0 <= j < k ==> SIZES[j] < size
  {
    k := 0;
    while k < CLASSES && SIZES[k] < size
      invariant k <= CLASSES && forall j :: 0 <= j < k ==> SIZES[j] < size
    {
      k := k + 1;
    }
    assert SIZES[8] == 1024;
    assert forall j :: 0 <= j < CLASSES ==> SIZES[j] <= 1024;
  }

  ghost predicate LeastOrder(size: nat, k: nat) {
    size <= FRAME * Pow2(k) && forall j: nat :: j < k ==> FRAME * Pow2(j) < size
  }

  /** The size of the block that serves a request. */
  ghost predicate Serves(size: nat, bytes: nat) {
    && size <= bytes
    && if size <= 1024
       then bytes in SIZES && forall z :: z in SIZES && size <= z ==> bytes <= z
       else exists k: nat :: LeastOrder(size, k) && bytes == FRAME * Pow2(k)
  }

  lemma InMemory(fc: FrameCaches, x: nat)
    requires fc.Valid() && x in HandedOut(fc.owner)
    ensures x < fc.buddy.frames
  {
    hide BuddyBlocks.Valid, FreeLists.Inv, Accounted;
    var w := HandedOut(fc.owner)[x];
    assert Within(x, x, OrderOf(w));
    HandedOutApart(State(fc.buddy.free, fc.buddy.live), fc.buddy.frames, fc.buddy.maxOrder, fc.owner, fc.stacks, x, x,
                   x);
  }

  function PerFrame(k: nat): (r: nat)
    requires k < CLASSES
    ensures r > 0
  {
    Layout(SIZES[k]);
    Per(SIZES[k])
  }

  /** Spare objects, and `per` more from each of `n` frames. */
  function Stock(spare: nat, per: nat, n: nat): nat {
    spare + per * n
  }

  lemma StockTaken(spare: nat, per: nat, n: nat)
    requires spare > 0
    ensures Stock(spare, per, n) > 0 && Stock(spare - 1, per, n) == Stock(spare, per, n) - 1
  {
  }

  /** With nothing spare, an object is to be had exactly when a frame is. */
  lemma StockOpened(slabs: map<nat, Slab>, c: Cache, per: nat, n: nat)
    requires c.partial == [] && c.empty == [] && per > 0
    ensures ClassSpare(slabs, c) == 0 && (Stock(0, per, n) > 0 <==> n > 0)
    ensures n > 0 ==> Stock(per - 1, per, n - 1) == Stock(0, per, n) - 1
  {
    if n > 0 { assert per * n == per * (n - 1) + per; }
  }

  lemma ServedBy(size: nat, k: nat)
    requires k < CLASSES && 0 < size <= SIZES[k] && forall j :: 0 <= j < k ==> SIZES[j] < size
    ensures size <= 1024 && Serves(size, SIZES[k])
    ensures forall j :: 0 <= j < CLASSES && Serves(size, SIZES[j]) ==> j == k
  {
    assert SIZES[k] <= 1024;
    assert forall i, j :: 0 <= i < j < CLASSES ==> SIZES[i] < SIZES[j];
    forall j | 0 <= j < CLASSES && Serves(size, SIZES[j]) ensures j == k {
      assert SIZES[k] in SIZES && SIZES[j] in SIZES;
    }
  }

  ghost predicate SizesOk(lists: Lists, sizes: seq<seq<nat>>) {
    |sizes| == |lists| && forall c :: 0 <= c < |lists| ==>
      |sizes[c]| == |lists[c]| == CLASSES && forall k :: 0 <= k < |lists[c]| ==> sizes[c][k] == |lists[c][k]|
  }

  // ----- The heap -----

  class Heap {
    const frames: FrameCaches
    const orders: array<nat>
    var slabs: map<nat, Slab>
    var caches: seq<Cache>
    var lists: Lists
    var sizes: seq<seq<nat>>
    ghost var place: map<nat, Where>

    ghost function Repr(): set<object> {
      {this, orders} + frames.Repr()
    }

    ghost predicate Books()
      reads this
    {
      |caches| == CLASSES && SlabsOk(slabs, place) && AllSorted(slabs, caches) && CoresOk(slabs, place, lists)
    }

    ghost predicate Valid()
      reads Repr()
    {
      && this !in frames.Repr() && orders !in frames.Repr() && frames.Valid() && frames.buddy.maxOrder < NONE
      && |lists| == frames.count.Length && orders.Length == frames.buddy.frames
      && Books() && SizesOk(lists, sizes) && Backed(slabs, orders[..], HandedOut(frames.owner))
    }

    /** How many objects of class `k` core `core` keeps. */
    ghost function KeptCount(core: nat, k: nat): nat
      reads this
    {
      if core < |sizes| && k < |sizes[core]| then sizes[core][k] else 0
    }

    ghost function LiveBlocks(): map<nat, nat>
      reads this, orders
    {
      Live(slabs, place, orders[..])
    }

    ghost function OtherFrames(): map<nat, Owner>
      reads this, orders, frames
    {
      Others(slabs, orders[..], HandedOut(frames.owner))
    }

    /** The number of objects of class `k` that core `core` can have, one after another, from the
        slabs of the class and from slabs yet to be made. */
    ghost function Supply(core: nat, k: nat): nat
      requires core < frames.count.Length && k < CLASSES && |caches| == CLASSES
      reads this, frames, frames.count, frames.buddy
    {
      Stock(ClassSpare(slabs, caches[k]), PerFrame(k), frames.Available(core))
    }

    /** An object of class `k` has come to be held, and that is all that callers see. */
    twostate predicate Granted(k: nat, a: nat)
      requires k < CLASSES
      reads Repr()
    {
      && Valid() && a in place && place[a] == Held && SizeAt(slabs, a) == SIZES[k]
      && a !in old(LiveBlocks()) && LiveBlocks() == old(LiveBlocks())[a := SIZES[k]] &&
        OtherFrames() == old(OtherFrames())
    }

    constructor (cores: nat, n: nat, m: nat)
      requires n < Pow2(32) && m < 32
      ensures Valid() && LiveBlocks() == map[] && OtherFrames() == map[] && |lists| == cores
      ensures frames.buddy.frames == n && frames.buddy.maxOrder == m
    {
      hide BuddyBlocks.Valid, FreeLists.Inv, Pow2, SlabsOk, CoresOk, AllSorted, Live, Backed, Others, HandedOut,
           FrameCaches.Valid;
      frames := new FrameCaches(cores, n, m);
      orders := new nat[n](_ => NONE);
      slabs := map[];
      caches := seq(CLASSES, _ => Cache([], [], [], 0));
      lists := seq(cores, _ => seq(CLASSES, _ => []));
      sizes := seq(cores, _ => seq(CLASSES, _ => 0));
      place := map[];
      new;
      StartOk(caches, lists, orders[..]);
    }

    method FromPartial(k: nat) returns (a: nat)
      requires Valid() && k < CLASSES && caches[k].partial != []
      modifies `slabs, `caches, `place
      ensures Granted(k, a)
      ensures old(ClassSpare(slabs, caches[k])) > 0 &&
              ClassSpare(slabs, caches[k]) == old(ClassSpare(slabs, caches[k])) - 1
    {
      hide Once, Backed, Others, HandedOut, IsObject, FrameOf, IsFrame, Live, SlabsOk, CoresOk, AllSorted, SizeAt,
           FrameCaches.Valid, SizesOk, ClassSpare;
      FirstPartial(slabs, caches, k);
      var c := caches[k];
      var f := c.partial[0];
      assert FreeIn(slabs, SIZES[k], f) > 0;
      Lend(slabs, place, lists, orders[..], f);
      SameFrames(slabs, Popped(slabs, f), orders[..], HandedOut(frames.owner));
      TakenPartial(slabs, SIZES[k], c, f);
      a := slabs[f].free[0];
      ghost var slabs0 := slabs;
      slabs := slabs[f := Slab(slabs[f].objectSize, slabs[f].free[1..], slabs[f].freeObjects - 1)];
      if slabs[f].freeObjects == 0 {
        c := c.(partial := c.partial[1..], full := [f] + c.full);
      }
      OneClass(slabs0, slabs, caches, k, c, f);
      SpareTaken(slabs0, SIZES[k], caches[k], c, f);
      place := place[a := Held];
      caches := caches[k := c];
    }

    method FromEmpty(k: nat) returns (a: nat)
      requires Valid() && k < CLASSES && caches[k].partial == [] && caches[k].empty != []
      modifies `slabs, `caches, `place
      ensures Granted(k, a)
      ensures old(ClassSpare(slabs, caches[k])) > 0 &&
              ClassSpare(slabs, caches[k]) == old(ClassSpare(slabs, caches[k])) - 1
    {
      hide Once, Backed, Others, HandedOut, IsObject, FrameOf, IsFrame, Live, SlabsOk, CoresOk, AllSorted, SizeAt,
           FrameCaches.Valid, SizesOk, ClassSpare;
      FirstPartial(slabs, caches, k);
      var c := caches[k];
      var f := c.empty[0];
      assert FreeIn(slabs, SIZES[k], f) > 0;
      Lend(slabs, place, lists, orders[..], f);
      SameFrames(slabs, Popped(slabs, f), orders[..], HandedOut(frames.owner));
      TakenEmpty(slabs, SIZES[k], c, f);
      c := c.(empty := c.empty[1..], partial := [f] + c.partial, numEmpty := c.numEmpty - 1);
      a := slabs[f].free[0];
      ghost var slabs0 := slabs;
      slabs := slabs[f := Slab(slabs[f].objectSize, slabs[f].free[1..], slabs[f].freeObjects - 1)];
      OneClass(slabs0, slabs, caches, k, c, f);
      SpareTaken(slabs0, SIZES[k], caches[k], c, f);
      place := place[a := Held];
      caches := caches[k := c];
    }

    /** Makes a slab of frame `f` and takes its first object. */
    method SlabCreate(k: nat, f: nat) returns (a: nat)
      requires Valid() && k < CLASSES && f in OtherFrames() && OtherFrames()[f] == Page
      modifies `slabs, `caches, `place
      ensures Valid() && a in place && place[a] == Held && SizeAt(slabs, a) == SIZES[k]
      ensures a !in old(LiveBlocks()) && LiveBlocks() == old(LiveBlocks())[a := SIZES[k]] &&
              OtherFrames() == old(OtherFrames()) - {f}
      ensures ClassSpare(slabs, caches[k]) == old(ClassSpare(slabs, caches[k])) + PerFrame(k) - 1
    {
      hide Once, Backed, Others, HandedOut, IsObject, FrameOf, IsFrame, Live, SlabsOk, CoresOk, AllSorted, SizeAt,
           FrameCaches.Valid, SizesOk, SlabOk, Popped, Per, First, ClassSpare;
      var s := Carve(f, SIZES[k]);
      FromCreated(slabs, place, lists, orders[..], caches, HandedOut(frames.owner), k, f, s);
      SpareNew(slabs, orders[..], HandedOut(frames.owner), caches, k, f,
               Slab(s.objectSize, s.free[1..], s.freeObjects - 1));
      a := s.free[0];
      slabs := slabs[f := Slab(s.objectSize, s.free[1..], s.freeObjects - 1)];
      caches := caches[k := caches[k].(partial := [f] + caches[k].partial)];
      place := place[a := Held];
    }

    method FromNew(core: nat, k: nat) returns (ok: bool, a: nat)
      requires Valid() && core < |lists| && k < CLASSES && caches[k].partial == [] && caches[k].empty == []
      modifies `slabs, `caches, `place, frames.Repr()
      ensures ok <==> old(Supply(core, k)) > 0
      ensures ok ==> Granted(k, a) && Supply(core, k) == old(Supply(core, k)) - 1
    {
      hide Once, Backed, Others, HandedOut, IsObject, FrameOf, IsFrame, Live, SlabsOk, CoresOk, AllSorted, SizeAt,
           FrameCaches.Valid, SizesOk, ClassSpare, PerFrame, FrameCaches.Available, Stock;
      StockOpened(slabs, caches[k], PerFrame(k), frames.Available(core));
      ok, a := false, 0;
      ghost var handed := HandedOut(frames.owner);
      var p := frames.Alloc(core);
      if p == FreeLists.NIL {
        return;
      }
      OtherCame(slabs, orders[..], handed, p);
      ok := true;
      a := SlabCreate(k, p);
    }

    /** `slab_alloc`: the kernel stops when it needs a frame and there is none. */
    method SlabAlloc(core: nat, k: nat) returns (ok: bool, a: nat)
      requires Valid() && core < |lists| && k < CLASSES
      modifies `slabs, `caches, `place, frames.Repr()
      ensures ok <==> old(Supply(core, k)) > 0
      ensures ok ==> Granted(k, a) && Supply(core, k) == old(Supply(core, k)) - 1
    {
      hide Once, Backed, Others, HandedOut, IsObject, FrameOf, IsFrame, Live, SlabsOk, CoresOk, AllSorted, SizeAt,
           FrameCaches.Valid, SizesOk, ClassSpare, PerFrame, FrameCaches.Available, Stock;
      ghost var spare := ClassSpare(slabs, caches[k]);
      if caches[k].partial != [] {
        a := FromPartial(k);
        StockTaken(spare, PerFrame(k), frames.Available(core));
        ok := true;
      } else if caches[k].empty != [] {
        a := FromEmpty(k);
        StockTaken(spare, PerFrame(k), frames.Available(core));
        ok := true;
      } else {
        ok, a := FromNew(core, k);
      }
    }

    method KeepLocal(core: nat, k: nat, a: nat)
      requires Valid() && core < |lists| && k < CLASSES && a in place && place[a] == Held &&
               SizeAt(slabs, a) == SIZES[k]
      modifies `lists, `sizes, `place
      ensures Valid() && LiveBlocks() == old(LiveBlocks()) - {a} && |lists| == old(|lists|)
      ensures sizes[core][k] == old(sizes[core][k]) + 1 && Supply(core, k) == old(Supply(core, k))
    {
      hide Once, Backed, Others, HandedOut, IsObject, FrameOf, IsFrame, Live, SlabsOk, CoresOk, AllSorted, SizeAt,
           FrameCaches.Valid, ClassSpare, PerFrame, FrameCaches.Available;
      Keep(slabs, place, lists, orders[..], core, k, a);
      place := place[a := Kept(core, k, |lists[core][k]|)];
      lists := lists[core := lists[core][k := lists[core][k] + [a]]];
      sizes := sizes[core := sizes[core][k := sizes[core][k] + 1]];
    }

    method TakeLocal(core: nat, k: nat) returns (a: nat)
      requires Valid() && core < |lists| && k < CLASSES && sizes[core][k] > 0
      modifies `lists, `sizes, `place
      ensures Granted(k, a) && |lists| == old(|lists|) && sizes[core][k] == old(sizes[core][k]) - 1
    {
      hide Once, Backed, Others, HandedOut, IsObject, FrameOf, IsFrame, Live, SlabsOk, CoresOk, AllSorted, SizeAt,
           FrameCaches.Valid;
      Unkeep(slabs, place, lists, orders[..], core, k);
      var n := |lists[core][k]| - 1;
      a := lists[core][k][n];
      place := place[a := Held];
      lists := lists[core := lists[core][k := lists[core][k][..n]]];
      sizes := sizes[core := sizes[core][k := sizes[core][k] - 1]];
    }

    /** Puts an object back into its slab, which the heap gives up if all its objects are free and
        there are two such slabs already. */
    method SlabPush(a: nat) returns (gone: bool, f: nat)
      requires Valid() && a in place && place[a] == Held
      modifies `slabs, `caches, `place
      ensures Valid() && LiveBlocks() == old(LiveBlocks()) - {a}
      ensures f !in old(OtherFrames()) && OtherFrames() == if gone then old(OtherFrames())[f := Page]
              else old(OtherFrames())
    {
      hide Once, Backed, Others, HandedOut, IsObject, FrameOf, IsFrame, Live, SlabsOk, CoresOk, AllSorted, SizeAt,
           FrameCaches.Valid, SizesOk, Per, PutBack;
      f := FrameOf(a);
      SlabOf(slabs, place, a);
      var size := slabs[f].objectSize;
      var k := ClassOf(size);
      var c, n := caches[k], slabs[f].freeObjects + 1;
      gone := n == Per(size) && c.numEmpty >= KEPT_EMPTY;
      FreedBooks(slabs, place, lists, orders[..], caches, k, a, gone);
      FreedFrame(slabs, orders[..], HandedOut(frames.owner), a, gone);
      var after := slabs[f := Slab(size, [a] + slabs[f].free, n)];
      assert after == Pushed(slabs, a);
      hide Pushed;
      slabs := if gone then after - {f} else after;
      caches := caches[k := PutBack(c, f, n, Per(size))];
      place := place - {a};
    }

    /** `slab_free`. */
    method SlabFree(core: nat, a: nat)
      requires Valid() && core < |lists| && a in place && place[a] == Held
      modifies `slabs, `caches, `place, frames.Repr()
      ensures Valid() && LiveBlocks() == old(LiveBlocks()) - {a} && OtherFrames() == old(OtherFrames())
    {
      hide Once, Backed, Others, HandedOut, IsObject, FrameOf, IsFrame, Live, SlabsOk, CoresOk, AllSorted, SizeAt,
           FrameCaches.Valid, SizesOk;
      var gone, f := SlabPush(a);
      if gone {
        OtherGone(slabs, orders[..], frames.owner, f);
        frames.Free(core, f);
      }
    }

    method RefillLocal(core: nat, k: nat) returns (ok: bool)
      requires Valid() && core < |lists| && k < CLASSES
      modifies `slabs, `caches, `place, `lists, `sizes, frames.Repr()
      ensures ok <==> old(sizes[core][k]) + old(Supply(core, k)) > REFILL_KEPT
      ensures ok ==> Valid() && |lists| == old(|lists|) && sizes[core][k] == Max(old(sizes[core][k]), REFILL_KEPT + 1)
      ensures ok ==> LiveBlocks() == old(LiveBlocks()) && OtherFrames() == old(OtherFrames())
    {
      hide Once, Backed, Others, HandedOut, IsObject, FrameOf, IsFrame, Live, SlabsOk, CoresOk, AllSorted, SizeAt,
           FrameCaches.Valid, Supply;
      while sizes[core][k] <= REFILL_KEPT
        invariant Valid() && |lists| == old(|lists|) &&
                  sizes[core][k] + Supply(core, k) == old(sizes[core][k]) + old(Supply(core, k))
        invariant old(sizes[core][k]) <= sizes[core][k] <= Max(old(sizes[core][k]), REFILL_KEPT + 1)
        invariant LiveBlocks() == old(LiveBlocks()) && OtherFrames() == old(OtherFrames())
        decreases REFILL_KEPT - sizes[core][k]
      {
        var a: nat;
        ok, a := SlabAlloc(core, k);
        if !ok {
          return;
        }
        KeepLocal(core, k, a);
      }
      ok := true;
    }

    method DrainLocal(core: nat, k: nat)
      requires Valid() && core < |lists| && k < CLASSES
      modifies `slabs, `caches, `place, `lists, `sizes, frames.Repr()
      ensures Valid() && |lists| == old(|lists|) && sizes[core][k] == Min(old(sizes[core][k]), REFILL_KEPT)
      ensures LiveBlocks() == old(LiveBlocks()) && OtherFrames() == old(OtherFrames())
    {
      hide Once, Backed, Others, HandedOut, IsObject, FrameOf, IsFrame, Live, SlabsOk, CoresOk, AllSorted, SizeAt,
           FrameCaches.Valid;
      while sizes[core][k] > REFILL_KEPT
        invariant Valid() && |lists| == old(|lists|)
        invariant Min(old(sizes[core][k]), REFILL_KEPT) <= sizes[core][k] <= old(sizes[core][k])
        invariant LiveBlocks() == old(LiveBlocks()) && OtherFrames() == old(OtherFrames())
        decreases sizes[core][k]
      {
        var a := TakeLocal(core, k);
        SlabFree(core, a);
      }
    }

    method LargeAlloc(size: nat) returns (ok: bool, a: nat)
      requires Valid() && size > 1024
      modifies orders, frames.Repr()
      ensures !ok <==> forall k: nat :: k <= frames.buddy.maxOrder && LeastOrder(size, k) ==>
                         forall i: nat :: Aligned(i, k) ==> !WhollyFree(old(frames.buddy.free), i, k)
      ensures ok ==> Valid() && OtherFrames() == old(OtherFrames())
      ensures ok ==> a !in old(LiveBlocks()) && exists n :: Serves(size, n) && LiveBlocks() == old(LiveBlocks())[a := n]
    {
      hide Once, Backed, Others, HandedOut, IsObject, FrameOf, IsFrame, Live, SlabsOk, CoresOk, AllSorted, SizeAt,
           FrameCaches.Valid, LeastOrder, Aligned, WhollyFree, SizesOk;
      ok, a := false, 0;
      var k := OrderFor(size, frames.buddy.maxOrder);
      if k == -1 {
        return;
      }
      ghost var handed := HandedOut(frames.owner);
      var x := frames.AllocBlock(k);
      if x == FreeLists.NIL {
        return;
      }
      InMemory(frames, x);
      BlockCame(slabs, orders[..], handed, x, k);
      LargeMore(slabs, place, orders[..], x, k);
      ghost var was := orders[..];
      orders[x] := k;
      assert orders[..] == was[x := k as nat];
      ok, a := true, Base(x);
      assert Serves(size, FRAME * Pow2(k));
    }

    method SmallAlloc(core: nat, k: nat) returns (ok: bool, a: nat)
      requires Valid() && core < |lists| && k < CLASSES
      modifies `slabs, `caches, `place, `lists, `sizes, frames.Repr()
      ensures ok <==> old(sizes[core][k]) > 0 || old(Supply(core, k)) > REFILL_KEPT
      ensures ok ==> Granted(k, a) && |lists| == old(|lists|)
      ensures ok ==> sizes[core][k] == if old(sizes[core][k]) == 0 then REFILL_KEPT else old(sizes[core][k]) - 1
    {
      hide Once, Backed, Others, HandedOut, IsObject, FrameOf, IsFrame, Live, SlabsOk, CoresOk, AllSorted, SizeAt,
           FrameCaches.Valid, Supply;
      a := 0;
      ok := true;
      if sizes[core][k] == 0 {
        ok := RefillLocal(core, k);
        if !ok {
          return;
        }
      }
      a := TakeLocal(core, k);
    }

    /** `malloc`: a block that nobody has, of the least size that will do.  The kernel stops on
        a request for no bytes, and when the frames for the request are not to be had. */
    method Malloc(core: nat, size: nat) returns (ok: bool, a: nat)
      requires Valid() && core < |lists|
      modifies Repr()
      ensures size == 0 ==> !ok
      ensures size > 1024 ==>
                (!ok <==> forall k: nat :: k <= frames.buddy.maxOrder && LeastOrder(size, k) ==>
                            forall i: nat :: Aligned(i, k) ==> !WhollyFree(old(frames.buddy.free), i, k))
      ensures 0 < size <= 1024 ==>
                forall k :: 0 <= k < CLASSES && Serves(size, SIZES[k]) ==>
                  (ok <==> old(sizes[core][k]) > 0 || old(Supply(core, k)) > 32)
      ensures 0 < size <= 1024 && ok ==>
                forall k :: 0 <= k < CLASSES && Serves(size, SIZES[k]) ==>
                  KeptCount(core, k) == if old(KeptCount(core, k)) == 0 then 32 else old(KeptCount(core, k)) - 1
      ensures ok ==> Valid() && a !in old(LiveBlocks()) && OtherFrames() == old(OtherFrames())
      ensures ok ==> exists n :: Serves(size, n) && LiveBlocks() == old(LiveBlocks())[a := n]
    {
      hide Once, Backed, Others, HandedOut, IsObject, FrameOf, IsFrame, Live, SlabsOk, CoresOk, AllSorted, SizeAt,
           FrameCaches.Valid, LeastOrder, Aligned, WhollyFree, Supply;
      if size == 0 {
        return false, 0;
      }
      var k := ClassFor(size);
      if k == CLASSES {
        ok, a := LargeAlloc(size);
      } else {
        ServedBy(size, k);
        ok, a := SmallAlloc(core, k);
        assert ok ==> LiveBlocks() == old(LiveBlocks())[a := SIZES[k]];
      }
    }

    /** Gives back a block of whole frames. */
    method LargeFree(f: nat)
      requires Valid() && Tracked(orders[..], f) && Base(f) in LiveBlocks()
      modifies orders, frames.Repr()
      ensures Valid() && LiveBlocks() == old(LiveBlocks()) - {Base(f)} && OtherFrames() == old(OtherFrames())
    {
      hide Once, Backed, Others, HandedOut, IsObject, FrameOf, IsFrame, Live, SlabsOk, CoresOk, AllSorted, SizeAt,
           FrameCaches.Valid, Base;
      LargeLess(slabs, place, orders[..], f);
      BlockGone(slabs, orders[..], frames.owner, f);
      var k := orders[f];
      ghost var was := orders[..];
      orders[f] := NONE;
      assert orders[..] == was[f := NONE];
      frames.FreeBlock(f, k);
    }

    /** Keeps an object on the core, which gives up what it has above 32 when it has 64. */
    method SmallFree(core: nat, a: nat) returns (ghost c: nat)
      requires Valid() && core < |lists| && a in LiveBlocks() && a in place && place[a] == Held
      modifies `slabs, `caches, `place, `lists, `sizes, frames.Repr()
      ensures Valid() && LiveBlocks() == old(LiveBlocks()) - {a} && OtherFrames() == old(OtherFrames())
      ensures c < CLASSES && SIZES[c] == old(LiveBlocks()[a])
      ensures KeptCount(core, c) == if old(KeptCount(core, c)) >= 64 then 33 else old(KeptCount(core, c)) + 1
    {
      hide Once, Backed, Others, HandedOut, IsObject, FrameOf, IsFrame, Live, SlabsOk, CoresOk, AllSorted, SizeAt,
           FrameCaches.Valid, Base;
      Routed(slabs, place, orders[..], a);
      SlabOf(slabs, place, a);
      var k := ClassOf(slabs[FrameOf(a)].objectSize);
      if sizes[core][k] >= MAX_KEPT {
        DrainLocal(core, k);
        Routed(slabs, place, orders[..], a);
      }
      KeepLocal(core, k, a);
      c := k;
    }

    /** `free`, of a block that a caller has. */
    method Free(core: nat, a: nat)
      requires Valid() && core < |lists| && a in LiveBlocks()
      modifies Repr()
      ensures Valid() && LiveBlocks() == old(LiveBlocks()) - {a} && OtherFrames() == old(OtherFrames())
      ensures forall k :: 0 <= k < CLASSES && !IsFrame(a) && SIZES[k] == old(LiveBlocks()[a]) ==>
                KeptCount(core, k) == if old(KeptCount(core, k)) >= 64 then 33 else old(KeptCount(core, k)) + 1
    {
      hide Once, Backed, Others, HandedOut, IsObject, FrameOf, IsFrame, Live, SlabsOk, CoresOk, AllSorted, SizeAt,
           FrameCaches.Valid, Base;
      Routed(slabs, place, orders[..], a);
      if IsFrame(a) && a < Base(orders.Length) {
        LargeFree(FrameOf(a));
      } else {
        ghost var c := SmallFree(core, a);
        forall k: nat | k < CLASSES && k != c ensures SIZES[k] != SIZES[c] { SizesDiffer(c, k); }
      }
    }
  }

  /** The block at `a`, of `n` bytes, lies in frames that the frame allocator has handed to the
      heap: in a slab, or as a whole block of frames. */
  ghost predicate Home(slabs: map<nat, Slab>, orders: seq<nat>, handed: map<nat, Owner>, a: nat, n: nat) {
    var x := FrameOf(a);
    && x in handed && x !in Others(slabs, orders, handed) && Base(x) <= a && a + n <= Base(x + Pow2(OrderOf(handed[x])))
    && if IsFrame(a) then a == Base(x) && handed[x].Client?
       else x in slabs && n == slabs[x].objectSize && n in SIZES && IsObject(x, n, a) && handed[x] == Page
  }

  lemma BlockHome(slabs: map<nat, Slab>, place: map<nat, Where>, orders: seq<nat>, handed: map<nat, Owner>, a: nat)
    requires SlabsOk(slabs, place) && Backed(slabs, orders, handed) && a in Live(slabs, place, orders)
    ensures Home(slabs, orders, handed, a, Live(slabs, place, orders)[a])
  {
    assert Pow2(OrderOf(Page)) == 1;
    hide Once, IsObject, FrameOf, IsFrame, LiveLarge, Pow2;
    Routed(slabs, place, orders, a);
    LargeAt(orders, a);
    if !IsFrame(a) {
      assert Lent(slabs, a);
      assert SlabOk(FrameOf(a), slabs[FrameOf(a)]);
      ObjectFrame(FrameOf(a), slabs[FrameOf(a)].objectSize, a);
    }
  }

  lemma FrameOrder(a: nat, b: nat)
    requires a < b
    ensures FrameOf(a) <= FrameOf(b) && (FrameOf(a) < FrameOf(b) ==> Base(FrameOf(b)) <= b)
  {
  }

  lemma OwnersApart(fc: FrameCaches, x: nat, y: nat)
    requires fc.Valid() && x in HandedOut(fc.owner) && y in HandedOut(fc.owner) && x < y
    ensures x + Pow2(OrderOf(HandedOut(fc.owner)[x])) <= y
  {
    hide BuddyBlocks.Valid, FreeLists.Inv, Accounted, HandedOut;
    assert Within(y, y, OrderOf(HandedOut(fc.owner)[y]));
    HandedOutApart(State(fc.buddy.free, fc.buddy.live), fc.buddy.frames, fc.buddy.maxOrder, fc.owner, fc.stacks, y, x,
                   y);
  }

  /** Blocks of callers do not overlap. */
  lemma BlocksApart(h: Heap, a: nat, b: nat)
    requires h.Valid() && a in h.LiveBlocks() && b in h.LiveBlocks() && a < b
    ensures a + h.LiveBlocks()[a] <= b
  {
    hide Once, HandedOut, IsObject, SlabsOk, CoresOk, AllSorted, FrameCaches.Valid, FrameOf, IsFrame, Live, Pow2,
         Backed, Others;
    var x, y := FrameOf(a), FrameOf(b);
    FrameOrder(a, b);
    BlockHome(h.slabs, h.place, h.orders[..], HandedOut(h.frames.owner), a);
    BlockHome(h.slabs, h.place, h.orders[..], HandedOut(h.frames.owner), b);
    if x < y {
      OwnersApart(h.frames, x, y);
    } else if !IsFrame(a) && !IsFrame(b) {
      ObjectsApart(x, h.slabs[x].objectSize, a, b);
    }
  }

  /** No frame of a caller's block is free or with anyone else. */
  lemma BlockFrames(h: Heap, a: nat, f: nat, y: nat)
    requires h.Valid() && a in h.LiveBlocks() && Base(f) < a + h.LiveBlocks()[a] && a < Base(f + 1)
    ensures f < h.frames.buddy.frames && !Covers(h.frames.buddy.free, f)
    ensures y in h.OtherFrames() ==>
            y in HandedOut(h.frames.owner) && !Within(f, y, OrderOf(HandedOut(h.frames.owner)[y]))
  {
    hide Once, HandedOut, IsObject, SlabsOk, CoresOk, AllSorted, FrameOf, IsFrame, Live, Pow2, Backed,
         BuddyBlocks.Valid, FreeLists.Inv, Accounted, Covers;
    BlockHome(h.slabs, h.place, h.orders[..], HandedOut(h.frames.owner), a);
    var fc := h.frames;
    HandedOutApart(State(fc.buddy.free, fc.buddy.live), fc.buddy.frames, fc.buddy.maxOrder, fc.owner, fc.stacks,
                   FrameOf(a), y, f);
  }
}
