/** Slabs: frames cut into objects of one size.

    A slab starts with its header, five words long, in as many object places as that takes;
    the other places are objects.  Free lists have their head first.
  */
module SlabObjects {
  import opened Sequences
  import opened Words

  const FRAME := 4096
  const START := 0x100000
  const HEADER := 20
  const SIZES: seq<nat> := [4, 8, 16, 32, 64, 128, 256, 512, 1024]
  const CLASSES := 9
  const KEPT_EMPTY := 2

  function Base(f: nat): nat {
    START + FRAME * f
  }

  /** The frame of an address, and whether the address is that of a frame. */
  function FrameOf(a: nat): nat {
    if a < START then 0 else (a - START) / FRAME
  }

  predicate IsFrame(a: nat) {
    a >= START && (a - START) % FRAME == 0
  }

  function Meta(size: nat): nat
    requires size > 0
  {
    (HEADER + size - 1) / size
  }

  function First(size: nat): nat
    requires size > 0
  {
    Meta(size) * size
  }

  function Per(size: nat): int
    requires size > 0
  {
    FRAME / size - Meta(size)
  }

  function Addr(f: nat, size: nat, i: nat): nat
    requires size > 0
  {
    Base(f) + First(size) + i * size
  }

  ghost predicate IsObject(f: nat, size: nat, a: nat) {
    size > 0 && exists i: nat :: i < Per(size) && a == Addr(f, size, i)
  }

  /** The objects of a slab start after the header and fill the frame, and there are several. */
  lemma Layout(size: nat)
    requires size in SIZES
    ensures size % 4 == 0 && size > 0 && 20 <= First(size) < 20 + size && First(size) % size == 0 && Per(size) >= 3
    ensures First(size) + Per(size) * size == 4096
  {
    assert size in [4, 8, 16, 32, 64, 128, 256, 512, 1024];
    assert Meta(4) == 5 && Meta(8) == 3 && Meta(16) == 2 && (size >= 32 ==> Meta(size) == 1);
    hide Meta;
    assert size * (FRAME / size) == FRAME;
  }

  /** The frame of an object is its slab, and no object is at the start of a frame. */
  lemma ObjectFrame(f: nat, size: nat, a: nat)
    requires size in SIZES && IsObject(f, size, a)
    ensures FrameOf(a) == f && !IsFrame(a) && Base(f) + HEADER <= a && a + size <= Base(f + 1)
    ensures 0x10_0000 + 4096 * f + 20 <= a && a + size <= 0x10_0000 + 4096 * (f + 1)
  {
    hide Per, First;
    Layout(size);
    var i: nat :| i < Per(size) && a == Addr(f, size, i);
    assert i * size + size == (i + 1) * size;
    MulMono(i + 1, Per(size), size);
    InFrame(f, a);
  }

  /** An address behind the start of a frame. */
  lemma InFrame(f: nat, a: nat)
    requires Base(f) < a < Base(f + 1)
    ensures FrameOf(a) == f && !IsFrame(a)
  {
    DivUnique(a - START, FRAME, f, a - START - FRAME * f);
  }

  lemma FrameAddress(f: nat)
    ensures IsFrame(Base(f)) && FrameOf(Base(f)) == f
  {
  }

  /** Two objects of a slab do not overlap. */
  lemma ObjectsApart(f: nat, size: nat, a: nat, b: nat)
    requires size in SIZES && IsObject(f, size, a) && IsObject(f, size, b) && a < b
    ensures a + size <= b
  {
    Layout(size);
    var i: nat :| i < Per(size) && a == Addr(f, size, i);
    var j: nat :| j < Per(size) && b == Addr(f, size, j);
    if j <= i {
      MulMono(j, i, size);
    } else {
      MulMono(i + 1, j, size);
      assert (i + 1) * size == i * size + size;
    }
  }

  // ----- The objects of a slab, as a set -----

  ghost function Objects(f: nat, size: nat, n: nat): set<nat>
    requires size > 0
  {
    set i: nat | i < n :: Addr(f, size, i)
  }

  lemma {:induction false} ObjectCount(f: nat, size: nat, n: nat)
    requires size > 0
    ensures |Objects(f, size, n)| == n
  {
    if n > 0 {
      ObjectCount(f, size, n - 1);
      var last := Addr(f, size, n - 1);
      assert Objects(f, size, n) == Objects(f, size, n - 1) + {last};
      forall i: nat | i < n - 1 ensures Addr(f, size, i) != last {
        MulMono(i + 1, n - 1, size);
        assert (i + 1) * size == i * size + size;
      }
    }
  }

  function Elems(s: seq<nat>): set<nat> {
    set x | x in s
  }

  lemma {:induction false} OnceCount(s: seq<nat>)
    requires Once(s)
    ensures |Elems(s)| == |s|
  {
    if s != [] {
      OnceCount(s[1..]);
      assert s[0] !in Elems(s[1..]);
      assert Elems(s) == Elems(s[1..]) + {s[0]} by { assert s == [s[0]] + s[1..]; }
    }
  }

  lemma Missing(a: set<nat>, b: set<nat>)
    requires a <= b
    ensures |b - a| == |b| - |a|
  {
    assert b == a + (b - a);
  }

  /** How many objects of a slab are not listed. */
  lemma Unlisted(f: nat, size: nat, free: seq<nat>)
    requires size in SIZES && Once(free) && forall x :: x in free ==> IsObject(f, size, x)
    ensures Per(size) >= 0 && |Objects(f, size, Per(size)) - Elems(free)| == Per(size) - |free|
  {
    Layout(size);
    ObjectCount(f, size, Per(size));
    OnceCount(free);
    forall x | x in Elems(free) ensures x in Objects(f, size, Per(size)) {
      assert IsObject(f, size, x);
    }
    Missing(Elems(free), Objects(f, size, Per(size)));
  }

  /** A free list as long as the slab has objects has all of them. */
  lemma AllFree(f: nat, size: nat, free: seq<nat>, a: nat)
    requires size in SIZES && Once(free) && |free| == Per(size)
    requires forall x :: x in free ==> IsObject(f, size, x)
    requires IsObject(f, size, a)
    ensures a in free
  {
    Unlisted(f, size, free);
    assert a in Objects(f, size, Per(size));
  }

  // ----- Lists -----

  function Without(s: seq<nat>, x: nat): seq<nat> {
    if s == [] then [] else if s[0] == x then s[1..] else [s[0]] + Without(s[1..], x)
  }

  lemma {:induction false} WithoutMember(s: seq<nat>, x: nat)
    requires Once(s)
    ensures Once(Without(s, x)) && forall y :: y in Without(s, x) <==> y in s && y != x
  {
    if s != [] {
      assert s == [s[0]] + s[1..];
      if s[0] != x {
        WithoutMember(s[1..], x);
        PushOnce(Without(s[1..], x), s[0]);
      }
    }
  }

  lemma PushOnce(s: seq<nat>, x: nat)
    requires Once(s) && x !in s
    ensures Once([x] + s)
  {
  }

  lemma PopOnce(s: seq<nat>)
    requires Once(s) && s != []
    ensures Once(s[1..]) && forall y :: y in s[1..] <==> y in s && y != s[0]
  {
    assert s == [s[0]] + s[1..];
  }

  // ----- Slabs -----

  datatype Slab = Slab(objectSize: nat, free: seq<nat>, freeObjects: nat)

  /** A free list has as many objects as the header says, all different and of this slab. */
  ghost predicate SlabOk(f: nat, s: Slab) {
    && s.objectSize in SIZES && s.freeObjects == |s.free| && Once(s.free)
    && forall a :: a in s.free ==> IsObject(f, s.objectSize, a)
  }

  /** Where an object that is not on its slab's free list is: with a caller, or at a place of
      a core's list of a class. */
  datatype Where = Held | Kept(core: nat, k: nat, slot: nat)

  ghost predicate Lent(slabs: map<nat, Slab>, a: nat) {
    var f := FrameOf(a);
    f in slabs && IsObject(f, slabs[f].objectSize, a) && a !in slabs[f].free
  }

  ghost predicate SlabsOk(slabs: map<nat, Slab>, place: map<nat, Where>) {
    && (forall f :: f in slabs ==> SlabOk(f, slabs[f]))
    && (forall a :: a in place <==> Lent(slabs, a))
  }

  function Popped(slabs: map<nat, Slab>, f: nat): map<nat, Slab>
    requires f in slabs && slabs[f].free != [] && slabs[f].freeObjects > 0
  {
    slabs[f := Slab(slabs[f].objectSize, slabs[f].free[1..], slabs[f].freeObjects - 1)]
  }

  lemma PopObject(slabs: map<nat, Slab>, place: map<nat, Where>, f: nat)
    requires SlabsOk(slabs, place) && f in slabs && slabs[f].freeObjects > 0
    ensures slabs[f].free != []
    ensures var a := slabs[f].free[0];
            a !in place && FrameOf(a) == f && IsObject(f, slabs[f].objectSize, a) &&
              SlabsOk(Popped(slabs, f), place[a := Held])
  {
    hide IsObject, FrameOf;
    var s := slabs[f];
    assert SlabOk(f, s);
    var a := s.free[0];
    ObjectFrame(f, s.objectSize, a);
    PopOnce(s.free);
    forall x ensures Lent(Popped(slabs, f), x) <==> Lent(slabs, x) || x == a {
      if FrameOf(x) != f { assert Lent(Popped(slabs, f), x) <==> Lent(slabs, x); }
    }
    assert !Lent(slabs, a);
  }

  function Pushed(slabs: map<nat, Slab>, a: nat): map<nat, Slab>
    requires FrameOf(a) in slabs
  {
    var s := slabs[FrameOf(a)];
    slabs[FrameOf(a) := Slab(s.objectSize, [a] + s.free, s.freeObjects + 1)]
  }

  lemma PushObject(slabs: map<nat, Slab>, place: map<nat, Where>, a: nat)
    requires SlabsOk(slabs, place) && a in place
    ensures FrameOf(a) in slabs && slabs[FrameOf(a)].freeObjects < Per(slabs[FrameOf(a)].objectSize)
    ensures SlabsOk(Pushed(slabs, a), place - {a})
  {
    hide IsObject, FrameOf;
    assert Lent(slabs, a);
    var f := FrameOf(a);
    var s := slabs[f];
    assert SlabOk(f, s);
    PushOnce(s.free, a);
    Fits(f, s, a);
    forall x ensures Lent(Pushed(slabs, a), x) <==> Lent(slabs, x) && x != a {
      if FrameOf(x) != f { assert Lent(Pushed(slabs, a), x) <==> Lent(slabs, x); }
    }
  }

  /** A slab that has lent an object has fewer free ones than it has objects. */
  lemma Fits(f: nat, s: Slab, a: nat)
    requires SlabOk(f, s) && IsObject(f, s.objectSize, a) && a !in s.free
    ensures s.freeObjects < Per(s.objectSize)
  {
    Unlisted(f, s.objectSize, s.free);
    assert a in Objects(f, s.objectSize, Per(s.objectSize)) - Elems(s.free);
  }

  lemma NewSlab(slabs: map<nat, Slab>, place: map<nat, Where>, f: nat, s: Slab)
    requires SlabsOk(slabs, place) && f !in slabs && SlabOk(f, s) && s.freeObjects == Per(s.objectSize)
    ensures SlabsOk(slabs[f := s], place)
  {
    hide IsObject, FrameOf;
    forall x ensures Lent(slabs[f := s], x) <==> Lent(slabs, x) {
      if FrameOf(x) == f && IsObject(f, s.objectSize, x) {
        AllFree(f, s.objectSize, s.free, x);
      }
    }
  }

  /** A slab whose objects are all free can go: nobody has one of its objects. */
  lemma DropSlab(slabs: map<nat, Slab>, place: map<nat, Where>, f: nat)
    requires SlabsOk(slabs, place) && f in slabs && slabs[f].freeObjects == Per(slabs[f].objectSize)
    ensures SlabsOk(slabs - {f}, place) && forall a :: a in place ==> FrameOf(a) != f
  {
    hide IsObject, FrameOf;
    var s := slabs[f];
    assert SlabOk(f, s);
    forall x ensures Lent(slabs - {f}, x) <==> Lent(slabs, x) {
      if FrameOf(x) == f && IsObject(f, s.objectSize, x) {
        AllFree(f, s.objectSize, s.free, x);
      }
    }
    assert forall a :: a in place ==> Lent(slabs - {f}, a);
  }

  // ----- The lists of slabs -----

  datatype Cache = Cache(full: seq<nat>, partial: seq<nat>, empty: seq<nat>, numEmpty: nat)

  /** The number of free objects of a slab of the class, or -1. */
  function FreeIn(slabs: map<nat, Slab>, size: nat, f: nat): int {
    if f in slabs && slabs[f].objectSize == size then slabs[f].freeObjects else -1
  }

  ghost predicate InPlace(slabs: map<nat, Slab>, size: nat, c: Cache, f: nat)
    requires size > 0
  {
    var n := FreeIn(slabs, size, f);
    && (f in c.full <==> n == 0) && (f in c.partial <==> 0 < n < Per(size)) && (f in c.empty <==> n == Per(size))
  }

  /** Every slab of the class is on the one list that its number of free objects calls for. */
  ghost predicate Sorted(slabs: map<nat, Slab>, size: nat, c: Cache)
    requires size > 0
  {
    && (forall f :: InPlace(slabs, size, c, f))
    && Once(c.full) && Once(c.partial) && Once(c.empty) && |c.empty| == c.numEmpty <= KEPT_EMPTY
  }

  ghost predicate SameBut(s: seq<nat>, s': seq<nat>, f: nat) {
    forall g :: g != f ==> (g in s <==> g in s')
  }

  /** Moving one slab. */
  lemma Resorted(slabs: map<nat, Slab>, slabs': map<nat, Slab>, size: nat, c: Cache, c': Cache, f: nat)
    requires size > 0 && Sorted(slabs, size, c) && slabs - {f} == slabs' - {f}
    requires SameBut(c.full, c'.full, f) && SameBut(c.partial, c'.partial, f) && SameBut(c.empty, c'.empty, f)
    requires InPlace(slabs', size, c', f)
    requires Once(c'.full) && Once(c'.partial) && Once(c'.empty) && |c'.empty| == c'.numEmpty <= KEPT_EMPTY
    ensures Sorted(slabs', size, c')
  {
    hide Once;
    forall g ensures InPlace(slabs', size, c', g) {
      assert InPlace(slabs, size, c, g);
      assert g != f ==> FreeIn(slabs', size, g) == FreeIn(slabs, size, g) by {
        assert g in slabs - {f} <==> g in slabs && g != f;
        assert g in slabs' - {f} <==> g in slabs' && g != f;
        if g in slabs && g != f { assert (slabs - {f})[g] == slabs[g] && (slabs' - {f})[g] == slabs'[g]; }
      }
    }
  }
}
