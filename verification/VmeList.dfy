/** The list of mapped ranges of an address space, and the searches for a free range. */
module VmeList {
  import opened Words

  const PAGE := 4096
  const LAST := 0xFFFF_FFFF      // the largest 32-bit address
  const KERNEL_START := 0x1000_0000
  const KERNEL_END := 0x7FFF_FFFF
  const USER_START := 0x8000_0000
  const USER_END := 0xFFFF_FFFF

  /** A mapped range from `start` up to `end`.  `file` is -1 for anonymous memory, and `paddr`
      is 0 unless the range shows physical memory directly. */
  datatype Vme = Vme(start: nat, end: nat, size: nat, user: bool, shared: bool, writable: bool, file: int, offset: nat,
                     paddr: nat)

  function RangeStart(user: bool): nat {
    if user then USER_START else KERNEL_START
  }

  function RangeEnd(user: bool): nat {
    if user then USER_END else KERNEL_END
  }

  /** The highest end address that a range can have. */
  function TopLimit(user: bool): nat {
    if RangeEnd(user) == LAST then LAST - (PAGE - 1) else RangeEnd(user) + 1
  }

  /** Rounds up to whole pages, in 32 bits. */
  function Rounded(size: nat): nat {
    (size + PAGE - 1) % MODULUS / PAGE * PAGE
  }

  predicate CanHold(start: nat, n: nat, user: bool) {
    RangeStart(user) <= start <= RangeEnd(user) && start <= LAST - n && start + n - 1 <= RangeEnd(user)
  }

  predicate GoodVme(v: Vme) {
    && v.start % PAGE == 0 && v.end % PAGE == 0 && v.start < v.end <= LAST
    && CanHold(v.start, v.end - v.start, v.user)
  }

  /** Ranges in ascending order that do not overlap, each in its half of the address space. */
  predicate Sorted(l: seq<Vme>) {
    && (forall i :: 0 <= i < |l| ==> GoodVme(l[i]))
    && (forall i, j :: 0 <= i < j < |l| ==> l[i].end <= l[j].start)
  }

  predicate Clear(l: seq<Vme>, start: nat, n: nat) {
    forall i :: 0 <= i < |l| ==> l[i].end <= start || start + n <= l[i].start
  }

  /** A place for a new range of `n` bytes. */
  predicate Fits(l: seq<Vme>, user: bool, start: nat, n: nat) {
    start % PAGE == 0 && CanHold(start, n, user) && Clear(l, start, n)
  }

  predicate Covers(v: Vme, a: nat) {
    v.start <= a < v.end
  }

  /** The places are whole pages in the half of the address space, of which no byte is in another
      range. */
  lemma FitsMeans(l: seq<Vme>, user: bool, start: nat, n: nat)
    requires Sorted(l) && n > 0
    ensures Fits(l, user, start, n) <==>
            && start % 4096 == 0
            && (if user then 0x8000_0000 <= start && start + n <= 0xFFFF_FFFF
                else 0x1000_0000 <= start && start + n <= 0x8000_0000)
            && forall i, a: nat :: 0 <= i < |l| && Covers(l[i], a) ==> !(start <= a < start + n)
  {
    if forall i, a: nat :: 0 <= i < |l| && Covers(l[i], a) ==> !(start <= a < start + n) {
      forall i | 0 <= i < |l| ensures l[i].end <= start || start + n <= l[i].start {
        assert GoodVme(l[i]);
        assert Covers(l[i], l[i].start);
        assert l[i].start < start < l[i].end ==> Covers(l[i], start);
      }
    }
  }

  /** The least number of whole pages, or nothing where that has no place in 32 bits. */
  lemma RoundedIs(size: nat)
    requires size < MODULUS
    ensures Rounded(size) % 4096 == 0
    ensures if size <= 0xFFFF_F000 then size <= Rounded(size) < size + 4096 else Rounded(size) == 0
  {
  }

  /** The first range that ends after `from`. */
  method Skip(l: seq<Vme>, from: nat) returns (i: nat)
    requires Sorted(l)
    ensures i <= |l| && (forall j :: 0 <= j < i ==> l[j].end <= from) && (forall j :: i <= j < |l| ==> l[j].end > from)
  {
    i := 0;
    while i < |l| && l[i].end <= from
      invariant i <= |l| && forall j :: 0 <= j < i ==> l[j].end <= from
    {
      i := i + 1;
    }
  }

  /** The search of `mmap`: the end of the range before the first gap of `n` bytes, and the place
      in the list; what it gives is checked afterwards. */
  method FirstGap(l: seq<Vme>, user: bool, n: nat) returns (start: nat, i: nat)
    requires Sorted(l) && n > 0 && n % PAGE == 0
    ensures i <= |l| && (forall j :: 0 <= j < i ==> l[j].end <= start) &&
            (i < |l| && CanHold(start, n, user) ==> start + n <= l[i].start)
    ensures start % PAGE == 0 && start >= RangeStart(user)
    ensures forall s: nat :: Fits(l, user, s, n) ==> start <= s
  {
    i := Skip(l, RangeStart(user));
    start := RangeStart(user);
    while i < |l|
      invariant i <= |l| && (forall j :: 0 <= j < i ==> l[j].end <= start)
      invariant start % PAGE == 0 && start >= RangeStart(user)
      invariant forall j :: i <= j < |l| ==> l[j].start >= start
      invariant forall s: nat :: Fits(l, user, s, n) ==> start <= s
    {
      if l[i].start > RangeEnd(user) {
        break;
      }
      if l[i].start - start >= n {
        break;
      }
      forall s: nat | Fits(l, user, s, n) ensures l[i].end <= s { assert start <= s; }
      start := l[i].end;
      i := i + 1;
    }
  }

  predicate OnPage(x: int) {
    x % PAGE == 0
  }

  lemma PageSums(a: int, b: int)
    requires OnPage(a) && OnPage(b)
    ensures OnPage(a + b) && OnPage(a - b)
  {
  }

  /** A range in a half of the address space ends at the limit for top-down searches or below. */
  lemma BelowLimit(l: seq<Vme>, user: bool, s: nat, n: nat)
    requires OnPage(n)
    ensures Fits(l, user, s, n) ==> s + n <= TopLimit(user) && RangeStart(user) <= s
    ensures OnPage(TopLimit(user)) && OnPage(RangeStart(user)) && RangeStart(user) <= TopLimit(user)
  {
  }

  /** A place that starts in the gap before range `i` ends in it. */
  lemma InGap(l: seq<Vme>, user: bool, i: nat, s: nat, n: nat)
    requires i < |l|
    ensures Fits(l, user, s, n) && s < l[i].end ==> s + n <= l[i].start
  {
  }

  /** All of a gap is clear. */
  lemma GapClear(l: seq<Vme>, i: nat, gap: nat, start: nat, n: nat)
    requires Sorted(l) && i <= |l| && (forall j :: 0 <= j < i ==> l[j].end <= gap) && gap <= start &&
             (i < |l| ==> start + n <= l[i].start)
    ensures Clear(l, start, n)
  {
    hide GoodVme;
    forall j | i <= j < |l| ensures start + n <= l[j].start {
      assert GoodVme(l[i]);
      GoodOrder(l, i, j);
    }
  }

  lemma GoodOrder(l: seq<Vme>, i: nat, j: nat)
    requires Sorted(l) && i <= j < |l|
    ensures l[i].start <= l[j].start && l[i].start < l[i].end && OnPage(l[i].start) && OnPage(l[i].end)
  {
  }

  /** The search of `mmap_stack`: the highest place for `n` bytes, if there is any. */
  method LastGap(l: seq<Vme>, user: bool, n: nat) returns (found: bool, start: nat, at: nat)
    requires Sorted(l) && n > 0 && OnPage(n)
    ensures at <= |l| && OnPage(start)
    ensures found ==> RangeStart(user) <= start && start + n <= TopLimit(user) && Clear(l, start, n)
    ensures found ==> (forall j :: 0 <= j < at ==> l[j].end <= start) && (at < |l| ==> start + n <= l[at].start)
    ensures forall s: nat :: Fits(l, user, s, n) ==> found && s <= start
  {
    hide Fits, Clear, OnPage, TopLimit, RangeStart, GoodVme;
    var i := Skip(l, RangeStart(user));
    var gap, limit := RangeStart(user), TopLimit(user);
    found, start, at := false, 0, 0;
    forall s: nat ensures Fits(l, user, s, n) ==> s + n <= limit && RangeStart(user) <= s { BelowLimit(l, user, s, n); }
    BelowLimit(l, user, 0, n);
    assert OnPage(0) by { PageSums(n, n); }
    HalfStart(l, user, i);
    while i < |l|
      invariant i <= |l| && OnPage(gap) && gap >= RangeStart(user) && at <= |l| && OnPage(start)
      invariant (forall j :: 0 <= j < i ==> l[j].end <= gap) && (i < |l| ==> l[i].start >= gap)
      invariant found ==> RangeStart(user) <= start && start + n <= limit && Clear(l, start, n)
      invariant found ==> (forall j :: 0 <= j < at ==> l[j].end <= start) && (at < |l| ==> start + n <= l[at].start)
      invariant forall s: nat :: Fits(l, user, s, n) && s < gap ==> found && s <= start
    {
      GoodOrder(l, i, i);
      forall s: nat ensures Fits(l, user, s, n) && s < l[i].end ==> s + n <= l[i].start { InGap(l, user, i, s, n); }
      var end := if l[i].start > limit then limit else l[i].start;
      if end >= gap && end - gap >= n {
        PageSums(end, n);
        GapClear(l, i, gap, end - n, n);
        start, at, found := end - n, i, true;
      }
      if l[i].start >= limit {
        break;
      }
      gap := l[i].end;
      i := i + 1;
    }
    if gap <= limit && limit - gap >= n {
      PageSums(limit, n);
      GapClear(l, i, gap, limit - n, n);
      start, at, found := limit - n, i, true;
    }
  }

  /** A range that ends after the start of a half starts there or later. */
  lemma HalfStart(l: seq<Vme>, user: bool, i: nat)
    requires Sorted(l) && i <= |l| && forall j :: i <= j < |l| ==> l[j].end > RangeStart(user)
    ensures i < |l| ==> l[i].start >= RangeStart(user)
  {
    if i < |l| { assert GoodVme(l[i]); }
  }

  // ----- The operations -----

  lemma RoundedPages(size: nat)
    ensures OnPage(Rounded(size)) && Rounded(size) <= LAST
  {
  }

  lemma InsertSorted(l: seq<Vme>, i: nat, v: Vme)
    requires Sorted(l) && i <= |l| && GoodVme(v)
    requires (forall j :: 0 <= j < i ==> l[j].end <= v.start) && (i < |l| ==> v.end <= l[i].start)
    ensures Sorted(l[..i] + [v] + l[i..])
  {
    hide GoodVme;
    var m := l[..i] + [v] + l[i..];
    forall a | 0 <= a < |m| ensures GoodVme(m[a]) {}
    forall a, b | 0 <= a < b < |m| ensures m[a].end <= m[b].start {
      if a == i { GoodOrder(l, i, b - 1); }
    }
  }

  lemma RemoveSorted(l: seq<Vme>, i: nat)
    requires Sorted(l) && i < |l|
    ensures Sorted(l[..i] + l[i + 1..])
  {
    hide GoodVme;
  }

  lemma GoodNew(q: Request, start: nat, n: nat, paddr: nat)
    requires OnPage(start) && OnPage(n) && n > 0 && CanHold(start, n, q.user)
    ensures GoodVme(NewVme(q, start, n, paddr))
  {
  }

  /** What a caller asks for, apart from the place. */
  datatype Request = Request(size: nat, user: bool, shared: bool, writable: bool, file: int, offset: nat)

  /** The answer: an address, a null pointer, or the end of the kernel. */
  datatype Answer = At(start: nat) | Null | Panic

  /** The assertions of `vme_create` hold of a range of `n` bytes. */
  predicate Creatable(q: Request, n: nat) {
    n > 0 && (q.file == -1 || q.offset % PAGE == 0)
  }

  ghost predicate Inserted(l: seq<Vme>, l': seq<Vme>, v: Vme) {
    exists i :: 0 <= i <= |l| && l' == l[..i] + [v] + l[i..]
  }

  function NewVme(q: Request, start: nat, n: nat, paddr: nat): Vme {
    Vme(start, start + n, q.size, q.user, q.shared, q.writable, q.file, q.offset, paddr)
  }

  /** There is a place for `n` bytes. */
  ghost predicate HasPlace(l: seq<Vme>, user: bool, n: nat) {
    exists s: nat :: Fits(l, user, s, n)
  }

  class Space {
    var vmes: seq<Vme>

    constructor ()
      ensures Sorted(vmes) && vmes == []
    {
      vmes := [];
    }

    /** `vme_create` and `vme_insert`. */
    method Insert(q: Request, start: nat, n: nat, i: nat, paddr: nat)
      requires Sorted(vmes) && n > 0 && OnPage(n) && OnPage(start) && CanHold(start, n, q.user) && i <= |vmes|
      requires (forall j :: 0 <= j < i ==> vmes[j].end <= start) && (i < |vmes| ==> start + n <= vmes[i].start)
      modifies this
      ensures Sorted(vmes) && Inserted(old(vmes), vmes, NewVme(q, start, n, paddr))
      ensures Fits(old(vmes), q.user, start, n)
    {
      GapClear(vmes, i, start, start, n);
      hide GoodVme, CanHold;
      GoodNew(q, start, n, paddr);
      InsertSorted(vmes, i, NewVme(q, start, n, paddr));
      vmes := vmes[..i] + [NewVme(q, start, n, paddr)] + vmes[i..];
    }

    /** `mmap`, and `mmap_physmem` for a `paddr` other than 0: the lowest place in the half of the
        address space that is asked for. */
    method Mmap(q: Request, paddr: nat) returns (r: Answer)
      requires Sorted(vmes) && q.size < MODULUS
      modifies this
      ensures Sorted(vmes) && (r == Null <==> q.size == 0)
      ensures q.size > 0 ==> (r.At? <==> Creatable(q, Rounded(q.size)) && HasPlace(old(vmes), q.user, Rounded(q.size)))
      ensures r.At? ==> forall s: nat :: Fits(old(vmes), q.user, s, Rounded(q.size)) ==> r.start <= s
      ensures r.At? ==>
              Fits(old(vmes), q.user, r.start, Rounded(q.size)) &&
              Inserted(old(vmes), vmes, Vme(r.start, r.start + Rounded(q.size), q.size, q.user, q.shared, q.writable,
                                            q.file, q.offset, paddr))
      ensures !r.At? ==> vmes == old(vmes)
    {
      hide GoodVme, Rounded, RangeStart, OnPage;
      if q.size == 0 {
        return Null;
      }
      var n := Rounded(q.size);
      RoundedPages(q.size);
      if n == 0 {
        return Panic;
      }
      OnPages(n);
      var start, i := FirstGap(vmes, q.user, n);
      OnPages(start);
      LowestFits(vmes, q.user, start, n);
      if !CanHold(start, n, q.user) || !Creatable(q, n) {
        return Panic;
      }
      Insert(q, start, n, i, paddr);
      return At(start);
    }

    /** `mmap_stack`: the highest place in the user half. */
    method MmapStack(size: nat, user: bool, shared: bool, writable: bool) returns (r: Answer)
      requires Sorted(vmes) && size < MODULUS
      modifies this
      ensures Sorted(vmes) && (r == Null <==> size == 0)
      ensures size > 0 ==> (r.At? <==> user && !shared && Rounded(size) > 0 && HasPlace(old(vmes), true, Rounded(size)))
      ensures r.At? ==> forall s: nat :: Fits(old(vmes), true, s, Rounded(size)) ==> s <= r.start
      ensures r.At? ==> Fits(old(vmes), true, r.start, Rounded(size)) &&
                        Inserted(old(vmes), vmes,
                                 Vme(r.start, r.start + Rounded(size), size, true, false, writable, -1, 0, 0))
      ensures !r.At? ==> vmes == old(vmes)
    {
      hide GoodVme, Rounded, OnPage;
      if size == 0 {
        return Null;
      }
      if !user || shared {
        return Panic;
      }
      var n := Rounded(size);
      RoundedPages(size);
      if n == 0 {
        return Panic;
      }
      var found, start, i := LastGap(vmes, true, n);
      HighestFits(vmes, start, n);
      if !found || !CanHold(start, n, true) {
        return Panic;
      }
      Insert(Request(size, true, false, writable, -1, 0), start, n, i, 0);
      return At(start);
    }

    /** `mmap_at`: at the given address, or not at all. */
    method MmapAt(q: Request, vaddr: nat) returns (r: Answer)
      requires Sorted(vmes) && q.size < MODULUS && vaddr < MODULUS
      modifies this
      ensures Sorted(vmes) && (r == Null <==> q.size == 0) && (r.At? ==> r.start == vaddr)
      ensures q.size > 0 ==>
              (r.At? <==> Creatable(q, Rounded(q.size)) && Fits(old(vmes), q.user, vaddr, Rounded(q.size)))
      ensures r.At? ==> Inserted(old(vmes), vmes, Vme(vaddr, vaddr + Rounded(q.size), q.size, q.user, q.shared,
                                                      q.writable, q.file, q.offset, 0))
      ensures !r.At? ==> vmes == old(vmes)
    {
      hide GoodVme, Rounded;
      if q.size == 0 {
        return Null;
      }
      var n := Rounded(q.size);
      RoundedPages(q.size);
      if !CanHold(vaddr, n, q.user) {
        return Panic;
      }
      var i := Skip(vmes, vaddr);
      if i < |vmes| && vmes[i].start < vaddr + n {
        return Panic;
      }
      if !Creatable(q, n) || vaddr % PAGE != 0 {
        return Panic;
      }
      Insert(q, vaddr, n, i, 0);
      return At(vaddr);
    }

    /** `munmap`: takes out the range that starts at `p`. */
    method Munmap(p: nat) returns (found: bool, v: Vme)
      requires Sorted(vmes)
      modifies this
      ensures Sorted(vmes) && (found <==> exists i :: 0 <= i < old(|vmes|) && old(vmes)[i].start == p)
      ensures found ==> v.start == p && v in old(vmes) && Inserted(vmes, old(vmes), v)
      ensures !found ==> vmes == old(vmes)
    {
      hide GoodVme;
      v := Vme(0, 0, 0, false, false, false, -1, 0, 0);
      var i := 0;
      while i < |vmes|
        invariant i <= |vmes| && vmes == old(vmes) && forall j :: 0 <= j < i ==> vmes[j].start != p
      {
        if vmes[i].start == p {
          v := vmes[i];
          RemoveSorted(vmes, i);
          vmes := vmes[..i] + vmes[i + 1..];
          assert old(vmes) == vmes[..i] + [v] + vmes[i..];
          return true, v;
        }
        i := i + 1;
      }
      return false, v;
    }
  }

  lemma OnPages(x: int)
    ensures OnPage(x) <==> x % PAGE == 0
  {
  }

  /** If even the lowest candidate is out of range, there is no place. */
  lemma LowestFits(l: seq<Vme>, user: bool, start: nat, n: nat)
    requires n > 0 && start >= RangeStart(user) && forall s: nat :: Fits(l, user, s, n) ==> start <= s
    ensures !CanHold(start, n, user) ==> !HasPlace(l, user, n)
  {
  }

  lemma HighestFits(l: seq<Vme>, start: nat, n: nat)
    requires n > 0 && OnPage(start)
    ensures RangeStart(true) <= start && start + n <= TopLimit(true) ==> CanHold(start, n, true)
  {
  }
}
