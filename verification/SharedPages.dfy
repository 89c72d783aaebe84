/** Pages mapped from files, over many address spaces.

    An address space has its list of ranges and, for each page with a valid page table entry,
    the frame it is mapped to.  What unmapping does with a frame is decided by the range alone.
    Each event is a step of the page fault handler, of fork or of unmap that is atomic with
    respect to the page cache; a run is any sequence of them.
  */
module SharedPages {
  import opened Words
  import opened VmeList
  import opened PageCache

  datatype Space = Space(vmes: seq<Vme>, ptes: map<nat, nat>, copying: Option<Key>)

  datatype State = State(cache: Table, spaces: seq<Space>, inUse: set<nat>)

  datatype Event =
    | AddVme(i: nat, list: seq<Vme>, v: Vme)                          // mmap
    | DropVme(i: nat, list: seq<Vme>, v: Vme)                         // the end of munmap
    | FaultShared(i: nat, page: nat, frame: nat)
    | FaultZero(i: nat, page: nat, frame: nat)
    | FaultDirect(i: nat, page: nat)
    | BeginCopy(i: nat, page: nat, bytes: nat, frame: nat)            // private file page: acquire
    | EndCopy(i: nat, page: nat, frame: nat)                          // copy, release, map
    | Fork(i: nat)
    | ForkPage(i: nat, j: nat, page: nat, frame: nat)
    | UnmapPage(i: nat, page: nat)

  // ----- Pages and ranges -----

  /** The range that a fault at `p` finds. */
  function Lookup(l: seq<Vme>, p: nat): Option<Vme> {
    if l == [] then None else if Covers(l[0], p) then Some(l[0]) else Lookup(l[1..], p)
  }

  lemma {:induction false} LookupIn(l: seq<Vme>, p: nat)
    ensures Lookup(l, p).Some? ==> Lookup(l, p).value in l && Covers(Lookup(l, p).value, p)
    ensures Lookup(l, p).None? ==> forall i :: 0 <= i < |l| ==> !Covers(l[i], p)
  {
    if l != [] && !Covers(l[0], p) {
      LookupIn(l[1..], p);
      if Lookup(l, p).None? {
        forall i | 0 <= i < |l| ensures !Covers(l[i], p) { if i > 0 { assert l[i] == l[1..][i - 1]; } }
      }
    }
  }

  /** In a sorted list there is no other. */
  lemma {:induction false} LookupIs(l: seq<Vme>, p: nat, i: nat)
    requires Sorted(l) && i < |l| && Covers(l[i], p)
    ensures Lookup(l, p) == Some(l[i])
  {
    hide Sorted;
    LookupIn(l, p);
    var v := Lookup(l, p).value;
    var j :| 0 <= j < |l| && l[j] == v;
    OneCover(l, p, i, j);
  }

  lemma {:induction false} OneCover(l: seq<Vme>, p: nat, i: nat, j: nat)
    requires Sorted(l) && i < |l| && j < |l| && Covers(l[i], p) && Covers(l[j], p)
    ensures i == j
  {
  }

  /** Inserting a range changes nothing for the pages of the others. */
  lemma {:induction false} LookupInserted(l: seq<Vme>, l': seq<Vme>, v: Vme, p: nat)
    requires Sorted(l) && Sorted(l') && Inserted(l, l', v)
    ensures Lookup(l', p) == if Covers(v, p) then Some(v) else Lookup(l, p)
  {
    hide Sorted;
    var k :| 0 <= k <= |l| && l' == l[..k] + [v] + l[k..];
    LookupIn(l, p);
    LookupIn(l', p);
    if Covers(v, p) {
      assert l'[k] == v;
      LookupIs(l', p, k);
    } else if Lookup(l, p).Some? {
      var j :| 0 <= j < |l| && l[j] == Lookup(l, p).value;
      var j' := if j < k then j else j + 1;
      assert l'[j'] == l[j];
      LookupIs(l', p, j');
    }
  }

  function KeyOf(v: Vme, p: nat): Key
    requires Covers(v, p) && v.file >= 0
  {
    Key(v.file, v.offset + (p - v.start))
  }

  /** How much of a page of a shared mapping belongs to the file. */
  function PageBytes(v: Vme, p: nat): nat
    requires Covers(v, p)
  {
    if v.size > p - v.start && v.size - (p - v.start) < PAGE then v.size - (p - v.start) else PAGE
  }

  /** What a mapped page is, by the range it is in. */
  datatype Kind = Cached(key: Key) | Own | Window | Nothing

  function KindAt(sp: Space, p: nat): (kind: Kind)
    ensures p !in sp.ptes ==> kind == Nothing
  {
    if p !in sp.ptes then Nothing else
    LookupIn(sp.vmes, p);
    match Lookup(sp.vmes, p)
    case None => Nothing
    case Some(v) =>
      if v.shared then (if v.file >= 0 then Cached(KeyOf(v, p)) else Nothing)
      else if v.paddr != 0 then Window else Own
  }

  predicate WritableAt(sp: Space, p: nat) {
    p in sp.ptes && Lookup(sp.vmes, p).Some? && Lookup(sp.vmes, p).value.writable
  }

  // ----- The steps -----

  /** `page_cache_acquire`: a miss takes `frame`, which must be free. */
  function Take(s: State, k: Key, bytes: nat, frame: nat): Option<State> {
    if k in s.cache then Some(s.(cache := Acquired(s.cache, k, bytes, frame)))
    else if frame in s.inUse then None
    else Some(s.(cache := Acquired(s.cache, k, bytes, frame), inUse := s.inUse + {frame}))
  }

  /** `page_cache_release`: the last reference gives the frame back. */
  function Drop(s: State, k: Key): State {
    s.(cache := Released(s.cache, k),
       inUse := if k in s.cache && s.cache[k].refs <= 1 then s.inUse - {s.cache[k].frame} else s.inUse)
  }

  function Map(s: State, i: nat, p: nat, frame: nat): State
    requires i < |s.spaces|
  {
    s.(spaces := s.spaces[i := s.spaces[i].(ptes := s.spaces[i].ptes[p := frame])])
  }

  function Unmap(s: State, i: nat, p: nat): State
    requires i < |s.spaces|
  {
    s.(spaces := s.spaces[i := s.spaces[i].(ptes := s.spaces[i].ptes - {p})])
  }

  function SetCopying(s: State, i: nat, c: Option<Key>): State
    requires i < |s.spaces|
  {
    s.(spaces := s.spaces[i := s.spaces[i].(copying := c)])
  }

  function SetVmes(s: State, i: nat, l: seq<Vme>): State
    requires i < |s.spaces|
  {
    s.(spaces := s.spaces[i := s.spaces[i].(vmes := l)])
  }

  /** The range of an unmapped page that may be faulted in. */
  function Missing(s: State, i: nat, p: nat): Option<Vme> {
    if i < |s.spaces| && p % PAGE == 0 && p !in s.spaces[i].ptes && s.spaces[i].copying == None
       then Lookup(s.spaces[i].vmes, p) else None
  }

  ghost function Do(s: State, e: Event): Option<State> {
    match e
    case AddVme(i, l, v) =>
      if i < |s.spaces| && s.spaces[i].copying == None && Sorted(l) && Inserted(s.spaces[i].vmes, l, v) &&
         (v.paddr != 0 ==> v.file == -1)
      then Some(SetVmes(s, i, l)) else None
    case DropVme(i, l, v) =>
      if i < |s.spaces| && s.spaces[i].copying == None && Sorted(l) && Inserted(l, s.spaces[i].vmes, v) &&
         (forall p :: p in s.spaces[i].ptes ==> !Covers(v, p))
      then Some(SetVmes(s, i, l)) else None
    case FaultShared(i, p, frame) =>
      var m := Missing(s, i, p);
      if m.None? || !m.value.shared || m.value.file < 0 then None else
      LookupIn(s.spaces[i].vmes, p);
      var k := KeyOf(m.value, p);
      var t := Take(s, k, PageBytes(m.value, p), frame);
      if t.None? then None else
      var u := if m.value.writable then t.value.(cache := Dirtied(t.value.cache, k)) else t.value;
      Some(Map(u, i, p, u.cache[k].frame))
    case FaultZero(i, p, frame) =>
      var m := Missing(s, i, p);
      if m.None? || m.value.shared || m.value.file >= 0 || m.value.paddr != 0 || frame in s.inUse then None
      else Some(Map(s.(inUse := s.inUse + {frame}), i, p, frame))
    case FaultDirect(i, p) =>
      var m := Missing(s, i, p);
      if m.None? || m.value.shared || m.value.file >= 0 || m.value.paddr == 0 then None
      else LookupIn(s.spaces[i].vmes, p); Some(Map(s, i, p, m.value.paddr + (p - m.value.start)))
    case BeginCopy(i, p, bytes, frame) =>
      var m := Missing(s, i, p);
      if m.None? || m.value.shared || m.value.file < 0 then None else
      LookupIn(s.spaces[i].vmes, p);
      var k := KeyOf(m.value, p);
      var t := Take(s, k, bytes, frame);
      if t.None? then None else Some(SetCopying(t.value, i, Some(k)))
    case EndCopy(i, p, frame) =>
      if i >= |s.spaces| || s.spaces[i].copying == None || p in s.spaces[i].ptes || frame in s.inUse then None else
      LookupIn(s.spaces[i].vmes, p);
      var m := Lookup(s.spaces[i].vmes, p);
      if m.None? || m.value.shared || m.value.file < 0 || m.value.paddr != 0 ||
         s.spaces[i].copying != Some(KeyOf(m.value, p)) then None else
      Some(Map(Drop(SetCopying(s.(inUse := s.inUse + {frame}), i, None), KeyOf(m.value, p)), i, p, frame))
    case Fork(i) =>
      if i < |s.spaces| && s.spaces[i].copying == None
      then Some(s.(spaces := s.spaces + [Space(s.spaces[i].vmes, map[], None)])) else None
    case ForkPage(i, j, p, frame) =>
      if i >= |s.spaces| || i == j || p !in s.spaces[i].ptes || s.spaces[i].copying != None then None else
      var m := Missing(s, j, p);
      if m.None? || !m.value.user || Lookup(s.spaces[i].vmes, p) != m then None else
      LookupIn(s.spaces[j].vmes, p);
      if m.value.shared then
        if m.value.file < 0 then None else
        var t := Take(s, KeyOf(m.value, p), PageBytes(m.value, p), frame);
        if t.None? then None else Some(Map(t.value, j, p, s.spaces[i].ptes[p]))
      else if frame in s.inUse then None
      else Some(Map(s.(inUse := s.inUse + {frame}), j, p, frame))
    case UnmapPage(i, p) =>
      if i >= |s.spaces| || p !in s.spaces[i].ptes || s.spaces[i].copying != None then None else
      match KindAt(s.spaces[i], p)
      case Cached(k) => Some(Unmap(Drop(s, k), i, p))
      case Window => Some(Unmap(s, i, p))
      case Own => Some(Unmap(s.(inUse := s.inUse - {s.spaces[i].ptes[p]}), i, p))
      case Nothing => None
  }

  // ----- What holds in every reachable state -----

  /** The places where the page of key `k` is mapped, and the copies of it under way. */
  ghost function RefSet(spaces: seq<Space>, k: Key): set<(nat, nat)> {
    set i: nat, p: nat | i < |spaces| && p in spaces[i].ptes && KindAt(spaces[i], p) == Cached(k) :: (i, p)
  }

  ghost function CopySet(spaces: seq<Space>, k: Key): set<nat> {
    set i: nat | i < |spaces| && spaces[i].copying == Some(k)
  }

  /** Who has a frame: an entry of the cache, a page of an address space, or nobody who would
      ever give it back. */
  datatype Owner = CacheOf(key: Key) | PageOf(i: nat, page: nat) | Stray

  ghost predicate SpaceOk(s: State, sp: Space) {
    && Sorted(sp.vmes) && (forall p :: p in sp.ptes ==> KindAt(sp, p) != Nothing)
    && (forall i :: 0 <= i < |sp.vmes| ==> (sp.vmes[i].paddr != 0 ==> sp.vmes[i].file == -1))
    && (forall p :: p in sp.ptes && KindAt(sp, p).Cached? ==>
          var k := KindAt(sp, p).key;
              k in s.cache && sp.ptes[p] == s.cache[k].frame && (WritableAt(sp, p) ==> s.cache[k].dirty))
  }

  /** The count of a cached page is the number of its references, `held` being those that an
      event in progress has taken and not yet put anywhere. */
  ghost predicate Counted(s: State, held: multiset<Key>) {
    forall k :: CountOk(s, held, k)
  }

  ghost predicate CountOk(s: State, held: multiset<Key>, k: Key) {
    && (if k in s.cache then s.cache[k].refs else 0) == |RefSet(s.spaces, k)| + |CopySet(s.spaces, k)| + held[k]
    && (k in s.cache ==> s.cache[k].refs > 0)
  }

  /** Every frame in use has one owner. */
  ghost predicate Owned(s: State, o: map<nat, Owner>) {
    && o.Keys == s.inUse
    && (forall k :: k in s.cache ==> s.cache[k].frame in o && o[s.cache[k].frame] == CacheOf(k))
    && (forall f :: f in o && o[f].CacheOf? ==> o[f].key in s.cache && s.cache[o[f].key].frame == f)
    && (forall i: nat, p :: i < |s.spaces| && p in s.spaces[i].ptes && KindAt(s.spaces[i], p) == Own ==>
          s.spaces[i].ptes[p] in o && o[s.spaces[i].ptes[p]] == PageOf(i, p))
    && (forall f :: f in o && o[f].PageOf? ==>
          o[f].i < |s.spaces| && KindAt(s.spaces[o[f].i], o[f].page) == Own && s.spaces[o[f].i].ptes[o[f].page] == f)
  }

  ghost predicate Inv(s: State, o: map<nat, Owner>, held: multiset<Key>) {
    && (forall i :: 0 <= i < |s.spaces| ==> SpaceOk(s, s.spaces[i]))
    && Counted(s, held) && Owned(s, o)
  }

  // ----- The pieces of the events -----

  lemma {:induction false} TakeSpaces(s: State, k: Key, bytes: nat, frame: nat)
    requires (forall i :: 0 <= i < |s.spaces| ==> SpaceOk(s, s.spaces[i])) && Take(s, k, bytes, frame).Some?
    ensures var t := Take(s, k, bytes, frame).value; forall i :: 0 <= i < |t.spaces| ==> SpaceOk(t, t.spaces[i])
  {
    hide KindAt, Sorted, WritableAt;
    var t := Take(s, k, bytes, frame).value;
    forall i | 0 <= i < |t.spaces| ensures SpaceOk(t, t.spaces[i]) { assert SpaceOk(s, s.spaces[i]); }
  }

  lemma {:induction false} TakeCounts(s: State, held: multiset<Key>, k: Key, bytes: nat, frame: nat)
    requires Counted(s, held) && Take(s, k, bytes, frame).Some?
    ensures Counted(Take(s, k, bytes, frame).value, held + multiset{k})
  {
    hide RefSet, CopySet;
    forall x ensures CountOk(Take(s, k, bytes, frame).value, held + multiset{k}, x) { assert CountOk(s, held, x); }
  }

  lemma {:induction false} TakeInv(s: State, o: map<nat, Owner>, held: multiset<Key>, k: Key, bytes: nat, frame: nat)
    requires Inv(s, o, held) && Take(s, k, bytes, frame).Some?
    ensures k in Take(s, k, bytes, frame).value.cache
    ensures Inv(Take(s, k, bytes, frame).value, if k in s.cache then o else o[frame := CacheOf(k)], held + multiset{k})
  {
    hide KindAt, SpaceOk, RefSet, CopySet, Counted;
    TakeSpaces(s, k, bytes, frame);
    TakeCounts(s, held, k, bytes, frame);
  }

  lemma {:induction false} CountsSame(s: State, t: State, held: multiset<Key>)
    requires Counted(s, held) && t.cache.Keys == s.cache.Keys && forall k :: k in s.cache ==>
             t.cache[k].refs == s.cache[k].refs
    requires forall k :: RefSet(t.spaces, k) == RefSet(s.spaces, k) && CopySet(t.spaces, k) == CopySet(s.spaces, k)
    ensures Counted(t, held)
  {
    hide RefSet, CopySet;
    forall k ensures CountOk(t, held, k) { assert CountOk(s, held, k); }
  }

  lemma {:induction false} DirtyInv(s: State, o: map<nat, Owner>, held: multiset<Key>, k: Key)
    requires Inv(s, o, held) && k in s.cache
    ensures Inv(s.(cache := Dirtied(s.cache, k)), o, held)
  {
    hide KindAt, RefSet, CopySet, Sorted, WritableAt;
    var t := s.(cache := Dirtied(s.cache, k));
    CountsSame(s, t, held);
    forall i | 0 <= i < |t.spaces| ensures SpaceOk(t, t.spaces[i]) { assert SpaceOk(s, s.spaces[i]); }
  }

  /** Mapping a page in space `i` is seen nowhere else. */
  lemma {:induction false} MapKinds(s: State, i: nat, p: nat, frame: nat)
    requires i < |s.spaces| && p !in s.spaces[i].ptes
    ensures var t := Map(s, i, p, frame);
            && |t.spaces| == |s.spaces|
            && (forall j: nat, q: nat :: j < |s.spaces| && (j != i || q != p) ==>
                  KindAt(t.spaces[j], q) == KindAt(s.spaces[j], q) &&
                    (q in t.spaces[j].ptes <==> q in s.spaces[j].ptes) &&
                  (q in s.spaces[j].ptes ==> t.spaces[j].ptes[q] == s.spaces[j].ptes[q]) &&
                  (WritableAt(t.spaces[j], q) <==> WritableAt(s.spaces[j], q)))
            && (forall j: nat :: j < |s.spaces| ==>
                t.spaces[j].copying == s.spaces[j].copying && t.spaces[j].vmes == s.spaces[j].vmes)
  {
  }

  lemma {:induction false} MapRefs(s: State, i: nat, p: nat, frame: nat, k: Key)
    requires i < |s.spaces| && p !in s.spaces[i].ptes
    ensures var t := Map(s, i, p, frame);
            && RefSet(t.spaces, k) == RefSet(s.spaces, k) +
              (if KindAt(t.spaces[i], p) == Cached(k) then {(i, p)} else {})
            && (i, p) !in RefSet(s.spaces, k) && CopySet(t.spaces, k) == CopySet(s.spaces, k)
  {
    hide KindAt, WritableAt;
    MapKinds(s, i, p, frame);
  }

  lemma {:induction false} MapSpace(s: State, i: nat, p: nat, frame: nat)
    requires i < |s.spaces| && p !in s.spaces[i].ptes && (forall j :: 0 <= j < |s.spaces| ==> SpaceOk(s, s.spaces[j]))
    requires var sp := Map(s, i, p, frame).spaces[i];
             && KindAt(sp, p) != Nothing
             && (KindAt(sp, p).Cached? ==>
                   var k := KindAt(sp, p).key;
                       k in s.cache && frame == s.cache[k].frame && (WritableAt(sp, p) ==> s.cache[k].dirty))
    ensures var t := Map(s, i, p, frame); forall j :: 0 <= j < |t.spaces| ==> SpaceOk(t, t.spaces[j])
  {
    hide KindAt, WritableAt, Sorted;
    MapKinds(s, i, p, frame);
    var t := Map(s, i, p, frame);
    forall j | 0 <= j < |t.spaces| ensures SpaceOk(t, t.spaces[j]) { assert SpaceOk(s, s.spaces[j]); }
  }

  lemma {:induction false} MapOwners(s: State, o: map<nat, Owner>, i: nat, p: nat, frame: nat)
    requires i < |s.spaces| && p !in s.spaces[i].ptes && Owned(s, o)
    ensures var t := Map(s, i, p, frame);
            && (KindAt(t.spaces[i], p) != Own ==> Owned(t, o))
            && (frame !in s.inUse && KindAt(t.spaces[i], p) == Own ==>
                Owned(t.(inUse := t.inUse + {frame}), o[frame := PageOf(i, p)]))
            && (frame !in s.inUse && KindAt(t.spaces[i], p) == Window ==>
                Owned(t.(inUse := t.inUse + {frame}), o[frame := Stray]))
  {
    MapKinds(s, i, p, frame);
    var t := Map(s, i, p, frame);
    assert t.spaces[i].ptes[p] == frame && p in t.spaces[i].ptes && t.cache == s.cache && t.inUse == s.inUse;
    hide KindAt, WritableAt, Map;
    OwnersMapped(s, t, o, i, p, frame);
  }

  lemma {:induction false} OwnersMapped(s: State, t: State, o: map<nat, Owner>, i: nat, p: nat, frame: nat)
    requires i < |s.spaces| == |t.spaces| && p !in s.spaces[i].ptes && Owned(s, o) && t.cache == s.cache &&
             t.inUse == s.inUse
    requires p in t.spaces[i].ptes && t.spaces[i].ptes[p] == frame
    requires forall j: nat, q: nat :: j < |s.spaces| && (j != i || q != p) ==>
               KindAt(t.spaces[j], q) == KindAt(s.spaces[j], q) && (q in t.spaces[j].ptes <==> q in s.spaces[j].ptes) &&
               (q in s.spaces[j].ptes ==> t.spaces[j].ptes[q] == s.spaces[j].ptes[q])
    ensures KindAt(t.spaces[i], p) != Own ==> Owned(t, o)
    ensures frame !in s.inUse && KindAt(t.spaces[i], p) == Own ==>
            Owned(t.(inUse := t.inUse + {frame}), o[frame := PageOf(i, p)])
    ensures frame !in s.inUse && KindAt(t.spaces[i], p) == Window ==>
            Owned(t.(inUse := t.inUse + {frame}), o[frame := Stray])
  {
    hide KindAt;
  }

  lemma {:induction false} MapCounts(s: State, held: multiset<Key>, i: nat, p: nat, frame: nat)
    requires i < |s.spaces| && p !in s.spaces[i].ptes && Counted(s, held)
    ensures var t := Map(s, i, p, frame);
            var kind := KindAt(t.spaces[i], p);
            && (kind.Cached? && kind.key in held ==> Counted(t, held - multiset{kind.key})) &&
              (!kind.Cached? ==> Counted(t, held))
  {
    var t := Map(s, i, p, frame);
    var kind := KindAt(t.spaces[i], p);
    assert t.cache == s.cache;
    hide KindAt, RefSet, CopySet, Map;
    var after := if kind.Cached? then held - multiset{kind.key} else held;
    forall x | kind.Cached? ==> kind.key in held ensures CountOk(t, after, x) {
      assert CountOk(s, held, x);
      MapRefs(s, i, p, frame, x);
    }
  }

  lemma {:induction false} MapShared(s: State, o: map<nat, Owner>, held: multiset<Key>, i: nat, p: nat, k: Key)
    requires Inv(s, o, held) && i < |s.spaces| && p !in s.spaces[i].ptes && k in held && k in s.cache
    requires var sp := Map(s, i, p, s.cache[k].frame).spaces[i];
             KindAt(sp, p) == Cached(k) && (WritableAt(sp, p) ==> s.cache[k].dirty)
    ensures Inv(Map(s, i, p, s.cache[k].frame), o, held - multiset{k})
  {
    hide KindAt, SpaceOk, Counted, Owned, WritableAt;
    MapSpace(s, i, p, s.cache[k].frame);
    MapCounts(s, held, i, p, s.cache[k].frame);
    MapOwners(s, o, i, p, s.cache[k].frame);
  }

  lemma {:induction false} MapWindow(s: State, o: map<nat, Owner>, held: multiset<Key>, i: nat, p: nat, frame: nat)
    requires Inv(s, o, held) && i < |s.spaces| && p !in s.spaces[i].ptes &&
             KindAt(Map(s, i, p, frame).spaces[i], p) == Window
    ensures Inv(Map(s, i, p, frame), o, held)
  {
    hide KindAt, SpaceOk, Counted, Owned, WritableAt;
    MapSpace(s, i, p, frame);
    MapCounts(s, held, i, p, frame);
    MapOwners(s, o, i, p, frame);
  }

  /** A page with a frame of its own; in a direct mapping nobody will ever give it back. */
  lemma {:induction false} MapNew(s: State, o: map<nat, Owner>, held: multiset<Key>, i: nat, p: nat, frame: nat)
    requires Inv(s, o, held) && i < |s.spaces| && p !in s.spaces[i].ptes && frame !in s.inUse
    requires var sp := Map(s, i, p, frame).spaces[i]; KindAt(sp, p) == Own || KindAt(sp, p) == Window
    ensures var t := Map(s.(inUse := s.inUse + {frame}), i, p, frame);
            Inv(t, o[frame := if KindAt(t.spaces[i], p) == Own then PageOf(i, p) else Stray], held)
  {
    var t := Map(s, i, p, frame);
    var u := t.(inUse := t.inUse + {frame});
    assert u == Map(s.(inUse := s.inUse + {frame}), i, p, frame);
    hide KindAt, SpaceOk, Owned, WritableAt, Map, RefSet, CopySet, Counted;
    MapSpace(s, i, p, frame);
    SpacesSame(t, u);
    MapCounts(s, held, i, p, frame);
    CountsSame(t, u, held);
    MapOwners(s, o, i, p, frame);
  }

  lemma {:induction false} SpacesSame(s: State, t: State)
    requires (forall j :: 0 <= j < |s.spaces| ==> SpaceOk(s, s.spaces[j])) && t.spaces == s.spaces && t.cache == s.cache
    ensures forall j :: 0 <= j < |t.spaces| ==> SpaceOk(t, t.spaces[j])
  {
    forall j | 0 <= j < |t.spaces| ensures SpaceOk(t, t.spaces[j]) { assert SpaceOk(s, s.spaces[j]); }
  }

  // ----- Unmapping -----

  lemma {:induction false} UnmapKinds(s: State, i: nat, p: nat)
    requires i < |s.spaces| && p in s.spaces[i].ptes
    ensures var t := Unmap(s, i, p);
            && |t.spaces| == |s.spaces| && p !in t.spaces[i].ptes
            && (forall j: nat, q: nat :: j < |s.spaces| && (j != i || q != p) ==>
                  KindAt(t.spaces[j], q) == KindAt(s.spaces[j], q) &&
                    (q in t.spaces[j].ptes <==> q in s.spaces[j].ptes) &&
                  (q in s.spaces[j].ptes ==> t.spaces[j].ptes[q] == s.spaces[j].ptes[q]) &&
                  (WritableAt(t.spaces[j], q) <==> WritableAt(s.spaces[j], q)))
            && (forall j: nat :: j < |s.spaces| ==>
                t.spaces[j].copying == s.spaces[j].copying && t.spaces[j].vmes == s.spaces[j].vmes)
  {
  }

  lemma {:induction false} UnmapRefs(s: State, i: nat, p: nat, k: Key)
    requires i < |s.spaces| && p in s.spaces[i].ptes
    ensures var t := Unmap(s, i, p);
            && RefSet(s.spaces, k) == RefSet(t.spaces, k) +
              (if KindAt(s.spaces[i], p) == Cached(k) then {(i, p)} else {})
            && (i, p) !in RefSet(t.spaces, k) && CopySet(t.spaces, k) == CopySet(s.spaces, k)
  {
    hide KindAt, WritableAt;
    UnmapKinds(s, i, p);
  }

  lemma {:induction false} UnmapSpace(s: State, i: nat, p: nat)
    requires i < |s.spaces| && p in s.spaces[i].ptes && (forall j :: 0 <= j < |s.spaces| ==> SpaceOk(s, s.spaces[j]))
    ensures var t := Unmap(s, i, p); forall j :: 0 <= j < |t.spaces| ==> SpaceOk(t, t.spaces[j])
  {
    hide KindAt, WritableAt, Sorted;
    UnmapKinds(s, i, p);
    var t := Unmap(s, i, p);
    forall j | 0 <= j < |t.spaces| ensures SpaceOk(t, t.spaces[j]) { assert SpaceOk(s, s.spaces[j]); }
  }

  lemma {:induction false} UnmapCounts(s: State, held: multiset<Key>, i: nat, p: nat)
    requires i < |s.spaces| && p in s.spaces[i].ptes && Counted(s, held)
    ensures var kind, t := KindAt(s.spaces[i], p), Unmap(s, i, p);
            Counted(t, if kind.Cached? then held + multiset{kind.key} else held)
  {
    var kind, t := KindAt(s.spaces[i], p), Unmap(s, i, p);
    assert t.cache == s.cache;
    hide KindAt, RefSet, CopySet, Unmap;
    var after := if kind.Cached? then held + multiset{kind.key} else held;
    forall x ensures CountOk(t, after, x) {
      assert CountOk(s, held, x);
      UnmapRefs(s, i, p, x);
    }
  }

  lemma {:induction false} UnmapOwners(s: State, o: map<nat, Owner>, i: nat, p: nat)
    requires i < |s.spaces| && p in s.spaces[i].ptes && Owned(s, o)
    ensures var kind, t, f := KindAt(s.spaces[i], p), Unmap(s, i, p), s.spaces[i].ptes[p];
            && (kind != Own ==> Owned(t, o)) && (kind == Own ==> f in o && Owned(t.(inUse := t.inUse - {f}), o - {f}))
  {
    UnmapKinds(s, i, p);
    var t, f := Unmap(s, i, p), s.spaces[i].ptes[p];
    assert t.cache == s.cache && t.inUse == s.inUse;
    hide KindAt, WritableAt, Unmap;
    OwnersUnmapped(s, t, o, i, p);
  }

  lemma {:induction false} OwnersUnmapped(s: State, t: State, o: map<nat, Owner>, i: nat, p: nat)
    requires i < |s.spaces| == |t.spaces| && p in s.spaces[i].ptes && Owned(s, o) && t.cache == s.cache &&
             t.inUse == s.inUse
    requires p !in t.spaces[i].ptes
    requires forall j: nat, q: nat :: j < |s.spaces| && (j != i || q != p) ==>
               KindAt(t.spaces[j], q) == KindAt(s.spaces[j], q) && (q in t.spaces[j].ptes <==> q in s.spaces[j].ptes) &&
               (q in s.spaces[j].ptes ==> t.spaces[j].ptes[q] == s.spaces[j].ptes[q])
    ensures KindAt(s.spaces[i], p) != Own ==> Owned(t, o)
    ensures var f := s.spaces[i].ptes[p];
            KindAt(s.spaces[i], p) == Own ==> f in o && Owned(t.(inUse := t.inUse - {f}), o - {f})
  {
    hide KindAt;
  }

  /** Clearing an entry leaves its reference, if it is to the cache, in our hands, and its frame,
      if it is the page's own, without an owner. */
  lemma {:induction false} UnmapInv(s: State, o: map<nat, Owner>, held: multiset<Key>, i: nat, p: nat)
    requires Inv(s, o, held) && i < |s.spaces| && p in s.spaces[i].ptes
    ensures var kind, t := KindAt(s.spaces[i], p), Unmap(s, i, p);
            && (kind.Cached? ==> Inv(t, o, held + multiset{kind.key}) && kind.key in s.cache)
            && (kind == Window ==> Inv(t, o, held))
            && (kind == Own ==>
                s.spaces[i].ptes[p] in o &&
                Inv(t.(inUse := t.inUse - {s.spaces[i].ptes[p]}), o - {s.spaces[i].ptes[p]}, held))
  {
    var t, f := Unmap(s, i, p), s.spaces[i].ptes[p];
    UnmapSpace(s, i, p);
    UnmapCounts(s, held, i, p);
    UnmapOwners(s, o, i, p);
    if KindAt(s.spaces[i], p).Cached? { CachedThere(s, i, p); }
    hide SpaceOk, Owned, WritableAt, Unmap, RefSet, CopySet, Counted;
    SpacesSame(t, t.(inUse := t.inUse - {f}));
    if KindAt(s.spaces[i], p) == Own { CountsSame(t, t.(inUse := t.inUse - {f}), held); }
  }

  lemma {:induction false} CachedThere(s: State, i: nat, p: nat)
    requires i < |s.spaces| && p in s.spaces[i].ptes && SpaceOk(s, s.spaces[i]) && KindAt(s.spaces[i], p).Cached?
    ensures var k := KindAt(s.spaces[i], p).key; k in s.cache && s.spaces[i].ptes[p] == s.cache[k].frame
    ensures WritableAt(s.spaces[i], p) ==> s.cache[KindAt(s.spaces[i], p).key].dirty
  {
  }

  // ----- References -----

  /** A page that nothing refers to is mapped nowhere. */
  lemma {:induction false} NoRefs(s: State, k: Key, i: nat, p: nat)
    requires |RefSet(s.spaces, k)| == 0 && i < |s.spaces| && p in s.spaces[i].ptes
    ensures KindAt(s.spaces[i], p) != Cached(k)
  {
    assert (i, p) !in RefSet(s.spaces, k);
  }

  lemma {:induction false} DropSpaces(s: State, k: Key)
    requires (forall j :: 0 <= j < |s.spaces| ==> SpaceOk(s, s.spaces[j])) && k in s.cache
    requires s.cache[k].refs <= 1 ==> |RefSet(s.spaces, k)| == 0
    ensures var t := Drop(s, k); forall j :: 0 <= j < |t.spaces| ==> SpaceOk(t, t.spaces[j])
  {
    hide KindAt, WritableAt, Sorted, RefSet;
    var t := Drop(s, k);
    forall j | 0 <= j < |t.spaces| ensures SpaceOk(t, t.spaces[j]) {
      assert SpaceOk(s, s.spaces[j]);
      forall p | p in s.spaces[j].ptes && s.cache[k].refs <= 1
             ensures KindAt(s.spaces[j], p) != Cached(k) { NoRefs(s, k, j, p); }
    }
  }

  lemma {:induction false} DropCounts(s: State, held: multiset<Key>, k: Key)
    requires Counted(s, held) && k in held
    ensures k in s.cache && Counted(Drop(s, k), held - multiset{k}) &&
            (s.cache[k].refs <= 1 ==> |RefSet(s.spaces, k)| == 0)
  {
    hide RefSet, CopySet;
    assert held[k] > 0 && CountOk(s, held, k);
    forall x ensures CountOk(Drop(s, k), held - multiset{k}, x) { assert CountOk(s, held, x); }
  }

  lemma {:induction false} DropOwners(s: State, o: map<nat, Owner>, k: Key)
    requires Owned(s, o) && k in s.cache
    ensures Owned(Drop(s, k), if s.cache[k].refs <= 1 then o - {s.cache[k].frame} else o)
  {
    hide KindAt;
  }

  lemma {:induction false} DropInv(s: State, o: map<nat, Owner>, held: multiset<Key>, k: Key)
    requires Inv(s, o, held) && k in held
    ensures k in s.cache
    ensures Inv(Drop(s, k), if s.cache[k].refs <= 1 then o - {s.cache[k].frame} else o, held - multiset{k})
  {
    hide KindAt, SpaceOk, WritableAt, RefSet, CopySet, Counted, Owned;
    DropCounts(s, held, k);
    DropOwners(s, o, k);
    DropSpaces(s, k);
  }

  lemma {:induction false} CopyRefs(s: State, i: nat, c: Option<Key>, k: Key)
    requires i < |s.spaces|
    ensures var t := SetCopying(s, i, c);
            && RefSet(t.spaces, k) == RefSet(s.spaces, k)
            && |CopySet(t.spaces, k)| == |CopySet(s.spaces, k)| - (if s.spaces[i].copying == Some(k) then 1 else 0) +
              (if c == Some(k) then 1 else 0)
  {
    var t := SetCopying(s, i, c);
    assert forall j: nat, p: nat :: j < |s.spaces| ==> KindAt(t.spaces[j], p) == KindAt(s.spaces[j], p);
    assert CopySet(t.spaces, k) - {i} == CopySet(s.spaces, k) - {i};
    assert i in CopySet(s.spaces, k) <==> s.spaces[i].copying == Some(k);
    assert i in CopySet(t.spaces, k) <==> c == Some(k);
    Sizes(CopySet(s.spaces, k), i);
    Sizes(CopySet(t.spaces, k), i);
  }

  lemma {:induction false} Sizes(a: set<nat>, i: nat)
    ensures |a| == |a - {i}| + if i in a then 1 else 0
  {
    if i in a { assert a == (a - {i}) + {i}; } else { assert a == a - {i}; }
  }

  /** The same pages are mapped in the same way. */
  ghost predicate SameMaps(s: State, t: State) {
    && |t.spaces| == |s.spaces| && t.cache == s.cache && t.inUse == s.inUse
    && (forall j :: 0 <= j < |s.spaces| ==> t.spaces[j].ptes == s.spaces[j].ptes)
    && (forall j: nat, p: nat :: j < |s.spaces| && p in s.spaces[j].ptes ==>
          KindAt(t.spaces[j], p) == KindAt(s.spaces[j], p) && WritableAt(t.spaces[j], p) == WritableAt(s.spaces[j], p))
  }

  lemma {:induction false} SameRefs(s: State, t: State, k: Key)
    requires SameMaps(s, t)
    ensures RefSet(t.spaces, k) == RefSet(s.spaces, k)
  {
    hide KindAt, WritableAt;
  }

  lemma {:induction false} SameOwners(s: State, t: State, o: map<nat, Owner>)
    requires SameMaps(s, t) && Owned(s, o)
    ensures Owned(t, o)
  {
    hide KindAt, WritableAt;
  }

  lemma {:induction false} SameSpace(s: State, t: State, j: nat)
    requires SameMaps(s, t) && j < |s.spaces| && SpaceOk(s, s.spaces[j]) && Sorted(t.spaces[j].vmes)
    requires forall i :: 0 <= i < |t.spaces[j].vmes| ==>
             (t.spaces[j].vmes[i].paddr != 0 ==> t.spaces[j].vmes[i].file == -1)
    ensures SpaceOk(t, t.spaces[j])
  {
    hide KindAt, WritableAt, Sorted;
  }

  lemma {:induction false} CopyCounts(s: State, held: multiset<Key>, i: nat, c: Option<Key>)
    requires Counted(s, held) && i < |s.spaces|
    requires (c.None? && s.spaces[i].copying.Some?) || (c.Some? && s.spaces[i].copying == None && c.value in held)
    ensures Counted(SetCopying(s, i, c), if c.None? then held + multiset{s.spaces[i].copying.value}
                    else held - multiset{c.value})
  {
    var t, was := SetCopying(s, i, c), s.spaces[i].copying;
    assert t.cache == s.cache;
    hide KindAt, RefSet, CopySet;
    var after := if c.None? then held + multiset{was.value} else held - multiset{c.value};
    forall x ensures CountOk(t, after, x) {
      assert CountOk(s, held, x);
      CopyRefs(s, i, c, x);
    }
  }

  lemma {:induction false} CopyingInv(s: State, o: map<nat, Owner>, held: multiset<Key>, i: nat, c: Option<Key>)
    requires Inv(s, o, held) && i < |s.spaces|
    requires (c.None? && s.spaces[i].copying.Some?) || (c.Some? && s.spaces[i].copying == None && c.value in held)
    ensures Inv(SetCopying(s, i, c), o, if c.None? then held + multiset{s.spaces[i].copying.value}
                else held - multiset{c.value})
  {
    var t := SetCopying(s, i, c);
    assert SameMaps(s, t);
    hide KindAt, WritableAt, RefSet, CopySet, Sorted, SameMaps, Owned, Counted;
    SameOwners(s, t, o);
    CopyCounts(s, held, i, c);
    forall j | 0 <= j < |t.spaces| ensures SpaceOk(t, t.spaces[j]) {
      assert SpaceOk(s, s.spaces[j]);
      SameSpace(s, t, j);
    }
    hide SpaceOk, SetCopying;
  }

  // ----- Ranges and address spaces -----

  lemma {:induction false} VmesSame(s: State, i: nat, l: seq<Vme>)
    requires i < |s.spaces| && forall p :: p in s.spaces[i].ptes ==> Lookup(l, p) == Lookup(s.spaces[i].vmes, p)
    ensures SameMaps(s, SetVmes(s, i, l))
    ensures forall k :: CopySet(SetVmes(s, i, l).spaces, k) == CopySet(s.spaces, k)
  {
  }

  lemma {:induction false} VmesInv(s: State, o: map<nat, Owner>, held: multiset<Key>, i: nat, l: seq<Vme>)
    requires Inv(s, o, held) && i < |s.spaces| && Sorted(l) && forall p :: p in s.spaces[i].ptes ==>
             Lookup(l, p) == Lookup(s.spaces[i].vmes, p)
    requires forall j :: 0 <= j < |l| ==> (l[j].paddr != 0 ==> l[j].file == -1)
    ensures Inv(SetVmes(s, i, l), o, held)
  {
    var t := SetVmes(s, i, l);
    VmesSame(s, i, l);
    hide KindAt, WritableAt, RefSet, CopySet, Sorted, SameMaps, Owned, Lookup;
    SameOwners(s, t, o);
    forall j | 0 <= j < |t.spaces| ensures SpaceOk(t, t.spaces[j]) {
      assert SpaceOk(s, s.spaces[j]);
      SameSpace(s, t, j);
    }
    forall x ensures RefSet(t.spaces, x) == RefSet(s.spaces, x) { SameRefs(s, t, x); }
    hide SpaceOk, Counted;
    CountsSame(s, t, held);
  }

  lemma {:induction false} AddInv(s: State, o: map<nat, Owner>, held: multiset<Key>, i: nat, l: seq<Vme>, v: Vme)
    requires Inv(s, o, held) && i < |s.spaces| && Sorted(l) && Inserted(s.spaces[i].vmes, l, v) &&
             (v.paddr != 0 ==> v.file == -1)
    ensures Inv(SetVmes(s, i, l), o, held)
  {
    var l0 := s.spaces[i].vmes;
    assert SpaceOk(s, s.spaces[i]);
    forall p | p in s.spaces[i].ptes ensures Lookup(l, p) == Lookup(l0, p) {
      assert KindAt(s.spaces[i], p) != Nothing;
      LookupInserted(l0, l, v, p);
      StillFound(l0, l, v, p);
    }
    hide KindAt, WritableAt, Lookup, Sorted, SpaceOk, Counted, Owned;
    VmesInv(s, o, held, i, l);
  }

  /** A page of an old range is not in the new one. */
  lemma {:induction false} StillFound(l: seq<Vme>, l': seq<Vme>, v: Vme, p: nat)
    requires Sorted(l') && Inserted(l, l', v) && Lookup(l, p).Some?
    ensures !Covers(v, p)
  {
    hide Sorted;
    LookupIn(l, p);
    var k :| 0 <= k <= |l| && l' == l[..k] + [v] + l[k..];
    var j :| 0 <= j < |l| && l[j] == Lookup(l, p).value;
    var j' := if j < k then j else j + 1;
    assert l'[j'] == l[j] && l'[k] == v;
    if Covers(v, p) { OneCover(l', p, j', k); }
  }

  lemma {:induction false} RemoveInv(s: State, o: map<nat, Owner>, held: multiset<Key>, i: nat, l: seq<Vme>, v: Vme)
    requires Inv(s, o, held) && i < |s.spaces| && Sorted(l) && Inserted(l, s.spaces[i].vmes, v)
    requires forall p :: p in s.spaces[i].ptes ==> !Covers(v, p)
    ensures Inv(SetVmes(s, i, l), o, held)
  {
    var l0 := s.spaces[i].vmes;
    assert SpaceOk(s, s.spaces[i]);
    forall p | p in s.spaces[i].ptes ensures Lookup(l, p) == Lookup(l0, p) { LookupInserted(l, l0, v, p); }
    forall j | 0 <= j < |l| ensures l[j].paddr != 0 ==> l[j].file == -1 {
      var k :| 0 <= k <= |l| && l0 == l[..k] + [v] + l[k..];
      assert l0[if j < k then j else j + 1] == l[j];
    }
    hide KindAt, WritableAt, Lookup, Sorted, SpaceOk, Counted, Owned;
    VmesInv(s, o, held, i, l);
  }

  lemma {:induction false} ForkRefs(s: State, sp: Space, k: Key)
    requires sp.ptes == map[] && sp.copying == None
    ensures RefSet(s.spaces + [sp], k) == RefSet(s.spaces, k) && CopySet(s.spaces + [sp], k) == CopySet(s.spaces, k)
  {
    hide KindAt;
  }

  lemma {:induction false} ForkOwners(s: State, o: map<nat, Owner>, sp: Space)
    requires Owned(s, o) && sp.ptes == map[]
    ensures Owned(s.(spaces := s.spaces + [sp]), o)
  {
    hide KindAt;
  }

  lemma {:induction false} ForkInv(s: State, o: map<nat, Owner>, held: multiset<Key>, i: nat)
    requires Inv(s, o, held) && i < |s.spaces|
    ensures Inv(s.(spaces := s.spaces + [Space(s.spaces[i].vmes, map[], None)]), o, held)
  {
    var sp := Space(s.spaces[i].vmes, map[], None);
    var t := s.(spaces := s.spaces + [sp]);
    hide KindAt, WritableAt, Sorted, Owned, RefSet, CopySet, Counted;
    ForkOwners(s, o, sp);
    forall x ensures RefSet(t.spaces, x) == RefSet(s.spaces, x) &&
           CopySet(t.spaces, x) == CopySet(s.spaces, x) { ForkRefs(s, sp, x); }
    forall j | 0 <= j < |t.spaces| ensures SpaceOk(t, t.spaces[j]) {
      assert SpaceOk(s, s.spaces[if j < |s.spaces| then j else i]);
    }
    CountsSame(s, t, held);
    hide SpaceOk;
  }

  // ----- Every event keeps it -----

  /** What a page becomes when it is mapped. */
  lemma {:induction false} MappedKind(s: State, i: nat, p: nat, frame: nat)
    requires i < |s.spaces| && Lookup(s.spaces[i].vmes, p).Some?
    ensures Covers(Lookup(s.spaces[i].vmes, p).value, p)
    ensures var v, sp := Lookup(s.spaces[i].vmes, p).value, Map(s, i, p, frame).spaces[i];
            && (WritableAt(sp, p) <==> v.writable)
            && (v.shared && v.file >= 0 ==> KindAt(sp, p) == Cached(KeyOf(v, p)))
            && (!v.shared ==> KindAt(sp, p) == if v.paddr != 0 then Window else Own)
  {
    LookupIn(s.spaces[i].vmes, p);
  }

  lemma {:induction false} TookSpaces(s: State, k: Key, bytes: nat, frame: nat)
    requires Take(s, k, bytes, frame).Some?
    ensures Take(s, k, bytes, frame).value.spaces == s.spaces && k in Take(s, k, bytes, frame).value.cache
    ensures k in s.cache ==> Take(s, k, bytes, frame).value.cache[k].frame == s.cache[k].frame &&
                             Take(s, k, bytes, frame).value.cache[k].dirty == s.cache[k].dirty
  {
  }

  lemma {:induction false} FaultSharedInv(s: State, o: map<nat, Owner>, i: nat, p: nat, frame: nat)
    returns (o': map<nat, Owner>)
    requires Inv(s, o, multiset{}) && Do(s, FaultShared(i, p, frame)).Some?
    ensures Inv(Do(s, FaultShared(i, p, frame)).value, o', multiset{}) && SameStrays(o, o')
  {
    hide Inv, KindAt, WritableAt, Lookup, PageBytes, Take;
    var m := Missing(s, i, p);
    MappedKind(s, i, p, frame);
    var k := KeyOf(m.value, p);
    var t := Take(s, k, PageBytes(m.value, p), frame).value;
    TakeInv(s, o, multiset{}, k, PageBytes(m.value, p), frame);
    TookSpaces(s, k, PageBytes(m.value, p), frame);
    o' := if k in s.cache then o else o[frame := CacheOf(k)];
    StraysTook(s, o, k, PageBytes(m.value, p), frame);
    var u := if m.value.writable then t.(cache := Dirtied(t.cache, k)) else t;
    if m.value.writable { DirtyInv(t, o', multiset{} + multiset{k}, k); }
    MappedKind(u, i, p, u.cache[k].frame);
    MapShared(u, o', multiset{} + multiset{k}, i, p, k);
    assert multiset{} + multiset{k} - multiset{k} == multiset{};
  }

  ghost predicate SameStrays(o: map<nat, Owner>, o': map<nat, Owner>) {
    forall f :: (f in o && o[f] == Stray) <==> (f in o' && o'[f] == Stray)
  }

  lemma {:induction false} StraysTook(s: State, o: map<nat, Owner>, k: Key, bytes: nat, frame: nat)
    requires Inv(s, o, multiset{}) && Take(s, k, bytes, frame).Some?
    ensures SameStrays(o, if k in s.cache then o else o[frame := CacheOf(k)])
  {
    hide KindAt, SpaceOk, Counted;
  }

  /** A free frame has no owner. */
  lemma {:induction false} FreshStray(s: State, o: map<nat, Owner>, held: multiset<Key>, frame: nat, w: Owner)
    requires Inv(s, o, held) && frame !in s.inUse && w != Stray
    ensures SameStrays(o, o[frame := w])
  {
    hide KindAt, SpaceOk, Counted;
  }

  lemma {:induction false} BeginCopyInv(s: State, o: map<nat, Owner>, i: nat, p: nat, bytes: nat, frame: nat)
    returns (o': map<nat, Owner>)
    requires Inv(s, o, multiset{}) && Do(s, BeginCopy(i, p, bytes, frame)).Some?
    ensures Inv(Do(s, BeginCopy(i, p, bytes, frame)).value, o', multiset{}) && SameStrays(o, o')
  {
    hide Inv, KindAt, WritableAt, Lookup, Take;
    var m := Missing(s, i, p);
    MappedKind(s, i, p, frame);
    var k := KeyOf(m.value, p);
    TakeInv(s, o, multiset{}, k, bytes, frame);
    TookSpaces(s, k, bytes, frame);
    o' := if k in s.cache then o else o[frame := CacheOf(k)];
    StraysTook(s, o, k, bytes, frame);
    CopyingInv(Take(s, k, bytes, frame).value, o', multiset{} + multiset{k}, i, Some(k));
    assert multiset{} + multiset{k} - multiset{k} == multiset{};
  }

  /** A frame that the cache gives up was in use, and not a stray one. */
  lemma {:induction false} CacheFrame(s: State, o: map<nat, Owner>, held: multiset<Key>, k: Key)
    requires Inv(s, o, held) && k in s.cache
    ensures s.cache[k].frame in s.inUse && SameStrays(o, o - {s.cache[k].frame})
  {
    hide KindAt, SpaceOk, Counted;
  }

  lemma {:induction false} EndCopyInv(s: State, o: map<nat, Owner>, i: nat, p: nat, frame: nat)
    returns (o': map<nat, Owner>)
    requires Inv(s, o, multiset{}) && Do(s, EndCopy(i, p, frame)).Some?
    ensures Inv(Do(s, EndCopy(i, p, frame)).value, o', multiset{}) && SameStrays(o, o')
  {
    hide Inv, KindAt, WritableAt, Lookup;
    MappedKind(s, i, p, frame);
    var k := s.spaces[i].copying.value;
    CopyingInv(s, o, multiset{}, i, None);
    var t := SetCopying(s, i, None);
    DropInv(t, o, multiset{} + multiset{k}, k);
    CacheFrame(t, o, multiset{} + multiset{k}, k);
    var u := Drop(t, k);
    var o1 := if t.cache[k].refs <= 1 then o - {t.cache[k].frame} else o;
    assert multiset{} + multiset{k} - multiset{k} == multiset{};
    MappedKind(u, i, p, frame);
    MapNew(u, o1, multiset{}, i, p, frame);
    o' := o1[frame := PageOf(i, p)];
    FreshStray(u, o1, multiset{}, frame, PageOf(i, p));
    assert Do(s, EndCopy(i, p, frame)).value == Map(u.(inUse := u.inUse + {frame}), i, p, frame);
  }

  /** A copied page of a direct mapping: fork gives it a frame, and unmapping leaves it. */
  ghost predicate Leaks(s: State, e: Event) {
    e.ForkPage? && e.i < |s.spaces| && KindAt(s.spaces[e.i], e.page) == Window
  }

  lemma {:induction false} SourceKind(s: State, i: nat, j: nat, p: nat)
    requires i < |s.spaces| && j < |s.spaces| && p in s.spaces[i].ptes &&
             Lookup(s.spaces[i].vmes, p) == Lookup(s.spaces[j].vmes, p)
    requires Lookup(s.spaces[j].vmes, p).Some?
    ensures var v := Lookup(s.spaces[j].vmes, p).value;
            && Covers(v, p) && (WritableAt(s.spaces[i], p) <==> v.writable)
            && (v.shared && v.file >= 0 ==> KindAt(s.spaces[i], p) == Cached(KeyOf(v, p)))
            && (!v.shared ==> KindAt(s.spaces[i], p) == if v.paddr != 0 then Window else Own)
            && (v.shared ==> KindAt(s.spaces[i], p) != Window)
  {
    LookupIn(s.spaces[i].vmes, p);
  }

  lemma {:induction false} ForkPageInv(s: State, o: map<nat, Owner>, i: nat, j: nat, p: nat, frame: nat)
    returns (o': map<nat, Owner>)
    requires Inv(s, o, multiset{}) && Do(s, ForkPage(i, j, p, frame)).Some?
    ensures Inv(Do(s, ForkPage(i, j, p, frame)).value, o', multiset{})
    ensures if Leaks(s, ForkPage(i, j, p, frame)) then frame !in o && o' == o[frame := Stray] else SameStrays(o, o')
  {
    hide Inv, KindAt, WritableAt, Lookup, Take, PageBytes;
    var m := Missing(s, j, p);
    SourceKind(s, i, j, p);
    if m.value.shared {
      var k := KeyOf(m.value, p);
      EntryFrame(s, o, i, p);
      var t := Take(s, k, PageBytes(m.value, p), frame).value;
      TakeInv(s, o, multiset{}, k, PageBytes(m.value, p), frame);
      TookSpaces(s, k, PageBytes(m.value, p), frame);
      o' := o;
      MappedKind(t, j, p, t.cache[k].frame);
      MapShared(t, o', multiset{} + multiset{k}, j, p, k);
      assert multiset{} + multiset{k} - multiset{k} == multiset{};
    } else {
      MappedKind(s, j, p, frame);
      MapNew(s, o, multiset{}, j, p, frame);
      MappedKind(s.(inUse := s.inUse + {frame}), j, p, frame);
      o' := o[frame := if m.value.paddr != 0 then Stray else PageOf(j, p)];
      FreshStray(s, o, multiset{}, frame, PageOf(j, p));
      NotOwned(s, o, frame);
    }
  }

  lemma {:induction false} NotOwned(s: State, o: map<nat, Owner>, frame: nat)
    requires Inv(s, o, multiset{}) && frame !in s.inUse
    ensures frame !in o
  {
    hide KindAt, SpaceOk, Counted;
  }

  /** A shared entry maps the frame of its page in the cache. */
  lemma {:induction false} EntryFrame(s: State, o: map<nat, Owner>, i: nat, p: nat)
    requires Inv(s, o, multiset{}) && i < |s.spaces| && p in s.spaces[i].ptes && KindAt(s.spaces[i], p).Cached?
    ensures var k := KindAt(s.spaces[i], p).key;
            k in s.cache && s.spaces[i].ptes[p] == s.cache[k].frame && (WritableAt(s.spaces[i], p) ==> s.cache[k].dirty)
  {
    hide KindAt, WritableAt, Counted, Owned, SpaceOk;
    CachedThere(s, i, p);
  }

  lemma {:induction false} UnmapPageInv(s: State, o: map<nat, Owner>, i: nat, p: nat) returns (o': map<nat, Owner>)
    requires Inv(s, o, multiset{}) && Do(s, UnmapPage(i, p)).Some?
    ensures Inv(Do(s, UnmapPage(i, p)).value, o', multiset{}) && SameStrays(o, o')
  {
    hide Inv, KindAt, WritableAt;
    UnmapInv(s, o, multiset{}, i, p);
    var kind, t, f := KindAt(s.spaces[i], p), Unmap(s, i, p), s.spaces[i].ptes[p];
    o' := o;
    if kind.Cached? {
      var k := kind.key;
      DropInv(t, o, multiset{} + multiset{k}, k);
      CacheFrame(t, o, multiset{} + multiset{k}, k);
      o' := if t.cache[k].refs <= 1 then o - {t.cache[k].frame} else o;
      assert multiset{} + multiset{k} - multiset{k} == multiset{};
      assert Unmap(Drop(s, k), i, p) == Drop(t, k);
    } else if kind == Own {
      o' := o - {f};
      OwnFrame(s, o, i, p);
      assert Unmap(s.(inUse := s.inUse - {f}), i, p) == t.(inUse := t.inUse - {f});
    }
  }

  lemma {:induction false} OwnFrame(s: State, o: map<nat, Owner>, i: nat, p: nat)
    requires Inv(s, o, multiset{}) && i < |s.spaces| && p in s.spaces[i].ptes && KindAt(s.spaces[i], p) == Own
    ensures SameStrays(o, o - {s.spaces[i].ptes[p]})
  {
    hide KindAt, SpaceOk, Counted;
  }

  lemma {:induction false} StepInv(s: State, o: map<nat, Owner>, e: Event) returns (o': map<nat, Owner>)
    requires Inv(s, o, multiset{}) && Do(s, e).Some?
    ensures Inv(Do(s, e).value, o', multiset{})
    ensures if Leaks(s, e) then e.frame !in o && o' == o[e.frame := Stray] else SameStrays(o, o')
  {
    hide Inv, KindAt, WritableAt, Lookup, Take, PageBytes, Sorted, Inserted;
    o' := o;
    match e
    case AddVme(i, l, v) => AddInv(s, o, multiset{}, i, l, v);
    case DropVme(i, l, v) => RemoveInv(s, o, multiset{}, i, l, v);
    case FaultShared(i, p, frame) => o' := FaultSharedInv(s, o, i, p, frame);
    case FaultZero(i, p, frame) =>
      MappedKind(s, i, p, frame);
      MapNew(s, o, multiset{}, i, p, frame);
      MappedKind(s.(inUse := s.inUse + {frame}), i, p, frame);
      o' := o[frame := PageOf(i, p)];
      FreshStray(s, o, multiset{}, frame, PageOf(i, p));
    case FaultDirect(i, p) =>
      MappedKind(s, i, p, 0);
      var frame := Missing(s, i, p).value.paddr + (p - Missing(s, i, p).value.start);
      MappedKind(s, i, p, frame);
      MapWindow(s, o, multiset{}, i, p, frame);
    case BeginCopy(i, p, bytes, frame) => o' := BeginCopyInv(s, o, i, p, bytes, frame);
    case EndCopy(i, p, frame) => o' := EndCopyInv(s, o, i, p, frame);
    case Fork(i) => ForkInv(s, o, multiset{}, i);
    case ForkPage(i, j, p, frame) => o' := ForkPageInv(s, o, i, j, p, frame);
    case UnmapPage(i, p) => o' := UnmapPageInv(s, o, i, p);
  }

  // ----- Runs -----

  /** Address spaces with nothing mapped, and an empty cache. */
  function Start(n: nat): State {
    State(map[], seq(n, _ => Space([], map[], None)), {})
  }

  /** `s` is where the events of `run` lead, `leaks` of them being leaks. */
  ghost predicate Reaches(n: nat, run: seq<Event>, leaks: nat, s: State)
    decreases |run|, 0
  {
    if run == [] then s == Start(n) && leaks == 0 else Then(n, run[..|run| - 1], run[|run| - 1], leaks, s)
  }

  ghost predicate Then(n: nat, run: seq<Event>, e: Event, leaks: nat, s: State)
    decreases |run|, 1
  {
    exists r, k: nat :: Reaches(n, run, k, r) && Leads(r, e, s) && leaks == k + if Leaks(r, e) then 1 else 0
  }

  ghost predicate Leads(r: State, e: Event, s: State) {
    Do(r, e) == Some(s)
  }

  ghost function Strays(o: map<nat, Owner>): set<nat> {
    set f | f in o && o[f] == Stray
  }

  lemma {:induction false} StartInv(n: nat)
    ensures Inv(Start(n), map[], multiset{}) && Strays(map[]) == {}
  {
    var s := Start(n);
    forall k ensures CountOk(s, multiset{}, k) {
      assert RefSet(s.spaces, k) == {} && CopySet(s.spaces, k) == {};
    }
  }

  lemma {:induction false} RunInv(n: nat, run: seq<Event>, leaks: nat, s: State) returns (o: map<nat, Owner>)
    requires Reaches(n, run, leaks, s)
    ensures Inv(s, o, multiset{}) && |Strays(o)| == leaks
    decreases |run|
  {
    hide Inv, Do, Leaks, Start;
    if run == [] {
      o := map[];
      StartInv(n);
    } else {
      var r, k: nat :| Reaches(n, run[..|run| - 1], k, r) && Leads(r, run[|run| - 1], s) &&
          leaks == k + if Leaks(r, run[|run| - 1]) then 1 else 0;
      var o0 := RunInv(n, run[..|run| - 1], k, r);
      o := StepInv(r, o0, run[|run| - 1]);
      LeaksFork(r, run[|run| - 1]);
      if Leaks(r, run[|run| - 1]) {
        assert Strays(o) == Strays(o0) + {run[|run| - 1].frame};
      } else {
        assert Strays(o) == Strays(o0);
      }
    }
  }

  lemma {:induction false} LeaksFork(s: State, e: Event)
    ensures Leaks(s, e) ==> e.ForkPage?
  {
  }

  // ----- What every run guarantees -----

  /** The count of a cached page is the number of page table entries that map it, in all address
      spaces, and of copies under way; and a page is in the cache as long as there is one. */
  lemma {:induction false} CountsAreExact(n: nat, run: seq<Event>, leaks: nat, s: State, k: Key)
    requires Reaches(n, run, leaks, s)
    ensures k in s.cache <==> RefSet(s.spaces, k) != {} || CopySet(s.spaces, k) != {}
    ensures k in s.cache ==> s.cache[k].refs == |RefSet(s.spaces, k)| + |CopySet(s.spaces, k)|
  {
    hide RefSet, CopySet, KindAt;
    var o := RunInv(n, run, leaks, s);
    assert CountOk(s, multiset{}, k);
  }

  /** Shared mappings of the same part of a file are the same page, and one that can be written
      through is marked to be written back. */
  lemma {:induction false} SharedIsShared(n: nat, run: seq<Event>, leaks: nat, s: State, i: nat, p: nat)
    requires Reaches(n, run, leaks, s) && i < |s.spaces| && p in s.spaces[i].ptes && KindAt(s.spaces[i], p).Cached?
    ensures var k := KindAt(s.spaces[i], p).key;
            k in s.cache && s.spaces[i].ptes[p] == s.cache[k].frame && (WritableAt(s.spaces[i], p) ==> s.cache[k].dirty)
  {
    hide Inv, KindAt, WritableAt;
    var o := RunInv(n, run, leaks, s);
    EntryFrame(s, o, i, p);
  }

  /** The assertion in fork: where a page of a shared mapping is copied, the acquire finds the page
      in the cache, and the frame it returns is the one that the parent has mapped. */
  lemma {:induction false} ForkSource(n: nat, run: seq<Event>, leaks: nat, s: State, i: nat, j: nat, p: nat, frame: nat)
    requires Reaches(n, run, leaks, s) && Do(s, ForkPage(i, j, p, frame)).Some?
    requires Missing(s, j, p).Some? && Missing(s, j, p).value.shared
    ensures var t := Do(s, ForkPage(i, j, p, frame)).value;
            && KindAt(s.spaces[i], p).Cached? && KindAt(t.spaces[j], p) == KindAt(s.spaces[i], p)
            && var k := KindAt(s.spaces[i], p).key;
            && k in s.cache && t.cache == s.cache[k := s.cache[k].(refs := s.cache[k].refs + 1)]
            && t.cache[k].frame == s.spaces[i].ptes[p] == t.spaces[j].ptes[p] && t.inUse == s.inUse
  {
    hide Inv, KindAt, WritableAt, Lookup, PageBytes;
    var o := RunInv(n, run, leaks, s);
    SourceKind(s, i, j, p);
    EntryFrame(s, o, i, p);
    MappedKind(s, j, p, s.spaces[i].ptes[p]);
  }

  /** Frames that back the cache and frames that back private pages are all different. */
  lemma {:induction false} FramesApart(n: nat, run: seq<Event>, leaks: nat, s: State, i: nat, p: nat, j: nat, q: nat,
                                       k: Key, l: Key)
    requires Reaches(n, run, leaks, s) && i < |s.spaces| && j < |s.spaces|
    ensures KindAt(s.spaces[i], p) == Own ==> s.spaces[i].ptes[p] in s.inUse
    ensures KindAt(s.spaces[i], p) == Own && KindAt(s.spaces[j], q) == Own ==>
              (s.spaces[i].ptes[p] == s.spaces[j].ptes[q] ==> i == j && p == q)
    ensures KindAt(s.spaces[i], p) == Own && k in s.cache ==> s.spaces[i].ptes[p] != s.cache[k].frame
    ensures k in s.cache && l in s.cache && s.cache[k].frame == s.cache[l].frame ==> k == l
  {
    hide KindAt, SpaceOk, Counted;
    var o := RunInv(n, run, leaks, s);
  }

  /** The frames that some entry or page has. */
  ghost function HeldFrames(s: State): set<nat> {
    (set k | k in s.cache :: s.cache[k].frame) +
    (set i: nat, p: nat | i < |s.spaces| && p in s.spaces[i].ptes && KindAt(s.spaces[i], p) == Own ::
     s.spaces[i].ptes[p])
  }

  /** No frame is lost, except one for each page of a direct mapping that a fork copies: that is
      how many frames are in use and held by nobody. */
  lemma {:induction false} FramesLost(n: nat, run: seq<Event>, leaks: nat, s: State)
    requires Reaches(n, run, leaks, s)
    ensures HeldFrames(s) <= s.inUse && |s.inUse - HeldFrames(s)| == leaks
  {
    hide KindAt, SpaceOk, Counted, Leaks, Do;
    var o := RunInv(n, run, leaks, s);
    forall f | f in s.inUse ensures f in HeldFrames(s) <==> o[f] != Stray {
      if o[f].PageOf? { assert s.spaces[o[f].i].ptes[o[f].page] == f; }
    }
    assert s.inUse - HeldFrames(s) == Strays(o);
  }

  lemma {:induction false} Extend(n: nat, run: seq<Event>, leaks: nat, r: State, e: Event, s: State)
    requires Reaches(n, run, leaks, r) && Do(r, e) == Some(s)
    ensures Reaches(n, run + [e], leaks + (if Leaks(r, e) then 1 else 0), s)
  {
    hide Do, Leaks;
    assert (run + [e])[..|run|] == run;
    assert Leads(r, e, s);
  }

  const TILES := Vme(USER_START, USER_START + PAGE, PAGE, true, false, true, -1, 0, 0x1000)

  function Two(a: map<nat, nat>, b: map<nat, nat>, inUse: set<nat>): State {
    State(map[], [Space([TILES], a, None), Space([TILES], b, None)], inUse)
  }

  lemma {:induction false} TilesFound()
    ensures Sorted([TILES]) && Inserted([], [TILES], TILES) && Lookup([TILES], USER_START) == Some(TILES)
  {
    var v := TILES;
    assert GoodVme(v);
    assert [v] == [][..0] + [v] + [][0..];
  }

  lemma {:induction false} AddTiles()
    ensures Reaches(1, [AddVme(0, [TILES], TILES)], 0, State(map[], [Space([TILES], map[], None)], {}))
  {
    hide Sorted, Inserted, Lookup;
    TilesFound();
    var s1 := SetVmes(Start(1), 0, [TILES]);
    assert s1.spaces == [Space([TILES], map[], None)];
    Extend(1, [], 0, Start(1), AddVme(0, [TILES], TILES), s1);
    assert [] + [AddVme(0, [TILES], TILES)] == [AddVme(0, [TILES], TILES)];
  }

  lemma {:induction false} ShowTiles() returns (run: seq<Event>)
    ensures Reaches(1, run, 0, State(map[], [Space([TILES], map[USER_START := 0x1000], None)], {}))
  {
    hide Sorted, Inserted, Lookup, Reaches, KindAt;
    var p := USER_START;
    AddTiles();
    TilesFound();
    run := [AddVme(0, [TILES], TILES)];
    var s1 := State(map[], [Space([TILES], map[], None)], {});
    assert Map(s1, 0, p, 0x1000) == State(map[], [Space([TILES], map[p := 0x1000], None)], {});
    Extend(1, run, 0, s1, FaultDirect(0, p), Map(s1, 0, p, 0x1000));
    run := run + [FaultDirect(0, p)];
  }

  lemma {:induction false} ForkTiles() returns (run: seq<Event>)
    ensures Reaches(1, run, 1, Two(map[USER_START := 0x1000], map[USER_START := 7], {7}))
  {
    hide Sorted, Inserted, Reaches;
    var p, v := USER_START, TILES;
    run := ShowTiles();
    TilesFound();
    var s2 := State(map[], [Space([v], map[p := 0x1000], None)], {});
    var s3 := Two(map[p := 0x1000], map[], {});
    assert s2.spaces + [Space([v], map[], None)] == s3.spaces;
    Extend(1, run, 0, s2, Fork(0), s3);
    run := run + [Fork(0)];
    var s4 := Two(map[p := 0x1000], map[p := 7], {7});
    assert Map(s3.(inUse := s3.inUse + {7}), 1, p, 7) == s4;
    Extend(1, run, 0, s3, ForkPage(0, 1, p, 7), s4);
    run := run + [ForkPage(0, 1, p, 7)];
  }

  /** A tile map shown to a user program, a fork, and both programs unmap it: one frame is gone. */
  lemma {:induction false} LostFrame() returns (run: seq<Event>, s: State)
    ensures Reaches(1, run, 1, s) && s.inUse == {7} && forall i :: 0 <= i < |s.spaces| ==> s.spaces[i].ptes == map[]
  {
    hide Sorted, Inserted, Reaches;
    var p := USER_START;
    run := ForkTiles();
    TilesFound();
    var s4 := Two(map[p := 0x1000], map[p := 7], {7});
    var s5 := Two(map[], map[p := 7], {7});
    assert Unmap(s4, 0, p) == s5 && KindAt(s4.spaces[0], p) == Window;
    Extend(1, run, 1, s4, UnmapPage(0, p), s5);
    run := run + [UnmapPage(0, p)];
    s := Two(map[], map[], {7});
    assert Unmap(s5, 1, p) == s && KindAt(s5.spaces[1], p) == Window;
    Extend(1, run, 1, s5, UnmapPage(1, p), s);
    run := run + [UnmapPage(1, p)];
  }

  // ----- What can always be done -----

  /** A fault on a page of a range that is not mapped is served, given a free frame: from the cache,
      with a page of zeros, with the page of the window, or by a copy. */
  lemma {:induction false} FaultServed(s: State, i: nat, p: nat, v: Vme, frame: nat)
    requires i < |s.spaces| && s.spaces[i].copying == None && frame !in s.inUse
    requires p % PAGE == 0 && p !in s.spaces[i].ptes && Lookup(s.spaces[i].vmes, p) == Some(v)
    ensures v.shared && v.file >= 0 ==> Do(s, FaultShared(i, p, frame)).Some?
    ensures !v.shared && v.file < 0 && v.paddr == 0 ==> Do(s, FaultZero(i, p, frame)).Some?
    ensures !v.shared && v.file < 0 && v.paddr != 0 ==>
            && Do(s, FaultDirect(i, p)).Some? && v.start <= p
            && Do(s, FaultDirect(i, p)).value.spaces[i].ptes == s.spaces[i].ptes[p := v.paddr + (p - v.start)]
    ensures !v.shared && v.file >= 0 ==> forall bytes :: Do(s, BeginCopy(i, p, bytes, frame)).Some?
  {
    hide Lookup, PageBytes;
    LookupIn(s.spaces[i].vmes, p);
  }

  /** A copy that has been begun can be ended. */
  lemma {:induction false} CopyEnds(n: nat, run: seq<Event>, leaks: nat, s: State, i: nat, p: nat, v: Vme, frame: nat)
    requires Reaches(n, run, leaks, s) && i < |s.spaces| && frame !in s.inUse && p !in s.spaces[i].ptes
    requires Lookup(s.spaces[i].vmes, p) == Some(v) && !v.shared && v.file >= 0 && v.start <= p
    requires s.spaces[i].copying == Some(Key(v.file, v.offset + (p - v.start)))
    ensures Do(s, EndCopy(i, p, frame)).Some?
  {
    hide Lookup, PageBytes, KindAt, Counted, Owned, Sorted;
    LookupIn(s.spaces[i].vmes, p);
    var o := RunInv(n, run, leaks, s);
    assert SpaceOk(s, s.spaces[i]);
  }

  /** Every page that is mapped can be unmapped, and copied to a child that has the same range. */
  lemma {:induction false} PageServed(n: nat, run: seq<Event>, leaks: nat, s: State, i: nat, j: nat, p: nat, frame: nat)
    requires Reaches(n, run, leaks, s) && i < |s.spaces| && s.spaces[i].copying == None && p in s.spaces[i].ptes
    ensures Do(s, UnmapPage(i, p)).Some? && Do(s, UnmapPage(i, p)).value.spaces[i].ptes == s.spaces[i].ptes - {p}
    ensures Do(s, Fork(i)).Some?
    ensures var v := Lookup(s.spaces[i].vmes, p);
            && v.Some?
            && (i != j && j < |s.spaces| && s.spaces[j].copying == None && p !in s.spaces[j].ptes && p % PAGE == 0 &&
                v.value.user && Lookup(s.spaces[j].vmes, p) == v && frame !in s.inUse ==>
                Do(s, ForkPage(i, j, p, frame)).Some?)
  {
    hide Lookup, PageBytes, Counted, Owned, Sorted;
    var o := RunInv(n, run, leaks, s);
    assert SpaceOk(s, s.spaces[i]);
    assert KindAt(s.spaces[i], p) != Nothing;
    LookupIn(s.spaces[i].vmes, p);
  }
}
