/** What every mapped page shows, from the history of the run alone: the bytes it was mapped with and
    the stores since.  Ranges are given by their fields. */
module PageViews {
  import opened Words
  import opened ByteWords
  import opened VmeList
  import opened PageCache
  import opened SharedPages
  import opened FilePages

  /** A page of an address space's own: what it was mapped with, and what was stored since. */
  datatype Born = Born(image: seq<Byte>, stores: map<nat, Byte>)

  /** The place in its file of page `p` of a range. */
  function PlaceIn(v: Vme, p: nat): Key
    requires v.file >= 0 && v.start <= p
  {
    Key(v.file, v.offset + (p - v.start))
  }

  /** The page of its own that an event maps at `p` of space `i`, from what the pages showed before:
      zeros, a copy of the cached page of the file, or in a fork a copy of the parent's page. */
  ghost function Mapped(n: nat, files: Files, run: seq<Step>, w: World, e: SharedPages.Event, i: nat, p: nat)
    : Option<Born>
    decreases |run|, 1
  {
    match e
    case FaultZero(j, q, _) => if j == i && q == p then Some(Born(Zeros(PAGE_SIZE), map[])) else None
    case EndCopy(j, q, _) =>
      if j != i || q != p || i >= |w.s.spaces| then None else
      var v := Lookup(w.s.spaces[i].vmes, p);
      if v.None? || v.value.file < 0 || p < v.value.start then None else
      var life := LifeOf(n, files, run, PlaceIn(v.value, p));
      if life.None? then None else Some(Born(Overlay(life.value.image, life.value.stores), map[]))
    case ForkPage(parent, j, q, _) =>
      if j != i || q != p then None else
      var b := BornOf(n, files, run, parent, p);
      if b.None? then None else Some(Born(Overlay(b.value.image, b.value.stores), map[]))
    case _ => None
  }

  ghost function BornOf(n: nat, files: Files, run: seq<Step>, i: nat, p: nat): Option<Born>
    decreases |run|, 0
  {
    if run == [] then None else
    var before, st := run[..|run| - 1], run[|run| - 1];
    var w, b := After(n, files, before), BornOf(n, files, before, i, p);
    if w.None? then None
    else if st.Store? then
      if st.i == i && st.page == p && b.Some? then Some(b.value.(stores := b.value.stores[st.at := st.byte])) else b
    else if Mapped(n, files, before, w.value, st.e, i, p).Some? then Mapped(n, files, before, w.value, st.e, i, p)
    else if st.e == UnmapPage(i, p) then None
    else b
  }

  ghost predicate IsOwn(s: State, i: nat, p: nat) {
    i < |s.spaces| && p in s.spaces[i].ptes && KindAt(s.spaces[i], p) == Own
  }

  /** Page `p` of space `i` is what its history says. */
  ghost predicate OwnIs(w: World, i: nat, p: nat, b: Option<Born>) {
    if !IsOwn(w.s, i, p) then b == None else
    && b.Some? && |b.value.image| == PAGE_SIZE
    && Content(w.mem, w.s.spaces[i].ptes[p]) == Overlay(b.value.image, b.value.stores)
  }

  // ----- Which pages are an address space's own -----

  /** The event maps `p` in space `i` to a frame of its own. */
  ghost predicate MapsOwn(s: State, e: SharedPages.Event, i: nat, p: nat) {
    match e
    case FaultZero(j, q, _) => j == i && q == p
    case EndCopy(j, q, _) => j == i && q == p
    case ForkPage(k, j, q, _) => j == i && q == p && IsOwn(s, k, p)
    case _ => false
  }

  /** What an event does to a page: it stays as it is, goes, or comes. */
  ghost predicate OwnStep(s: State, e: SharedPages.Event, t: State, i: nat, p: nat) {
    && (IsOwn(t, i, p) <==> MapsOwn(s, e, i, p) || (IsOwn(s, i, p) && e != UnmapPage(i, p)))
    && (MapsOwn(s, e, i, p) ==> !IsOwn(s, i, p) && t.spaces[i].ptes[p] == e.frame && e.frame !in s.inUse)
    && (IsOwn(s, i, p) && IsOwn(t, i, p) ==> t.spaces[i].ptes[p] == s.spaces[i].ptes[p])
  }

  /** Only the ranges or the pages of one space change. */
  lemma {:induction false} SameSpace(s: State, t: State, i: nat, p: nat)
    requires i < |s.spaces| ==> i < |t.spaces| && t.spaces[i].vmes == s.spaces[i].vmes
    requires i < |s.spaces| ==> (p in t.spaces[i].ptes <==> p in s.spaces[i].ptes)
    requires i < |s.spaces| && p in s.spaces[i].ptes ==> t.spaces[i].ptes[p] == s.spaces[i].ptes[p]
    requires |s.spaces| <= i < |t.spaces| ==> t.spaces[i].ptes == map[]
    ensures IsOwn(t, i, p) <==> IsOwn(s, i, p)
    ensures IsOwn(s, i, p) ==> t.spaces[i].ptes[p] == s.spaces[i].ptes[p]
  {
  }

  lemma {:induction false} RangesStep(s: State, e: SharedPages.Event, i: nat, p: nat)
    requires Do(s, e).Some? && (e.AddVme? || e.DropVme?) && forall j :: 0 <= j < |s.spaces| ==> SpaceOk(s, s.spaces[j])
    ensures OwnStep(s, e, Do(s, e).value, i, p)
  {
    hide Sorted, Inserted;
    if e.i == i && i < |s.spaces| && p in s.spaces[i].ptes {
      assert SpaceOk(s, s.spaces[i]) && KindAt(s.spaces[i], p) != Nothing;
      LookupIn(s.spaces[i].vmes, p);
      if e.AddVme? {
        LookupInserted(s.spaces[i].vmes, e.list, e.v, p);
        NotCovered(s.spaces[i].vmes, e.list, e.v, p);
      } else {
        LookupInserted(e.list, s.spaces[i].vmes, e.v, p);
      }
    }
  }

  /** A new range covers nothing that another one covers. */
  lemma {:induction false} NotCovered(l: seq<Vme>, l': seq<Vme>, v: Vme, p: nat)
    requires Sorted(l) && Sorted(l') && Inserted(l, l', v) && Lookup(l, p).Some?
    ensures !Covers(v, p)
  {
    hide Sorted;
    LookupIn(l, p);
    var k :| 0 <= k <= |l| && l' == l[..k] + [v] + l[k..];
    var j :| 0 <= j < |l| && l[j] == Lookup(l, p).value;
    var j' := if j < k then j else j + 1;
    assert l'[k] == v && l'[j'] == l[j];
    if Covers(v, p) { OneCover(l', p, k, j'); }
  }

  lemma {:induction false} MapStep(s: State, e: SharedPages.Event, i: nat, p: nat)
    requires Do(s, e).Some? && (e.FaultShared? || e.FaultZero? || e.FaultDirect?)
    ensures OwnStep(s, e, Do(s, e).value, i, p)
  {
    hide Lookup, PageBytes, Take;
    var m := Missing(s, e.i, e.page).value;
    LookupIn(s.spaces[e.i].vmes, e.page);
    if e.FaultShared? { TookSpaces(s, KeyOf(m, e.page), PageBytes(m, e.page), e.frame); }
  }

  lemma {:induction false} CopyStep(s: State, e: SharedPages.Event, i: nat, p: nat)
    requires Do(s, e).Some? && (e.BeginCopy? || e.EndCopy?)
    ensures OwnStep(s, e, Do(s, e).value, i, p)
  {
    hide Lookup, PageBytes, Take;
    LookupIn(s.spaces[e.i].vmes, e.page);
    if e.BeginCopy? { TookSpaces(s, KeyOf(Missing(s, e.i, e.page).value, e.page), e.bytes, e.frame); }
  }

  lemma {:induction false} ForkStep(s: State, e: SharedPages.Event, i: nat, p: nat)
    requires Do(s, e).Some? && (e.Fork? || e.ForkPage?)
    ensures OwnStep(s, e, Do(s, e).value, i, p)
  {
    hide Lookup, PageBytes, Take;
    if e.ForkPage? {
      var m := Missing(s, e.j, e.page).value;
      LookupIn(s.spaces[e.j].vmes, e.page);
      if m.shared { TookSpaces(s, KeyOf(m, e.page), PageBytes(m, e.page), e.frame); }
    }
  }

  lemma {:induction false} UnmapStep(s: State, e: SharedPages.Event, i: nat, p: nat)
    requires Do(s, e).Some? && e.UnmapPage?
    ensures OwnStep(s, e, Do(s, e).value, i, p)
  {
    hide Lookup, PageBytes;
  }

  lemma {:induction false} EventStep(s: State, o: map<nat, Owner>, e: SharedPages.Event, i: nat, p: nat)
    requires Inv(s, o, multiset{}) && Do(s, e).Some?
    ensures OwnStep(s, e, Do(s, e).value, i, p)
  {
    hide Do, OwnStep, SpaceOk, Counted, Owned;
    match e
    case AddVme(_, _, _) => RangesStep(s, e, i, p);
    case DropVme(_, _, _) => RangesStep(s, e, i, p);
    case FaultShared(_, _, _) => MapStep(s, e, i, p);
    case FaultZero(_, _, _) => MapStep(s, e, i, p);
    case FaultDirect(_, _) => MapStep(s, e, i, p);
    case BeginCopy(_, _, _, _) => CopyStep(s, e, i, p);
    case EndCopy(_, _, _) => CopyStep(s, e, i, p);
    case Fork(_) => ForkStep(s, e, i, p);
    case ForkPage(_, _, _, _) => ForkStep(s, e, i, p);
    case UnmapPage(_, _) => UnmapStep(s, e, i, p);
  }

  // ----- What they show -----

  lemma {:induction false} OwnFrameInUse(s: State, o: map<nat, Owner>, i: nat, p: nat)
    requires Inv(s, o, multiset{}) && IsOwn(s, i, p)
    ensures s.spaces[i].ptes[p] in s.inUse
  {
    hide KindAt, SpaceOk, Counted;
  }

  /** The key that a private copy is made from, by the fields of the range. */
  lemma {:induction false} CopyKeyIs(s: State, o: map<nat, Owner>, i: nat, p: nat, frame: nat)
    requires Inv(s, o, multiset{}) && Do(s, EndCopy(i, p, frame)).Some?
    ensures var v := Lookup(s.spaces[i].vmes, p);
            && v.Some? && v.value.file >= 0 && v.value.start <= p
            && Dropped(s, EndCopy(i, p, frame)) == Some(PlaceIn(v.value, p)) && PlaceIn(v.value, p) in s.cache
  {
    hide Lookup, Sorted;
    LookupIn(s.spaces[i].vmes, p);
    var k := s.spaces[i].copying.value;
    CopyingIsCached(s, o, i, k);
  }

  lemma {:induction false} CopyingIsCached(s: State, o: map<nat, Owner>, i: nat, k: Key)
    requires Inv(s, o, multiset{}) && i < |s.spaces| && s.spaces[i].copying == Some(k)
    ensures k in s.cache
  {
    hide KindAt, SpaceOk, Owned, RefSet;
    assert CountOk(s, multiset{}, k);
    assert i in CopySet(s.spaces, k);
    assert |CopySet(s.spaces, k)| > 0;
  }

  /** The page that an event maps shows what the history says. */
  lemma {:induction false} MappedShows(n: nat, files: Files, run: seq<Step>, w: World, o: map<nat, Owner>,
                                       e: SharedPages.Event, i: nat, p: nat)
    requires After(n, files, run) == Some(w) && Inv(w.s, o, multiset{}) && DoStep(w, Event(e)).Some?
    requires forall k :: PageIs(w, k, LifeOf(n, files, run, k))
    requires forall j: nat :: OwnIs(w, j, p, BornOf(n, files, run, j, p))
    ensures MapsOwn(w.s, e, i, p) <==> Mapped(n, files, run, w, e, i, p).Some?
    ensures MapsOwn(w.s, e, i, p) ==>
            var b := Mapped(n, files, run, w, e, i, p).value;
            && |b.image| == PAGE_SIZE && b.stores == map[]
            && Content(DoStep(w, Event(e)).value.mem, e.frame) == b.image
  {
    hide Inv, After, LifeOf, BornOf, KindAt, Lookup, Do, PageBytes, Overlay, Sorted;
    match e
    case FaultZero(_, _, _) =>
    case EndCopy(j, q, f) =>
      if j == i && q == p {
        CopyKeyIs(w.s, o, i, p, f);
        var k := PlaceIn(Lookup(w.s.spaces[i].vmes, p).value, p);
        assert PageIs(w, k, LifeOf(n, files, run, k));
      }
    case ForkPage(k, j, q, _) =>
      if j == i && q == p {
        assert OwnIs(w, k, p, BornOf(n, files, run, k, p));
        if IsOwn(w.s, k, p) { ForksOwn(w.s, e); }
      }
    case _ =>
  }

  /** A fork of a private page acquires nothing. */
  lemma {:induction false} ForksOwn(s: State, e: SharedPages.Event)
    requires Do(s, e).Some? && e.ForkPage? && IsOwn(s, e.i, e.page)
    ensures Taken(s, e) == None && e.i < |s.spaces| && e.page in s.spaces[e.i].ptes
  {
    hide Lookup, PageBytes, Take;
    LookupIn(s.spaces[e.j].vmes, e.page);
  }

  /** The history of a page after an event. */
  ghost function Next(m: Option<Born>, e: SharedPages.Event, i: nat, p: nat, b: Option<Born>): Option<Born> {
    if m.Some? then m else if e == UnmapPage(i, p) then None else b
  }

  lemma {:induction false} OwnEvent(w: World, o: map<nat, Owner>, e: SharedPages.Event, i: nat, p: nat, b: Option<Born>,
                                    m: Option<Born>)
    requires Inv(w.s, o, multiset{}) && DoStep(w, Event(e)).Some? && OwnIs(w, i, p, b)
    requires MapsOwn(w.s, e, i, p) <==> m.Some?
    requires m.Some? ==>
             |m.value.image| == PAGE_SIZE && m.value.stores == map[] &&
             Content(DoStep(w, Event(e)).value.mem, e.frame) == m.value.image
    ensures OwnIs(DoStep(w, Event(e)).value, i, p, Next(m, e, i, p, b))
  {
    hide Inv, Do, KindAt, Content, Overlay, MapsOwn, Taken, Dropped, Filled, BytesOk, FilesAfter, MemAfter, IsOwn;
    EventStep(w.s, o, e, i, p);
    if m.Some? {
      NoStores(m.value.image);
    } else if IsOwn(w.s, i, p) {
      OwnFrameInUse(w.s, o, i, p);
      IsThere(w.s, i, p);
      SameContent(w, e, w.s.spaces[i].ptes[p]);
    }
  }

  lemma {:induction false} IsThere(s: State, i: nat, p: nat)
    requires IsOwn(s, i, p)
    ensures i < |s.spaces| && p in s.spaces[i].ptes
  {
  }

  /** A store to a page of its own changes that page, and a store anywhere else does not. */
  lemma {:induction false} OwnStore(w: World, o: map<nat, Owner>, st: Step, i: nat, p: nat, b: Option<Born>)
    requires Inv(w.s, o, multiset{}) && st.Store? && DoStep(w, st).Some? && OwnIs(w, i, p, b)
    ensures OwnIs(DoStep(w, st).value, i, p,
                  if st.i == i && st.page == p && b.Some?
                  then Some(b.value.(stores := b.value.stores[st.at := st.byte])) else b)
  {
    hide Inv, KindAt, WritableAt, Overlay;
    if IsOwn(w.s, i, p) {
      if st.i == i && st.page == p {
        Overlaid(b.value.image, b.value.stores, st.at, st.byte);
      } else if StoreFrame(w.s, st.i, st.page) == Some(w.s.spaces[i].ptes[p]) {
        NotThere(w.s, o, i, p, st.i, st.page);
      }
    }
  }

  /** The frame of a page of its own is mapped nowhere else, but in windows. */
  lemma {:induction false} NotThere(s: State, o: map<nat, Owner>, i: nat, p: nat, j: nat, q: nat)
    requires Inv(s, o, multiset{}) && IsOwn(s, i, p) && j < |s.spaces| && q in s.spaces[j].ptes
    requires KindAt(s.spaces[j], q) != Window && s.spaces[j].ptes[q] == s.spaces[i].ptes[p]
    ensures i == j && p == q
  {
    hide Inv, KindAt;
    FramesDiffer(s, o, i, p, j, q);
  }

  /** Along every run the pages of their own are what their histories say. */
  lemma {:induction false} RunOwn(n: nat, files: Files, run: seq<Step>) returns (o: map<nat, Owner>)
    requires After(n, files, run).Some?
    ensures Inv(After(n, files, run).value.s, o, multiset{})
    ensures forall i: nat, p: nat :: OwnIs(After(n, files, run).value, i, p, BornOf(n, files, run, i, p))
    decreases |run|
  {
    hide Inv, DoStep, PageIs, OwnIs, Mapped, MapsOwn, LifeOf;
    if run == [] {
      o := RunPages(n, files, run);
      forall i: nat, p: nat ensures OwnIs(Begin(n, files), i, p, None) { BeginOwn(n, files, i, p); }
    } else {
      var before, st := run[..|run| - 1], run[|run| - 1];
      var w := After(n, files, before).value;
      var o1 := RunPages(n, files, before);
      var o0 := RunOwn(n, files, before);
      o := StepOwners(w, o0, st);
      forall i: nat, p: nat ensures OwnIs(After(n, files, run).value, i, p, BornOf(n, files, run, i, p)) {
        assert OwnIs(w, i, p, BornOf(n, files, before, i, p));
        if st.Store? {
          OwnStore(w, o0, st, i, p, BornOf(n, files, before, i, p));
        } else {
          MappedShows(n, files, before, w, o0, st.e, i, p);
          OwnEvent(w, o0, st.e, i, p, BornOf(n, files, before, i, p), Mapped(n, files, before, w, st.e, i, p));
        }
      }
    }
  }

  lemma {:induction false} BeginOwn(n: nat, files: Files, i: nat, p: nat)
    ensures OwnIs(Begin(n, files), i, p, None)
  {
  }

  // ----- What every run guarantees -----

  /** What a byte is that was `image[at]` when its page came, after the stores since. */
  ghost predicate LastStored(view: seq<Byte>, image: seq<Byte>, stores: map<nat, Byte>, at: nat) {
    at < |view| == |image| && view[at] == if at in stores then stores[at] else image[at]
  }

  lemma {:induction false} RangeKind(sp: SharedPages.Space, p: nat, v: Vme)
    requires p in sp.ptes && Lookup(sp.vmes, p) == Some(v)
    ensures v.start <= p
    ensures v.shared ==>
            KindAt(sp, p) == if v.file >= 0 then Cached(Key(v.file, v.offset + (p - v.start))) else Nothing
    ensures !v.shared ==> KindAt(sp, p) == if v.paddr != 0 then Window else Own
  {
    LookupIn(sp.vmes, p);
  }

  /** Every mapped page, but for windows on device memory, shows at every place the last byte stored
      there.  Where nothing was stored, a page of a shared range has what it was brought into the
      cache with, from the place of the page in the file of the range, and a page of its own has
      what it was mapped with. */
  lemma {:induction false} EveryPage(n: nat, files: Files, run: seq<Step>, i: nat, p: nat, v: Vme, at: nat)
    requires After(n, files, run).Some? && at < PAGE_SIZE
    requires var s := After(n, files, run).value.s;
             i < |s.spaces| && p in s.spaces[i].ptes && Lookup(s.spaces[i].vmes, p) == Some(v)
    ensures v.shared || v.paddr == 0 ==> |View(After(n, files, run).value, i, p)| == 4096
    ensures v.shared ==>
            && v.file >= 0 && v.start <= p
            && var life := LifeOf(n, files, run, Key(v.file, v.offset + (p - v.start)));
            life.Some? && LastStored(View(After(n, files, run).value, i, p), life.value.image, life.value.stores, at)
    ensures !v.shared && v.paddr == 0 ==>
            var b := BornOf(n, files, run, i, p);
            b.Some? && LastStored(View(After(n, files, run).value, i, p), b.value.image, b.value.stores, at)
  {
    hide Inv, After, LifeOf, BornOf, KindAt, Lookup, Content, Mapped;
    var w := After(n, files, run).value;
    RangeKind(w.s.spaces[i], p, v);
    var o := RunOwn(n, files, run);
    HasKind(w.s, o, i, p);
    if v.shared {
      SharedSeesStores(n, files, run, i, p, Key(v.file, v.offset + (p - v.start)));
    } else if v.paddr == 0 {
      assert OwnIs(w, i, p, BornOf(n, files, run, i, p));
      var b := BornOf(n, files, run, i, p).value;
      OverlayAt(b.image, b.stores, at);
    }
  }

  lemma {:induction false} HasKind(s: State, o: map<nat, Owner>, i: nat, p: nat)
    requires Inv(s, o, multiset{}) && i < |s.spaces| && p in s.spaces[i].ptes
    ensures KindAt(s.spaces[i], p) != Nothing
  {
    hide KindAt, Counted, Owned, Sorted;
    assert SpaceOk(s, s.spaces[i]);
  }

  /** A fault in a shared range of a page that is not in the cache shows the bytes of the file at the
      place of the page in the range, and zeros behind its end. */
  lemma {:induction false} FaultShowsFile(n: nat, files: Files, run: seq<Step>, i: nat, p: nat, frame: nat, v: Vme,
                                          at: nat)
    requires After(n, files, run).Some? && at < PAGE_SIZE
    requires DoStep(After(n, files, run).value, Event(FaultShared(i, p, frame))).Some?
    requires Lookup(After(n, files, run).value.s.spaces[i].vmes, p) == Some(v)
    ensures v.file >= 0 && v.start <= p
    ensures Key(v.file, v.offset + (p - v.start)) !in After(n, files, run).value.s.cache ==>
            var w := After(n, files, run).value;
            var w' := DoStep(w, Event(FaultShared(i, p, frame))).value;
            var file, x := FileOf(w.files, v.file), v.offset + (p - v.start) + at;
            && p in w'.s.spaces[i].ptes && |View(w', i, p)| == PAGE_SIZE
            && View(w', i, p)[at] == if x < |file| then file[x] else 0
  {
    hide After, Lookup, PageBytes, KindAt;
    var w := After(n, files, run).value;
    LookupIn(w.s.spaces[i].vmes, p);
    assert KeyOf(v, p) == Key(v.file, v.offset + (p - v.start));
    LoadedContent(w.files, w.mem, KeyOf(v, p), frame);
  }
}
