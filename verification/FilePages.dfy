/** What is in the pages: the contents of frames and files under the steps of `SharedPages`.

    A miss of the page cache reads the file; the last release writes a dirty page back; threads
    store bytes through writable mappings.  Direct mappings show device memory, which is not here.
  */
module FilePages {
  import opened Words
  import opened ByteWords
  import opened VmeList
  import opened PageCache
  import opened SharedPages
  import Ext2Bytes

  datatype World = World(s: State, mem: Memory, files: Files)

  datatype Step = Event(e: SharedPages.Event) | Store(i: nat, page: nat, at: nat, byte: Byte)

  // ----- What an event does with the cache -----

  datatype Acquire = Acquire(key: Key, bytes: nat, frame: nat)

  function AcquireOf(m: Option<Vme>, p: nat, bytes: nat, frame: nat): Option<Acquire> {
    if m.Some? && Covers(m.value, p) && m.value.file >= 0 then Some(Acquire(KeyOf(m.value, p), bytes, frame)) else None
  }

  function BytesIn(m: Option<Vme>, p: nat): nat {
    if m.Some? && Covers(m.value, p) then PageBytes(m.value, p) else 0
  }

  /** The call of `page_cache_acquire` in an event. */
  function Taken(s: State, e: SharedPages.Event): Option<Acquire> {
    match e
    case FaultShared(i, p, frame) => AcquireOf(Missing(s, i, p), p, BytesIn(Missing(s, i, p), p), frame)
    case BeginCopy(i, p, bytes, frame) => AcquireOf(Missing(s, i, p), p, bytes, frame)
    case ForkPage(_, j, p, frame) =>
      var m := Missing(s, j, p);
      if m.Some? && m.value.shared then AcquireOf(m, p, BytesIn(m, p), frame) else None
    case _ => None
  }

  /** The call of `page_cache_release`. */
  function Dropped(s: State, e: SharedPages.Event): Option<Key> {
    match e
    case EndCopy(i, _, _) => if i < |s.spaces| then s.spaces[i].copying else None
    case UnmapPage(i, p) =>
      if i < |s.spaces| && KindAt(s.spaces[i], p).Cached? then Some(KindAt(s.spaces[i], p).key) else None
    case _ => None
  }

  /** Key `k` as an event leaves it that neither acquires nor releases it. */
  ghost predicate Same(s: State, t: State, k: Key) {
    (k in t.cache <==> k in s.cache) && (k in s.cache ==> t.cache[k] == s.cache[k])
  }

  ghost predicate AfterAcquire(s: State, t: State, a: Acquire) {
    && a.key in t.cache
    && if a.key in s.cache
       then t.cache[a.key].frame == s.cache[a.key].frame && t.cache[a.key].bytes == s.cache[a.key].bytes &&
         (s.cache[a.key].dirty ==> t.cache[a.key].dirty)
       else t.cache[a.key].frame == a.frame && t.cache[a.key].bytes == a.bytes && a.frame !in s.inUse
  }

  ghost predicate AfterRelease(s: State, t: State, k: Key) {
    && (k in t.cache <==> k in s.cache && s.cache[k].refs > 1)
    && (k in t.cache ==>
        t.cache[k].frame == s.cache[k].frame && t.cache[k].bytes == s.cache[k].bytes &&
        t.cache[k].dirty == s.cache[k].dirty)
  }

  ghost predicate KeyStep(s: State, e: SharedPages.Event, t: State, k: Key) {
    if Taken(s, e).Some? && Taken(s, e).value.key == k then AfterAcquire(s, t, Taken(s, e).value)
    else if Dropped(s, e) == Some(k) then AfterRelease(s, t, k)
    else Same(s, t, k)
  }

  lemma {:induction false} FaultKey(s: State, i: nat, p: nat, frame: nat, k: Key)
    requires Do(s, FaultShared(i, p, frame)).Some?
    ensures Taken(s, FaultShared(i, p, frame)).Some? &&
            KeyStep(s, FaultShared(i, p, frame), Do(s, FaultShared(i, p, frame)).value, k)
  {
    hide Lookup, PageBytes, KindAt;
    LookupIn(s.spaces[i].vmes, p);
  }

  lemma {:induction false} CopyKey(s: State, i: nat, p: nat, bytes: nat, frame: nat, k: Key)
    requires Do(s, BeginCopy(i, p, bytes, frame)).Some?
    ensures Taken(s, BeginCopy(i, p, bytes, frame)).Some? &&
            KeyStep(s, BeginCopy(i, p, bytes, frame), Do(s, BeginCopy(i, p, bytes, frame)).value, k)
  {
    hide Lookup, PageBytes, KindAt;
    LookupIn(s.spaces[i].vmes, p);
  }

  lemma {:induction false} ForkKey(s: State, i: nat, j: nat, p: nat, frame: nat, k: Key)
    requires Do(s, ForkPage(i, j, p, frame)).Some?
    ensures KeyStep(s, ForkPage(i, j, p, frame), Do(s, ForkPage(i, j, p, frame)).value, k)
  {
    hide Lookup, PageBytes, KindAt;
    LookupIn(s.spaces[j].vmes, p);
  }

  lemma {:induction false} StepKey(s: State, e: SharedPages.Event, k: Key)
    requires Do(s, e).Some?
    ensures KeyStep(s, e, Do(s, e).value, k)
  {
    hide Lookup, PageBytes, KindAt, Sorted, Inserted;
    match e
    case FaultShared(i, p, frame) => FaultKey(s, i, p, frame, k);
    case BeginCopy(i, p, bytes, frame) => CopyKey(s, i, p, bytes, frame, k);
    case ForkPage(i, j, p, frame) => ForkKey(s, i, j, p, frame, k);
    case _ =>
  }

  // ----- Steps -----

  /** How much of a page a private fault asks for: what is left of the file, and of the range. */
  function PrivateBytes(size: nat, v: Vme, p: nat): nat
    requires Covers(v, p)
  {
    var at := p - v.start;
    var inFile := if size > v.offset + at then size - (v.offset + at) else 0;
    var inRange := if v.size < at || v.size - at > PAGE then PAGE else v.size - at;
    if inFile < inRange then inFile else inRange
  }

  /** Which bytes of a page count as the file's: in a shared mapping those that are in the range, or
      all if none is; in a private one those that are in the file as well. */
  lemma {:induction false} BytesAsked(size: nat, v: Vme, p: nat, x: nat)
    requires Covers(v, p) && x < PAGE
    ensures x < PageBytes(v, p) <==> v.size <= p - v.start || (p - v.start) + x < v.size
    ensures x < PrivateBytes(size, v, p) <==>
            v.offset + (p - v.start) + x < size && (v.size < p - v.start || (p - v.start) + x < v.size)
    ensures PageBytes(v, p) <= PAGE && PrivateBytes(size, v, p) <= PAGE
  {
  }

  predicate BytesOk(w: World, e: SharedPages.Event) {
    match e
    case BeginCopy(i, p, bytes, _) =>
      var m := Missing(w.s, i, p);
      m.Some? && Covers(m.value, p) && m.value.file >= 0 ==>
        bytes == PrivateBytes(|FileOf(w.files, m.value.file)|, m.value, p)
    case _ => true
  }

  datatype Fresh = Fresh(frame: nat, bytes: seq<Byte>)

  /** The frame that an event gives to a page of its own, and what it puts there. */
  function Filled(w: World, e: SharedPages.Event): Option<Fresh> {
    match e
    case FaultZero(_, _, frame) => Some(Fresh(frame, Zeros(PAGE_SIZE)))
    case EndCopy(i, _, frame) =>
      if Dropped(w.s, e).Some? && Dropped(w.s, e).value in w.s.cache
      then Some(Fresh(frame, Content(w.mem, w.s.cache[Dropped(w.s, e).value].frame))) else None
    case ForkPage(i, _, p, frame) =>
      if Taken(w.s, e).None? && i < |w.s.spaces| && p in w.s.spaces[i].ptes
         then Some(Fresh(frame, Content(w.mem, w.s.spaces[i].ptes[p]))) else None
    case _ => None
  }

  function MemAfter(w: World, e: SharedPages.Event): Memory {
    var a, f := Taken(w.s, e), Filled(w, e);
    if a.Some? && a.value.key !in w.s.cache then Loaded(w.files, w.mem, a.value.key, a.value.frame)
    else if f.Some? then w.mem[f.value.frame := f.value.bytes]
    else w.mem
  }

  function FilesAfter(w: World, e: SharedPages.Event): Files {
    var d := Dropped(w.s, e);
    if d.Some? && LastDirty(w.s.cache, d.value) then WrittenBack(w.files, w.mem, d.value, w.s.cache[d.value])
       else w.files
  }

  /** The frame that a store goes to; none in a direct mapping. */
  function StoreFrame(s: State, i: nat, p: nat): Option<nat> {
    if i < |s.spaces| && p in s.spaces[i].ptes && KindAt(s.spaces[i], p) != Window then Some(s.spaces[i].ptes[p])
       else None
  }

  ghost function DoStep(w: World, st: Step): Option<World> {
    match st
    case Event(e) =>
      if Do(w.s, e).Some? && BytesOk(w, e) then Some(World(Do(w.s, e).value, MemAfter(w, e), FilesAfter(w, e)))
         else None
    case Store(i, p, at, b) =>
      if i < |w.s.spaces| && WritableAt(w.s.spaces[i], p) && at < PAGE_SIZE then
        var f := StoreFrame(w.s, i, p);
        Some(if f.Some? && at < |Content(w.mem, f.value)|
             then w.(mem := w.mem[f.value := Content(w.mem, f.value)[at := b]]) else w)
      else None
  }

  // ----- Runs -----

  function Begin(n: nat, files: Files): World {
    World(Start(n), map[], files)
  }

  ghost function After(n: nat, files: Files, run: seq<Step>): Option<World> {
    if run == [] then Some(Begin(n, files)) else
    var w := After(n, files, run[..|run| - 1]);
    if w.None? then None else DoStep(w.value, run[|run| - 1])
  }

  /** The life of a page in the cache, since the acquire that brought it there: the byte count
      of that acquire, what it read from the file, and the last byte stored at each place. */
  datatype Life = Life(bytes: nat, image: seq<Byte>, stores: map<nat, Byte>)

  ghost predicate StoresTo(w: World, st: Step, k: Key) {
    st.Store? && st.i < |w.s.spaces| && KindAt(w.s.spaces[st.i], st.page) == Cached(k)
  }

  /** The life of key `k` after a step from `w` to `v`. */
  ghost function Lived(w: World, st: Step, v: World, k: Key, life: Option<Life>): Option<Life> {
    if st.Store? then
      if StoresTo(w, st, k) && life.Some? then Some(life.value.(stores := life.value.stores[st.at := st.byte]))
         else life
    else if k !in v.s.cache then None
    else if k in w.s.cache then life
    else if Taken(w.s, st.e).Some?
            then Some(Life(Taken(w.s, st.e).value.bytes, Image(FileOf(w.files, k.inode), k.offset), map[]))
    else None
  }

  ghost function LifeOf(n: nat, files: Files, run: seq<Step>, k: Key): Option<Life> {
    if run == [] then None else
    var before, st := run[..|run| - 1], run[|run| - 1];
    var w, v := After(n, files, before), After(n, files, run);
    if w.None? || v.None? then None else Lived(w.value, st, v.value, k, LifeOf(n, files, before, k))
  }

  /** A page read from a file, with the bytes stored since. */
  function Overlay(image: seq<Byte>, stores: map<nat, Byte>): (page: seq<Byte>)
    ensures |page| == |image|
  {
    seq(|image|, at requires 0 <= at < |image| => if at in stores then stores[at] else image[at])
  }

  // ----- What holds on the way -----

  /** The page of key `k` is what its life says, and it is dirty if anything was stored. */
  ghost predicate PageIs(w: World, k: Key, life: Option<Life>) {
    if k !in w.s.cache then life == None else
    && life.Some? && |life.value.image| == PAGE_SIZE && w.s.cache[k].bytes == life.value.bytes
    && Content(w.mem, w.s.cache[k].frame) == Overlay(life.value.image, life.value.stores)
    && (life.value.stores != map[] ==> w.s.cache[k].dirty)
  }

  /** Frames that an event fills were free. */
  lemma {:induction false} FreshIsFree(w: World, e: SharedPages.Event)
    requires Do(w.s, e).Some?
    ensures Taken(w.s, e).Some? && Taken(w.s, e).value.key !in w.s.cache ==> Taken(w.s, e).value.frame !in w.s.inUse
    ensures Filled(w, e).Some? ==> Taken(w.s, e).None? && Filled(w, e).value.frame !in w.s.inUse
  {
    hide Lookup, PageBytes, KindAt, Sorted, Inserted;
    if Taken(w.s, e).Some? { StepKey(w.s, e, Taken(w.s, e).value.key); }
    if e.ForkPage? { LookupIn(w.s.spaces[e.j].vmes, e.page); }
  }

  lemma {:induction false} FrameOfKey(s: State, o: map<nat, Owner>, k: Key)
    requires Inv(s, o, multiset{}) && k in s.cache
    ensures s.cache[k].frame in s.inUse
  {
    hide KindAt, SpaceOk, Counted;
  }

  lemma {:induction false} EventPage(w: World, o: map<nat, Owner>, e: SharedPages.Event, k: Key, life: Option<Life>)
    requires Inv(w.s, o, multiset{}) && DoStep(w, Event(e)).Some? && PageIs(w, k, life)
    ensures var v := DoStep(w, Event(e)).value; PageIs(v, k, Lived(w, Event(e), v, k, life))
  {
    hide Inv, Do, Taken, Dropped, Filled, Content, Image, BytesOk, FilesAfter;
    StepKey(w.s, e, k);
    FreshIsFree(w, e);
    var v := DoStep(w, Event(e)).value;
    if k in w.s.cache {
      FrameOfKey(w.s, o, k);
      SameContent(w, e, w.s.cache[k].frame);
    }
    if k in v.s.cache && k !in w.s.cache {
      LoadedContent(w.files, w.mem, k, v.s.cache[k].frame);
      NoStores(Image(FileOf(w.files, k.inode), k.offset));
    }
  }

  lemma {:induction false} NoStores(image: seq<Byte>)
    ensures Overlay(image, map[]) == image
  {
  }

  lemma {:induction false} LoadedContent(files: Files, mem: Memory, k: Key, frame: nat)
    ensures Content(Loaded(files, mem, k, frame), frame) == Image(FileOf(files, k.inode), k.offset)
  {
  }

  lemma {:induction false} SameContent(w: World, e: SharedPages.Event, f: nat)
    requires Do(w.s, e).Some? && f in w.s.inUse
    ensures Content(MemAfter(w, e), f) == Content(w.mem, f)
  {
    hide Do, Taken, Filled;
    FreshIsFree(w, e);
  }

  // ----- Stores -----

  /** A store through a shared mapping goes to the frame of the key, and through a private one to
      a frame that is in no cache entry. */
  lemma {:induction false} StoreGoes(s: State, o: map<nat, Owner>, i: nat, p: nat, k: Key)
    requires Inv(s, o, multiset{}) && i < |s.spaces| && WritableAt(s.spaces[i], p) && k in s.cache
    ensures KindAt(s.spaces[i], p) == Cached(k) ==> StoreFrame(s, i, p) == Some(s.cache[k].frame) && s.cache[k].dirty
    ensures KindAt(s.spaces[i], p) != Cached(k) ==> StoreFrame(s, i, p) != Some(s.cache[k].frame)
  {
    hide KindAt, Counted, Sorted;
    assert SpaceOk(s, s.spaces[i]);
    assert p in s.spaces[i].ptes && KindAt(s.spaces[i], p) != Nothing;
    if KindAt(s.spaces[i], p).Cached? {
      var l := KindAt(s.spaces[i], p).key;
      assert l in s.cache && o[s.cache[l].frame] == CacheOf(l) && o[s.cache[k].frame] == CacheOf(k);
    }
  }

  lemma {:induction false} CachedIsIn(s: State, o: map<nat, Owner>, i: nat, p: nat, k: Key)
    requires Inv(s, o, multiset{}) && i < |s.spaces| && p in s.spaces[i].ptes && KindAt(s.spaces[i], p) == Cached(k)
    ensures k in s.cache && s.spaces[i].ptes[p] == s.cache[k].frame
  {
    hide KindAt, Counted, Sorted, Owned;
    assert SpaceOk(s, s.spaces[i]);
  }

  lemma {:induction false} Overlaid(image: seq<Byte>, stores: map<nat, Byte>, at: nat, b: Byte)
    requires at < |image|
    ensures Overlay(image, stores[at := b]) == Overlay(image, stores)[at := b] && stores[at := b] != map[]
  {
    assert at in stores[at := b];
  }

  lemma {:induction false} StorePage(w: World, o: map<nat, Owner>, st: Step, k: Key, life: Option<Life>)
    requires Inv(w.s, o, multiset{}) && st.Store? && DoStep(w, st).Some? && PageIs(w, k, life)
    ensures var v := DoStep(w, st).value; v.s == w.s && v.files == w.files && PageIs(v, k, Lived(w, st, v, k, life))
  {
    hide Inv, StoreFrame, KindAt, WritableAt, Overlay;
    if k in w.s.cache {
      StoreGoes(w.s, o, st.i, st.page, k);
      Overlaid(life.value.image, life.value.stores, st.at, st.byte);
    }
  }

  lemma {:induction false} StepPage(w: World, o: map<nat, Owner>, st: Step, k: Key, life: Option<Life>)
    requires Inv(w.s, o, multiset{}) && DoStep(w, st).Some? && PageIs(w, k, life)
    ensures var v := DoStep(w, st).value; PageIs(v, k, Lived(w, st, v, k, life))
  {
    hide Inv, DoStep, PageIs, Lived;
    if st.Store? { StorePage(w, o, st, k, life); } else { EventPage(w, o, st.e, k, life); }
  }

  lemma {:induction false} StepOwners(w: World, o: map<nat, Owner>, st: Step) returns (o': map<nat, Owner>)
    requires Inv(w.s, o, multiset{}) && DoStep(w, st).Some?
    ensures Inv(DoStep(w, st).value.s, o', multiset{})
  {
    hide Inv, Do, KindAt, WritableAt;
    o' := o;
    if st.Event? { o' := StepInv(w.s, o, st.e); }
  }

  /** Along every run each cached page is what its life says. */
  lemma {:induction false} RunPages(n: nat, files: Files, run: seq<Step>) returns (o: map<nat, Owner>)
    requires After(n, files, run).Some?
    ensures Inv(After(n, files, run).value.s, o, multiset{})
    ensures forall k :: PageIs(After(n, files, run).value, k, LifeOf(n, files, run, k))
  {
    hide Inv, DoStep, PageIs, Lived;
    if run == [] {
      o := map[];
      BeginPages(n, files);
    } else {
      var before, st := run[..|run| - 1], run[|run| - 1];
      var w := After(n, files, before).value;
      var o0 := RunPages(n, files, before);
      o := StepOwners(w, o0, st);
      forall k ensures PageIs(After(n, files, run).value, k, LifeOf(n, files, run, k)) {
        StepPage(w, o0, st, k, LifeOf(n, files, before, k));
      }
    }
  }

  lemma {:induction false} BeginPages(n: nat, files: Files)
    ensures Inv(Start(n), map[], multiset{}) && forall k :: PageIs(Begin(n, files), k, None)
  {
    hide Inv;
    StartInv(n);
  }

  // ----- What every run guarantees -----

  /** What a thread sees at a mapped page. */
  ghost function View(w: World, i: nat, p: nat): seq<Byte>
    requires i < |w.s.spaces| && p in w.s.spaces[i].ptes
  {
    Content(w.mem, w.s.spaces[i].ptes[p])
  }

  /** Every shared mapping of a part of a file shows, at every place, the last byte that anyone has
      stored there through any of them, and what the file had where nobody has. */
  lemma {:induction false} SharedSeesStores(n: nat, files: Files, run: seq<Step>, i: nat, p: nat, k: Key)
    requires After(n, files, run).Some?
    requires var s := After(n, files, run).value.s;
             i < |s.spaces| && p in s.spaces[i].ptes && KindAt(s.spaces[i], p) == Cached(k)
    ensures var w, life := After(n, files, run).value, LifeOf(n, files, run, k);
            && life.Some? && |View(w, i, p)| == |life.value.image| == PAGE_SIZE
            && forall at :: 0 <= at < PAGE_SIZE ==>
                 View(w, i, p)[at] == if at in life.value.stores then life.value.stores[at] else life.value.image[at]
  {
    hide Inv, After, LifeOf, KindAt, Content;
    var o := RunPages(n, files, run);
    var w := After(n, files, run).value;
    CachedIsIn(w.s, o, i, p, k);
    assert PageIs(w, k, LifeOf(n, files, run, k));
  }

  lemma {:induction false} FramesDiffer(s: State, o: map<nat, Owner>, i: nat, p: nat, j: nat, q: nat)
    requires Inv(s, o, multiset{}) && i < |s.spaces| && j < |s.spaces| && p in s.spaces[i].ptes && q in s.spaces[j].ptes
    requires KindAt(s.spaces[i], p) != Window && KindAt(s.spaces[j], q) != Window &&
             s.spaces[i].ptes[p] == s.spaces[j].ptes[q]
    ensures (i == j && p == q) || (KindAt(s.spaces[i], p).Cached? && KindAt(s.spaces[i], p) == KindAt(s.spaces[j], q))
  {
    hide KindAt, Counted, Sorted;
    assert SpaceOk(s, s.spaces[i]) && SpaceOk(s, s.spaces[j]);
    assert KindAt(s.spaces[i], p) != Nothing && KindAt(s.spaces[j], q) != Nothing;
  }

  /** A store is seen nowhere but in the page itself and in the shared mappings of the same part
      of the same file: private pages are private. */
  lemma {:induction false} StoreIsPrivate(n: nat, files: Files, run: seq<Step>, st: Step, j: nat, q: nat)
    requires After(n, files, run).Some? && st.Store? && DoStep(After(n, files, run).value, st).Some?
    requires var s := After(n, files, run).value.s;
             && j < |s.spaces| && q in s.spaces[j].ptes && KindAt(s.spaces[j], q) != Window && (st.i, st.page) != (j, q)
             && !(KindAt(s.spaces[j], q).Cached? && KindAt(s.spaces[j], q) == KindAt(s.spaces[st.i], st.page))
    ensures var w, v := After(n, files, run).value, DoStep(After(n, files, run).value, st).value;
            v.s == w.s && v.files == w.files && View(v, j, q) == View(w, j, q)
  {
    hide Inv, After, KindAt;
    var o := RunPages(n, files, run);
    var w := After(n, files, run).value;
    if StoreFrame(w.s, st.i, st.page) == Some(w.s.spaces[j].ptes[q]) {
      FramesDiffer(w.s, o, st.i, st.page, j, q);
    }
  }

  ghost predicate Has(file: seq<Byte>, at: nat, b: Byte) {
    at < |file| && file[at] == b
  }

  /** How much of a page goes to the file for a byte count. */
  function PartSize(bytes: nat): nat {
    if bytes < PAGE_SIZE then bytes else PAGE_SIZE
  }

  /** The length of a file of `size` bytes once `n` bytes have been written at `offset`. */
  function EndAfter(size: nat, offset: nat, n: nat): nat {
    if n > 0 && size < offset + n then offset + n else size
  }

  /** The step that takes the page of key `k` out of the cache, the last unmap, writes it back: a
      byte that was stored is in the file afterwards if and only if its offset in the page is below
      the byte count of the acquire that made the entry, or the file had it anyway.  The file then
      ends where it did or where that part of the page does, with zeros in a gap in front of it,
      and where nothing was stored the page has what the acquire read.
      No other file changes, and no byte of this one that is not in that part of the page. */
  lemma {:induction false} StoredIsWritten(n: nat, files: Files, run: seq<Step>, st: Step, k: Key, at: nat)
    requires After(n, files, run).Some? && DoStep(After(n, files, run).value, st).Some?
    requires k in After(n, files, run).value.s.cache && k !in DoStep(After(n, files, run).value, st).value.s.cache
    ensures LifeOf(n, files, run, k).Some? && |LifeOf(n, files, run, k).value.image| == PAGE_SIZE
    ensures var w, v, life := After(n, files, run).value, DoStep(After(n, files, run).value, st).value,
            LifeOf(n, files, run, k).value;
            var file, file' := FileOf(w.files, k.inode), FileOf(v.files, k.inode);
            && (at in life.stores && at < PAGE_SIZE ==>
                  (Has(file', k.offset + at, life.stores[at]) <==>
                   at < life.bytes || Has(file, k.offset + at, life.stores[at])))
            && (at !in life.stores && at < PartSize(life.bytes) && w.s.cache[k].dirty ==>
                  Has(file', k.offset + at, life.image[at]))
            && (!w.s.cache[k].dirty ==> file' == file)
            && (forall j: nat, b :: !(k.offset <= j < k.offset + life.bytes) && j < |file| ==>
                (Has(file', j, b) <==> Has(file, j, b)))
            && |file'| == EndAfter(|file|, k.offset, if w.s.cache[k].dirty then PartSize(life.bytes) else 0)
            && (forall j: nat :: |file| <= j < k.offset && j < |file'| ==> file'[j] == 0)
            && (forall f :: f != k.inode ==> FileOf(v.files, f) == FileOf(w.files, f))
  {
    hide Inv, After, LifeOf, Do, WrittenBack, KindAt, WritableAt, Overlay;
    var o := RunPages(n, files, run);
    var w := After(n, files, run).value;
    var life := LifeOf(n, files, run, k).value;
    assert PageIs(w, k, Some(life));
    StepKey(w.s, st.e, k);
    OverlayAt(life.image, life.stores, at);
    Back(w.files, w.mem, k, w.s.cache[k], at, if at in life.stores then life.stores[at] else 0);
  }

  lemma {:induction false} OverlayAt(image: seq<Byte>, stores: map<nat, Byte>, at: nat)
    ensures at < |image| ==> Overlay(image, stores)[at] == if at in stores then stores[at] else image[at]
  {
  }

  /** What writing a page back does to the files. */
  lemma {:induction false} Back(files: Files, mem: Memory, k: Key, p: Page, at: nat, b: Byte)
    requires |Content(mem, p.frame)| == PAGE_SIZE
    ensures var file, file', page := FileOf(files, k.inode), FileOf(WrittenBack(files, mem, k, p), k.inode),
            Content(mem, p.frame);
            && (at < PAGE_SIZE && at < p.bytes ==> Has(file', k.offset + at, page[at]))
            && (at >= p.bytes ==> (Has(file', k.offset + at, b) <==> Has(file, k.offset + at, b)))
            && (forall j: nat, c :: !(k.offset <= j < k.offset + p.bytes) && j < |file| ==>
                (Has(file', j, c) <==> Has(file, j, c)))
            && |file'| == EndAfter(|file|, k.offset, PartSize(p.bytes))
            && (forall j: nat :: |file| <= j < k.offset && j < |file'| ==> file'[j] == 0)
            && (forall f :: f != k.inode ==> FileOf(WrittenBack(files, mem, k, p), f) == FileOf(files, f))
  {
    hide Content;
  }

  // ----- Two ways to lose a byte -----

  const AT: nat := USER_START
  const KEY := Key(1, 0)
  const EMPTY: Files := map[1 := []]
  const SHORT := Vme(USER_START, USER_START + PAGE, 100, true, true, false, 1, 0, 0)
  const LONG := Vme(USER_START, USER_START + PAGE, 201, true, true, true, 1, 0, 0)
  const PRIVATE := Vme(USER_START, USER_START + PAGE, 201, true, false, true, 1, 0, 0)

  lemma {:induction false} OneVme(v: Vme)
    requires v in {SHORT, LONG, PRIVATE}
    ensures Sorted([v]) && Inserted([], [v], v) && Lookup([v], AT) == Some(v)
  {
    assert GoodVme(v);
    assert [v] == [][..0] + [v] + [][0..];
  }

  lemma {:induction false} Next(files: Files, run: seq<Step>, w: World, st: Step, v: World)
    requires After(2, files, run) == Some(w) && DoStep(w, st) == Some(v)
    ensures After(2, files, run + [st]) == Some(v)
  {
    hide DoStep;
    assert (run + [st])[..|run|] == run;
  }

  /** Two address spaces with a range each, and what is mapped there. */
  function Pair(cache: Table, a: Vme, x: map<nat, nat>, copying: Option<Key>, b: Vme, y: map<nat, nat>,
                inUse: set<nat>): State {
    State(cache, [Space([a], x, copying), Space([b], y, None)], inUse)
  }

  lemma {:induction false} AddStep(w: World, i: nat, v: Vme)
    requires i < |w.s.spaces| && w.s.spaces[i] == Space([], map[], None) && Sorted([v]) && Inserted([], [v], v) &&
             v.paddr == 0
    ensures DoStep(w, Event(AddVme(i, [v], v))) == Some(World(SetVmes(w.s, i, [v]), w.mem, w.files))
  {
    hide Sorted, Inserted;
  }

  lemma {:induction false} TwoMaps(a: Vme) returns (run: seq<Step>)
    requires a in {SHORT, PRIVATE}
    ensures After(2, EMPTY, run) == Some(World(Pair(map[], a, map[], None, LONG, map[], {}), map[], EMPTY))
  {
    var w0 := Begin(2, EMPTY);
    assert After(2, EMPTY, []) == Some(w0) && w0.s.spaces == [Space([], map[], None), Space([], map[], None)];
    hide Sorted, Inserted, Lookup, After, DoStep;
    OneVme(a);
    OneVme(LONG);
    var s1 := State(map[], [Space([a], map[], None), Space([], map[], None)], {});
    assert SetVmes(w0.s, 0, [a]) == s1;
    AddStep(w0, 0, a);
    var w1 := World(s1, map[], EMPTY);
    Next(EMPTY, [], w0, Event(AddVme(0, [a], a)), w1);
    run := [] + [Event(AddVme(0, [a], a))];
    var s2 := Pair(map[], a, map[], None, LONG, map[], {});
    assert SetVmes(s1, 1, [LONG]) == s2;
    AddStep(w1, 1, LONG);
    Next(EMPTY, run, w1, Event(AddVme(1, [LONG], LONG)), World(s2, map[], EMPTY));
    run := run + [Event(AddVme(1, [LONG], LONG))];
  }

  /** The page with byte 9 stored at 200. */
  function Stored(): seq<Byte> {
    Image([], 0)[200 := 9]
  }

  /** The world in which the page is cached in frame 7, and the other process has `y` mapped. */
  function Other(t: Table, a: Vme, x: map<nat, nat>, copying: Option<Key>, y: map<nat, nat>, page: seq<Byte>): World {
    World(Pair(t, a, x, copying, LONG, y, {7}), map[7 := page], EMPTY)
  }

  lemma {:induction false} OtherFaults(a: Vme, x: map<nat, nat>, copying: Option<Key>, bytes: nat)
    requires a in {SHORT, PRIVATE}
    ensures var t, t' := map[KEY := Page(7, 1, false, bytes)], map[KEY := Page(7, 2, true, bytes)];
            DoStep(Other(t, a, x, copying, map[], Image([], 0)), Event(FaultShared(1, AT, 8))) ==
            Some(Other(t', a, x, copying, map[AT := 7], Image([], 0)))
  {
    hide Sorted, Inserted, Image;
    OneVme(LONG);
    var t, t' := map[KEY := Page(7, 1, false, bytes)], map[KEY := Page(7, 2, true, bytes)];
    var w, w' := Other(t, a, x, copying, map[], Image([], 0)), Other(t', a, x, copying, map[AT := 7], Image([], 0));
    assert KeyOf(LONG, AT) == KEY;
    assert Dirtied(Acquired(t, KEY, PageBytes(LONG, AT), 8), KEY) == t';
    assert Map(w.s.(cache := t'), 1, AT, 7) == w'.s;
  }

  lemma {:induction false} OtherStoresOne(t: Table, a: Vme, x: map<nat, nat>, copying: Option<Key>)
    ensures DoStep(Other(t, a, x, copying, map[AT := 7], Image([], 0)), Store(1, AT, 200, 9)) ==
            Some(Other(t, a, x, copying, map[AT := 7], Stored()))
  {
    hide Sorted, Inserted, Image;
    OneVme(LONG);
    assert map[7 := Image([], 0)][7 := Stored()] == map[7 := Stored()];
  }

  /** Another process maps the page, and stores a byte. */
  lemma {:induction false} OtherStores(run: seq<Step>, a: Vme, x: map<nat, nat>, copying: Option<Key>, bytes: nat)
    returns (run': seq<Step>)
    requires a in {SHORT, PRIVATE}
    requires After(2, EMPTY, run) ==
             Some(Other(map[KEY := Page(7, 1, false, bytes)], a, x, copying, map[], Image([], 0)))
    ensures After(2, EMPTY, run') ==
            Some(Other(map[KEY := Page(7, 2, true, bytes)], a, x, copying, map[AT := 7], Stored()))
    ensures Store(1, AT, 200, 9) in run'
  {
    hide After, DoStep, Image, Stored, Other;
    var t, t' := map[KEY := Page(7, 1, false, bytes)], map[KEY := Page(7, 2, true, bytes)];
    var w := Other(t', a, x, copying, map[AT := 7], Image([], 0));
    OtherFaults(a, x, copying, bytes);
    Next(EMPTY, run, Other(t, a, x, copying, map[], Image([], 0)), Event(FaultShared(1, AT, 8)), w);
    run' := run + [Event(FaultShared(1, AT, 8))];
    OtherStoresOne(t', a, x, copying);
    Next(EMPTY, run', w, Store(1, AT, 200, 9), Other(t', a, x, copying, map[AT := 7], Stored()));
    run' := run' + [Store(1, AT, 200, 9)];
  }

  lemma {:induction false} OtherUnmaps(a: Vme, x: map<nat, nat>, copying: Option<Key>, bytes: nat)
    ensures var t, t' := map[KEY := Page(7, 2, true, bytes)], map[KEY := Page(7, 1, true, bytes)];
            DoStep(Other(t, a, x, copying, map[AT := 7], Stored()), Event(UnmapPage(1, AT))) ==
            Some(Other(t', a, x, copying, map[], Stored()))
  {
    hide Sorted, Inserted, Image;
    OneVme(LONG);
    var t, t' := map[KEY := Page(7, 2, true, bytes)], map[KEY := Page(7, 1, true, bytes)];
    var w, w' := Other(t, a, x, copying, map[AT := 7], Stored()), Other(t', a, x, copying, map[], Stored());
    assert Released(t, KEY) == t';
    assert Unmap(Drop(w.s, KEY), 1, AT) == w'.s;
  }

  /** And unmaps it. */
  lemma {:induction false} OtherWrites(run: seq<Step>, a: Vme, x: map<nat, nat>, copying: Option<Key>, bytes: nat)
    returns (run': seq<Step>)
    requires a in {SHORT, PRIVATE}
    requires After(2, EMPTY, run) ==
             Some(Other(map[KEY := Page(7, 1, false, bytes)], a, x, copying, map[], Image([], 0)))
    ensures After(2, EMPTY, run') == Some(Other(map[KEY := Page(7, 1, true, bytes)], a, x, copying, map[], Stored()))
    ensures Store(1, AT, 200, 9) in run'
  {
    hide After, DoStep, Image, Stored, Other;
    run' := OtherStores(run, a, x, copying, bytes);
    var t, t' := map[KEY := Page(7, 2, true, bytes)], map[KEY := Page(7, 1, true, bytes)];
    OtherUnmaps(a, x, copying, bytes);
    var w, w' := Other(t, a, x, copying, map[AT := 7], Stored()), Other(t', a, x, copying, map[], Stored());
    Next(EMPTY, run', w, Event(UnmapPage(1, AT)), w');
    run' := run' + [Event(UnmapPage(1, AT))];
  }

  /** A process maps 100 bytes of an empty file, shared and read-only, and looks at them; another
      writes byte 200 through a mapping of 201 bytes.  When both have unmapped, the file has 100
      bytes. */
  lemma {:induction false} LostByte() returns (run: seq<Step>, w: World)
    ensures After(2, EMPTY, run) == Some(w) && Store(1, AT, 200, 9) in run
    ensures w.s.cache == map[] && w.s.inUse == {} && |w.s.spaces| == 2 &&
            w.s.spaces[0].ptes == map[] == w.s.spaces[1].ptes
    ensures |FileOf(w.files, 1)| == 100
  {
    hide After, Sorted, Inserted, Image;
    OneVme(SHORT);
    run := TwoMaps(SHORT);
    var w1 := World(Pair(map[], SHORT, map[], None, LONG, map[], {}), map[], EMPTY);
    var w2 := World(Pair(map[KEY := Page(7, 1, false, 100)], SHORT, map[AT := 7], None, LONG, map[], {7}),
                    map[7 := Image([], 0)], EMPTY);
    assert KeyOf(SHORT, AT) == KEY && Acquired(map[], KEY, 100, 7) == w2.s.cache;
    assert Map(w1.s.(cache := w2.s.cache, inUse := {} + {7}), 0, AT, 7) == w2.s;
    Next(EMPTY, run, w1, Event(FaultShared(0, AT, 7)), w2);
    run := OtherWrites(run + [Event(FaultShared(0, AT, 7))], SHORT, map[AT := 7], None, 100);
    var w3 := World(Pair(map[KEY := Page(7, 1, true, 100)], SHORT, map[AT := 7], None, LONG, map[], {7}),
                    map[7 := Stored()], EMPTY);
    w := World(Pair(map[], SHORT, map[], None, LONG, map[], {}), map[7 := Stored()],
               WrittenBack(EMPTY, w3.mem, KEY, w3.s.cache[KEY]));
    assert Released(w3.s.cache, KEY) == map[];
    assert Unmap(Drop(w3.s, KEY), 0, AT) == w.s;
    Next(EMPTY, run, w3, Event(UnmapPage(0, AT)), w);
    run := run + [Event(UnmapPage(0, AT))];
  }

  /** A private mapping of an empty file is being faulted in, which asks for no bytes; meanwhile the
      other process writes and unmaps.  Nothing reaches the file. */
  lemma {:induction false} LostToCopy() returns (run: seq<Step>, w: World)
    ensures After(2, EMPTY, run) == Some(w) && Store(1, AT, 200, 9) in run
    ensures w.s.cache == map[] && |w.s.spaces| == 2 && w.s.spaces[1].ptes == map[]
    ensures FileOf(w.files, 1) == []
  {
    hide After, Sorted, Inserted, Image;
    OneVme(PRIVATE);
    run := TwoMaps(PRIVATE);
    var w1 := World(Pair(map[], PRIVATE, map[], None, LONG, map[], {}), map[], EMPTY);
    var w2 := World(Pair(map[KEY := Page(7, 1, false, 0)], PRIVATE, map[], Some(KEY), LONG, map[], {7}),
                    map[7 := Image([], 0)], EMPTY);
    assert KeyOf(PRIVATE, AT) == KEY && Acquired(map[], KEY, 0, 7) == w2.s.cache;
    assert SetCopying(w1.s.(cache := w2.s.cache, inUse := {} + {7}), 0, Some(KEY)) == w2.s;
    Next(EMPTY, run, w1, Event(BeginCopy(0, AT, 0, 7)), w2);
    run := OtherWrites(run + [Event(BeginCopy(0, AT, 0, 7))], PRIVATE, map[], Some(KEY), 0);
    var w3 := World(Pair(map[KEY := Page(7, 1, true, 0)], PRIVATE, map[], Some(KEY), LONG, map[], {7}),
                    map[7 := Stored()], EMPTY);
    w := World(Pair(map[], PRIVATE, map[AT := 9], None, LONG, map[], {9}), map[7 := Stored(), 9 := Stored()],
               WrittenBack(EMPTY, w3.mem, KEY, w3.s.cache[KEY]));
    assert Released(w3.s.cache, KEY) == map[];
    assert Map(Drop(SetCopying(w3.s.(inUse := w3.s.inUse + {9}), 0, None), KEY), 0, AT, 9) == w.s;
    assert w3.mem[9 := Stored()] == w.mem;
    Next(EMPTY, run, w3, Event(EndCopy(0, AT, 9)), w);
    run := run + [Event(EndCopy(0, AT, 9))];
  }
}
