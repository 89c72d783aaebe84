/** The block cache under interleaving.

    A miss lets go of the lock while it reads from the disk, so it is three steps: the lookup, the
    read, and the filling of a line.  Writes keep the lock.  A run is any interleaving of such
    steps of any number of threads.
  */
module CacheRuns {
  import opened Words
  import opened ByteWords
  import opened BlockCache

  /** A thread whose lookup has missed, and what it has read since. */
  datatype Pending = Missed(b: nat) | Read(b: nat, image: seq<Byte>)

  datatype Event = Get(t: nat, b: nat) | Fetch(t: nat) | Fill(t: nat) | Set(b: nat, src: seq<Byte>, offset: nat)

  datatype World = World(cache: Lines, pending: map<nat, Pending>)

  ghost predicate Well(w: World, size: nat) {
    && Shaped(w.cache, size)
    && (forall t :: t in w.pending ==> w.pending[t].b < |w.cache.disk|)
    && (forall t :: t in w.pending && w.pending[t].Read? ==> |w.pending[t].image| == size)
  }

  ghost function Do(w: World, size: nat, e: Event): Option<World>
    requires Well(w, size)
  {
    match e
    case Get(t, b) =>
      if t in w.pending || b >= |w.cache.disk| then None
      else if b in w.cache.tags then Some(w.(cache := LookedUp(w.cache, b)))
      else Some(w.(pending := w.pending[t := Missed(b)]))
    case Fetch(t) =>
      if t in w.pending && w.pending[t].Missed?
      then Some(w.(pending := w.pending[t := Read(w.pending[t].b, w.cache.disk[w.pending[t].b])])) else None
    case Fill(t) =>
      if t in w.pending && w.pending[t].Read?
      then Some(World(Filled(w.cache, w.pending[t].b, w.pending[t].image), w.pending - {t})) else None
    case Set(b, src, offset) =>
      if b < |w.cache.disk| && offset <= size then Some(w.(cache := Stored(w.cache, size, b, src, offset))) else None
  }

  lemma DoWell(w: World, size: nat, e: Event)
    requires Well(w, size) && Do(w, size, e).Some?
    ensures Well(Do(w, size, e).value, size) && |Do(w, size, e).value.cache.disk| == |w.cache.disk|
  {
    hide LastAt, Used, Patched;
    match e
    case Get(t, b) => LookedUpKeeps(w.cache, size, b);
    case Fetch(_) =>
    case Fill(t) => FilledShape(w.cache, size, w.pending[t].b, w.pending[t].image);
    case Set(b, src, offset) => StoredShape(w.cache, size, b, src, offset);
  }

  ghost function After(w: World, size: nat, run: seq<Event>): (r: Option<World>)
    requires Well(w, size)
    ensures r.Some? ==> Well(r.value, size)
    decreases |run|
  {
    if run == [] then Some(w) else
    var q := After(w, size, run[..|run| - 1]);
    if q == None then None else
    var r := Do(q.value, size, run[|run| - 1]);
    if r == None then None else DoWell(q.value, size, run[|run| - 1]); r
  }

  // ----- Exactly when the cache stays coherent -----

  /** Thread `t` fills a line with what the disk still has, and no other line has the block. */
  ghost predicate Clean(w: World, t: nat)
    requires |w.cache.ages| > 0 && |w.cache.tags| == |w.cache.ages|
  {
    && t in w.pending && w.pending[t].Read?
    && var b := w.pending[t].b;
    && b < |w.cache.disk| && w.pending[t].image == w.cache.disk[b]
    && (b in w.cache.tags ==> w.cache.tags[Oldest(w.cache.ages)] == b)
  }

  ghost predicate CleanStep(w: World, size: nat, e: Event)
    requires Well(w, size)
  {
    e.Fill? ==> Clean(w, e.t)
  }

  /** One step keeps the cache coherent if and only if it is not an unclean fill. */
  lemma StepCoherent(w: World, size: nat, e: Event)
    requires Well(w, size) && Coherent(w.cache) && Do(w, size, e).Some?
    ensures Coherent(Do(w, size, e).value.cache) <==> CleanStep(w, size, e)
  {
    hide LastAt, Used, Patched, Aged, Coherent, Filled, Stored, LookedUp;
    match e
    case Get(t, b) => LookedUpKeeps(w.cache, size, b);
    case Fetch(_) =>
    case Fill(t) => FilledExact(w.cache, size, w.pending[t].b, w.pending[t].image);
    case Set(b, src, offset) => StoredKeeps(w.cache, size, b, src, offset);
  }

  /** The cache is coherent all along the run. */
  ghost predicate StaysCoherent(w: World, size: nat, run: seq<Event>)
    requires Well(w, size)
    decreases |run|
  {
    After(w, size, run).Some? && Coherent(After(w, size, run).value.cache) &&
      (run != [] ==> StaysCoherent(w, size, run[..|run| - 1]))
  }

  /** Every fill of the run is a clean one. */
  ghost predicate AllClean(w: World, size: nat, run: seq<Event>)
    requires Well(w, size)
    decreases |run|
  {
    run != [] ==>
      && AllClean(w, size, run[..|run| - 1]) && After(w, size, run[..|run| - 1]).Some?
      && CleanStep(After(w, size, run[..|run| - 1]).value, size, run[|run| - 1])
  }

  /** Along every run the cache stays coherent if and only if every fill is clean. */
  lemma {:induction false} CoherentIffClean(w: World, size: nat, run: seq<Event>)
    requires Well(w, size) && Coherent(w.cache) && After(w, size, run).Some?
    ensures StaysCoherent(w, size, run) <==> AllClean(w, size, run)
    decreases |run|
  {
    hide Coherent, Clean, Well, Do;
    if run != [] {
      var before := run[..|run| - 1];
      CoherentIffClean(w, size, before);
      var q := After(w, size, before).value;
      if Coherent(q.cache) { StepCoherent(q, size, run[|run| - 1]); }
    }
  }

  // ----- Runs in which nothing comes between -----

  /** The step installs or writes block `b`. */
  ghost predicate Touches(w: World, e: Event, b: nat) {
    match e
    case Get(_, _) => false
    case Fetch(_) => false
    case Fill(t) => t in w.pending && w.pending[t].b == b
    case Set(c, _, _) => c == b
  }

  /** Since thread `t` has missed, another step has installed or written its block. */
  ghost predicate Disturbed(w: World, size: nat, run: seq<Event>, t: nat)
    requires Well(w, size) && After(w, size, run).Some?
    decreases |run|
  {
    run != [] &&
    var before, e := run[..|run| - 1], run[|run| - 1];
    var q := After(w, size, before).value;
    t in q.pending && (Disturbed(w, size, before, t) || Touches(q, e, q.pending[t].b))
  }

  /** What an undisturbed thread can rely on. */
  ghost predicate Undisturbed(w: World, t: nat) {
    t in w.pending ==>
      && w.pending[t].b < |w.cache.disk| && w.pending[t].b !in w.cache.tags
      && (w.pending[t].Read? ==> w.pending[t].image == w.cache.disk[w.pending[t].b])
  }

  lemma StepUndisturbed(w: World, size: nat, e: Event, t: nat)
    requires Well(w, size) && Do(w, size, e).Some?
    requires t in w.pending ==> Undisturbed(w, t) && !Touches(w, e, w.pending[t].b)
    ensures Undisturbed(Do(w, size, e).value, t)
  {
    hide LastAt, Used, Patched, Aged;
  }

  lemma {:induction false} RunUndisturbed(w: World, size: nat, run: seq<Event>, t: nat)
    requires Well(w, size) && w.pending == map[] && After(w, size, run).Some? && !Disturbed(w, size, run, t)
    ensures Undisturbed(After(w, size, run).value, t)
    decreases |run|
  {
    hide Undisturbed, Well, Do, Touches;
    if run == [] {
      NobodyPending(w, t);
    } else {
      var before, e := run[..|run| - 1], run[|run| - 1];
      var q := After(w, size, before).value;
      if t in q.pending { RunUndisturbed(w, size, before, t); }
      StepUndisturbed(q, size, e, t);
    }
  }

  lemma NobodyPending(w: World, t: nat)
    requires w.pending == map[]
    ensures Undisturbed(w, t)
  {
  }

  /** No thread fills a line after a step of another has installed or written the same block. */
  ghost predicate Quiet(w: World, size: nat, run: seq<Event>)
    requires Well(w, size) && After(w, size, run).Some?
    decreases |run|
  {
    run != [] ==>
      && Quiet(w, size, run[..|run| - 1])
      && (run[|run| - 1].Fill? ==> !Disturbed(w, size, run[..|run| - 1], run[|run| - 1].t))
  }

  lemma UndisturbedIsClean(w: World, size: nat, t: nat)
    requires Well(w, size) && Undisturbed(w, t) && Do(w, size, Fill(t)).Some?
    ensures Clean(w, t)
  {
  }

  /** In a quiet run the cache stays coherent, so that every hit finds what the disk has. */
  lemma {:induction false} QuietRuns(w: World, size: nat, run: seq<Event>)
    requires Well(w, size) && Coherent(w.cache) && w.pending == map[] && After(w, size, run).Some? &&
             Quiet(w, size, run)
    ensures StaysCoherent(w, size, run)
    ensures var s := After(w, size, run).value.cache;
            forall b: nat :: b in s.tags ==> b < |s.disk| && s.lines[LastAt(s.tags, b)] == s.disk[b]
    decreases |run|
  {
    hide Coherent, Well, Do, Undisturbed, Disturbed, Clean, LastAt;
    if run != [] {
      var before, e := run[..|run| - 1], run[|run| - 1];
      QuietRuns(w, size, before);
      var q := After(w, size, before).value;
      if e.Fill? {
        RunUndisturbed(w, size, before, e.t);
        UndisturbedIsClean(q, size, e.t);
      }
      StepCoherent(q, size, e);
    }
    HitsFresh(After(w, size, run).value, size);
  }

  lemma HitsFresh(w: World, size: nat)
    requires Well(w, size) && Coherent(w.cache)
    ensures forall b: nat :: b in w.cache.tags ==>
            b < |w.cache.disk| && w.cache.lines[LastAt(w.cache.tags, b)] == w.cache.disk[b]
  {
    hide LastAt, Aged;
    forall b: nat | b in w.cache.tags
           ensures b < |w.cache.disk| && w.cache.lines[LastAt(w.cache.tags, b)] == w.cache.disk[b] {
      LookedUpImage(w.cache, b);
    }
  }

  // ----- A write between the halves of a miss -----

  lemma {:induction false} OneMore(w: World, size: nat, run: seq<Event>, q: World, e: Event)
    requires Well(w, size) && After(w, size, run) == Some(q) && Do(q, size, e).Some?
    ensures After(w, size, run + [e]) == Do(q, size, e)
  {
    hide Do, Well;
    assert (run + [e])[..|run|] == run;
  }

  /** Whenever a block that is not cached is written, to another value, between the read and the
      fill of a miss, the miss leaves an old image of it in a line, and the block in two lines. */
  lemma {:induction false} LateFill(w: World, size: nat, t: nat, b: nat, src: seq<Byte>, offset: nat)
    requires Well(w, size) && Coherent(w.cache) && t !in w.pending && b < |w.cache.disk| && b !in w.cache.tags &&
             offset <= size
    requires offset <= |w.cache.disk[b]| && Patched(w.cache.disk[b], offset, src) != w.cache.disk[b]
    ensures var r := After(w, size, [] + [Get(t, b)] + [Fetch(t)] + [Set(b, src, offset)] + [Fill(t)]);
            && r.Some? && !Coherent(r.value.cache)
            && exists i :: 0 <= i < |r.value.cache.tags| && i < |r.value.cache.lines| && r.value.cache.tags[i] == b &&
                           r.value.cache.lines[i] == w.cache.disk[b] != r.value.cache.disk[b]
  {
    hide LastAt, Used, Patched, Aged, After;
    assert After(w, size, []) == Some(w) by { Nothing(w, size); }
    var w1 := w.(pending := w.pending[t := Missed(b)]);
    OneMore(w, size, [], w, Get(t, b));
    var w2 := w1.(pending := w1.pending[t := Read(b, w.cache.disk[b])]);
    OneMore(w, size, [] + [Get(t, b)], w1, Fetch(t));
    StoredKeeps(w.cache, size, b, src, offset);
    DoWell(w2, size, Set(b, src, offset));
    var w3 := Do(w2, size, Set(b, src, offset)).value;
    OneMore(w, size, [] + [Get(t, b)] + [Fetch(t)], w2, Set(b, src, offset));
    FilledExact(w3.cache, size, b, w.cache.disk[b]);
    OneMore(w, size, [] + [Get(t, b)] + [Fetch(t)] + [Set(b, src, offset)], w3, Fill(t));
    var i := Oldest(w3.cache.ages);
    assert Filled(w3.cache, b, w.cache.disk[b]).tags[i] == b;
  }

  lemma Nothing(w: World, size: nat)
    requires Well(w, size)
    ensures After(w, size, []) == Some(w)
  {
  }
}
