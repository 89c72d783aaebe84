/** The thread scheduler: shared and per-core ready buckets by priority and feedback level,
    queues of threads to wake, and one scheduling pass of a core.

    A queue is the sequence of its threads, head first.  A thread that is in no queue runs, is
    blocked, or is in the hands of the scheduler.
  */
module Scheduler {
  import opened Sequences
  import opened Words

  const LOW: nat := 0
  const NORMAL: nat := 1
  const HIGH: nat := 2
  const LEVELS := 3
  const ANY_CORE := -1
  const QUANTUM: seq<int> := [2, 4, 8]

  datatype Thread = Thread(priority: nat, level: nat, quantum: int, affinity: int, wakeup: nat)

  datatype Queue = Global(p: nat, l: nat) | Ready(core: nat, p: nat, l: nat) | Deferred(core: nat) | Sleeping(core: nat)
    | Pinned(core: nat)

  type Queues = map<Queue, seq<nat>>

  type Homes = seq<Option<Queue>>

  function In(qs: Queues, q: Queue): seq<nat> {
    if q in qs then qs[q] else []
  }

  predicate Allows(th: Thread, core: nat) {
    th.affinity == ANY_CORE || th.affinity == core
  }

  /** A thread may be in a ready bucket only if the bucket is that of its priority and level and
      its affinity allows the core. */
  predicate May(th: Thread, q: Queue, cores: nat) {
    match q
    case Global(p, l) => th.affinity == ANY_CORE && p == th.priority && l == th.level
    case Ready(c, p, l) => c < cores && Allows(th, c) && p == th.priority && l == th.level
    case Deferred(c) => c < cores
    case Sleeping(c) => c < cores
    case Pinned(c) => c < cores && th.affinity == c
  }

  predicate ThreadOk(th: Thread, h: Option<Queue>, cores: nat) {
    && th.priority < 3 && th.level < LEVELS && (th.affinity == ANY_CORE || 0 <= th.affinity < cores)
    && (h.Some? ==> May(th, h.value, cores))
  }

  /** A queue has the threads that are at home there, each once. */
  ghost predicate QueueOk(qs: Queues, home: Homes, q: Queue) {
    Once(In(qs, q)) && forall t: nat :: t in In(qs, q) <==> t < |home| && home[t] == Some(q)
  }

  predicate InOrder(threads: seq<Thread>, s: seq<nat>) {
    forall i, j :: 0 <= i < j < |s| && s[i] < |threads| && s[j] < |threads| ==>
           threads[s[i]].wakeup <= threads[s[j]].wakeup
  }

  /** Every thread is in at most one queue, where it may be; sleepers are in order of wake-up. */
  ghost predicate Inv(qs: Queues, threads: seq<Thread>, home: Homes, cores: nat) {
    && |home| == |threads|
    && (forall q :: QueueOk(qs, home, q))
    && (forall t :: 0 <= t < |threads| ==> ThreadOk(threads[t], home[t], cores))
    && (forall c :: InOrder(threads, In(qs, Sleeping(c))))
  }

  // ----- Queue operations -----

  lemma AddInv(qs: Queues, threads: seq<Thread>, home: Homes, cores: nat, q: Queue, t: nat)
    requires Inv(qs, threads, home, cores) && t < |home| && home[t] == None && May(threads[t], q, cores) && !q.Sleeping?
    ensures Inv(qs[q := In(qs, q) + [t]], threads, home[t := Some(q)], cores)
  {
    var qs', home' := qs[q := In(qs, q) + [t]], home[t := Some(q)];
    assert QueueOk(qs, home, q);
    forall r ensures QueueOk(qs', home', r) {
      assert QueueOk(qs, home, r);
    }
    forall c ensures InOrder(threads, In(qs', Sleeping(c))) {
      assert In(qs', Sleeping(c)) == In(qs, Sleeping(c));
    }
  }

  lemma Tail(threads: seq<Thread>, s: seq<nat>)
    requires s != [] && Once<nat>(s)
    ensures Once(s[1..]) && forall x :: x in s[1..] <==> x in s && x != s[0]
    ensures InOrder(threads, s) ==> InOrder(threads, s[1..])
  {
    assert s == [s[0]] + s[1..];
  }

  lemma RemoveInv(qs: Queues, threads: seq<Thread>, home: Homes, cores: nat, q: Queue)
    requires Inv(qs, threads, home, cores) && In(qs, q) != []
    ensures var t := In(qs, q)[0];
            t < |home| && home[t] == Some(q) && Inv(qs[q := In(qs, q)[1..]], threads, home[t := None], cores)
  {
    hide Once, InOrder;
    var t := In(qs, q)[0];
    assert QueueOk(qs, home, q) && t in In(qs, q);
    var qs', home' := qs[q := In(qs, q)[1..]], home[t := None];
    Tail(threads, In(qs, q));
    forall r ensures QueueOk(qs', home', r) {
      assert QueueOk(qs, home, r);
    }
    forall c ensures InOrder(threads, In(qs', Sleeping(c))) {
      assert InOrder(threads, In(qs, Sleeping(c)));
    }
  }

  /** The homes once all of `ts` have been taken out. */
  ghost function Cleared(home: Homes, ts: seq<nat>): Homes {
    seq(|home|, t requires 0 <= t < |home| => if t in ts then None else home[t])
  }

  lemma RemoveAllInv(qs: Queues, threads: seq<Thread>, home: Homes, cores: nat, q: Queue)
    requires Inv(qs, threads, home, cores)
    ensures Inv(qs[q := []], threads, Cleared(home, In(qs, q)), cores)
  {
    assert QueueOk(qs, home, q);
    var qs', home' := qs[q := []], Cleared(home, In(qs, q));
    forall r ensures QueueOk(qs', home', r) {
      assert QueueOk(qs, home, r);
    }
    forall c ensures InOrder(threads, In(qs', Sleeping(c))) {
      assert InOrder(threads, In(qs, Sleeping(c)));
    }
  }

  /** A thread in no queue may be changed. */
  lemma ChangeInv(qs: Queues, threads: seq<Thread>, home: Homes, cores: nat, t: nat, th: Thread)
    requires Inv(qs, threads, home, cores) && t < |home| && home[t] == None && ThreadOk(th, None, cores)
    ensures Inv(qs, threads[t := th], home, cores)
  {
    forall c ensures InOrder(threads[t := th], In(qs, Sleeping(c))) {
      assert InOrder(threads, In(qs, Sleeping(c))) && QueueOk(qs, home, Sleeping(c));
      assert t !in In(qs, Sleeping(c));
    }
  }

  function Insert(s: seq<nat>, t: nat, i: nat): (r: seq<nat>)
    requires i <= |s|
    ensures |r| == |s| + 1 && forall j :: 0 <= j <= |s| ==>
            r[j] == (if j < i then s[j] else if j == i then t else s[j - 1])
  {
    s[..i] + [t] + s[i..]
  }

  lemma Inserted(s: seq<nat>, t: nat, i: nat)
    requires i <= |s| && t !in s && Once(s)
    ensures Once(Insert(s, t, i)) && forall x :: x in Insert(s, t, i) <==> x in s || x == t
  {
    var s' := Insert(s, t, i);
    assert s'[i] == t;
    forall x | x in s ensures x in s' {
      var j :| 0 <= j < |s| && s[j] == x;
      assert s'[if j < i then j else j + 1] == x;
    }
  }

  lemma InsertedInOrder(threads: seq<Thread>, s: seq<nat>, t: nat, i: nat)
    requires i <= |s| && t < |threads| && InOrder(threads, s)
    requires forall j :: 0 <= j < i ==> s[j] < |threads| && threads[s[j]].wakeup <= threads[t].wakeup
    requires forall j :: i <= j < |s| ==> s[j] < |threads| && threads[t].wakeup <= threads[s[j]].wakeup
    ensures InOrder(threads, Insert(s, t, i))
  {
  }

  lemma InsertedHome(qs: Queues, home: Homes, q: Queue, t: nat, i: nat)
    requires QueueOk(qs, home, q) && t < |home| && home[t] == None && i <= |In(qs, q)|
    ensures QueueOk(qs[q := Insert(In(qs, q), t, i)], home[t := Some(q)], q)
    ensures forall r :: r != q && QueueOk(qs, home, r) ==>
            QueueOk(qs[q := Insert(In(qs, q), t, i)], home[t := Some(q)], r)
  {
    hide Once, Insert;
    Inserted(In(qs, q), t, i);
  }

  /** `t` enters the sleep queue after the first `i` threads. */
  lemma SleepInv(qs: Queues, threads: seq<Thread>, home: Homes, cores: nat, c: nat, t: nat, i: nat)
    requires Inv(qs, threads, home, cores) && t < |home| && home[t] == None && c < cores && i <= |In(qs, Sleeping(c))|
    requires var s := In(qs, Sleeping(c));
             forall j :: 0 <= j < i ==> s[j] < |threads| && threads[s[j]].wakeup <= threads[t].wakeup
    requires var s := In(qs, Sleeping(c));
             forall j :: i <= j < |s| ==> s[j] < |threads| && threads[t].wakeup <= threads[s[j]].wakeup
    ensures Inv(qs[Sleeping(c) := Insert(In(qs, Sleeping(c)), t, i)], threads, home[t := Some(Sleeping(c))], cores)
  {
    var q, s := Sleeping(c), In(qs, Sleeping(c));
    var qs', home' := qs[q := Insert(s, t, i)], home[t := Some(q)];
    assert QueueOk(qs, home, q) && InOrder(threads, s);
    InsertedHome(qs, home, q, t, i);
    InsertedInOrder(threads, s, t, i);
    hide QueueOk, InOrder, Insert;
    forall r ensures QueueOk(qs', home', r) {
      assert QueueOk(qs, home, r);
    }
    forall d ensures InOrder(threads, In(qs', Sleeping(d))) {
      assert InOrder(threads, In(qs, Sleeping(d)));
    }
  }

  // ----- What a pass keeps -----

  /** Whether core `core` could run the thread at time `now`. */
  predicate Runnable(th: Thread, h: Option<Queue>, core: nat, now: nat) {
    match h
    case None => false
    case Some(Global(_, _)) => true
    case Some(Ready(c, _, _)) => c == core
    case Some(Deferred(c)) => c == core && Allows(th, core)
    case Some(Sleeping(c)) => c == core && Allows(th, core) && th.wakeup <= now
    case Some(Pinned(c)) => c == core
  }

  predicate InReady(h: Option<Queue>, core: nat) {
    h.Some? && h.value.Ready? && h.value.core == core
  }

  /** The thread is still queued if it was, the core can still run it if it could, and it has
      kept all but its level and quantum; with `stay`, it is still in the core's ready buckets. */
  predicate Track(th: Thread, h: Option<Queue>, th': Thread, h': Option<Queue>, core: nat, now: nat, stay: bool) {
    && th'.priority == th.priority && th'.affinity == th.affinity && th'.wakeup == th.wakeup
    && (h'.Some? <==> h.Some?) && (Runnable(th', h', core, now) <==> Runnable(th, h, core, now))
    && (stay && InReady(h, core) ==> InReady(h', core))
  }

  ghost predicate Tracks(ths: seq<Thread>, hs: Homes, ths': seq<Thread>, hs': Homes, core: nat, now: nat, stay: bool) {
    && |ths'| == |ths| == |hs'| == |hs|
    && forall t :: 0 <= t < |ths| ==> Track(ths[t], hs[t], ths'[t], hs'[t], core, now, stay)
  }

  lemma TrackOne(ths: seq<Thread>, hs: Homes, ths': seq<Thread>, hs': Homes, core: nat, now: nat, stay: bool,
                 t: nat, th: Thread, h: Option<Queue>)
    requires Tracks(ths, hs, ths', hs', core, now, stay) && t < |ths| && Track(ths'[t], hs'[t], th, h, core, now, stay)
    ensures Tracks(ths, hs, ths'[t := th], hs'[t := h], core, now, stay)
  {
  }

  lemma TrackAll(ths: seq<Thread>, hs: Homes, core: nat, now: nat)
    requires |ths| == |hs|
    ensures Tracks(ths, hs, ths, hs, core, now, true)
  {
  }

  lemma TrackMore(ths: seq<Thread>, hs: Homes, ths1: seq<Thread>, hs1: Homes, ths2: seq<Thread>, hs2: Homes,
                  core: nat, now: nat, stay: bool, stay': bool)
    requires Tracks(ths, hs, ths1, hs1, core, now, stay) && Tracks(ths1, hs1, ths2, hs2, core, now, stay')
    ensures Tracks(ths, hs, ths2, hs2, core, now, stay && stay')
  {
  }

  /** The homes if the threads `ts` were still in `q`. */
  ghost function Held(home: Homes, ts: seq<nat>, q: Queue): (r: Homes)
    ensures |r| == |home|
  {
    seq(|home|, t requires 0 <= t < |home| => if t in ts then Some(q) else home[t])
  }

  lemma HeldStart(qs: Queues, home: Homes, q: Queue)
    requires QueueOk(qs, home, q)
    ensures Held(Cleared(home, In(qs, q)), In(qs, q), q) == home
  {
  }

  lemma HeldNext(home: Homes, ts: seq<nat>, q: Queue, h: Option<Queue>)
    requires ts != [] && Once(ts) && ts[0] < |home|
    ensures Held(home, ts, q)[ts[0]] == Some(q) && Held(home[ts[0] := h], ts[1..], q) == Held(home, ts, q)[ts[0] := h]
  {
    Tail([], ts);
  }

  lemma HeldNone(home: Homes, q: Queue)
    ensures Held(home, [], q) == home
  {
  }

  /** Where `scheduler_wake_thread` puts a thread. */
  function Target(th: Thread, core: nat): Queue {
    if th.affinity == core then Ready(core, th.priority, th.level)
    else if th.affinity == ANY_CORE then Global(th.priority, th.level)
    else if th.affinity >= 0 then Pinned(th.affinity)
    else Pinned(0)
  }

  /** Those of the threads `s` that are woken into `q`, in order. */
  ghost function Aimed(threads: seq<Thread>, s: seq<nat>, core: nat, q: Queue): seq<nat> {
    if s == [] then [] else
    var t := s[|s| - 1];
    Aimed(threads, s[..|s| - 1], core, q) + if t < |threads| && Target(threads[t], core) == q then [t] else []
  }

  /** The threads `s` of the queue `from` have been woken one after the other, and `rest` is left
      there. */
  ghost predicate WokenInto(threads: seq<Thread>, qs: Queues, s: seq<nat>, core: nat, from: Queue, rest: seq<nat>,
                            qs': Queues) {
    forall q :: In(qs', q) == if q == from then rest else In(qs, q) + Aimed(threads, s, core, q)
  }

  lemma WokenIntoNone(threads: seq<Thread>, qs: Queues, core: nat, from: Queue, rest: seq<nat>, qs': Queues)
    requires forall q :: In(qs', q) == if q == from then rest else In(qs, q)
    ensures WokenInto(threads, qs, [], core, from, rest, qs')
  {
  }

  lemma AimedMore(threads: seq<Thread>, s: seq<nat>, i: nat, core: nat, q: Queue)
    requires i < |s| && s[i] < |threads|
    ensures Aimed(threads, s[..i + 1], core, q) ==
            Aimed(threads, s[..i], core, q) + if Target(threads[s[i]], core) == q then [s[i]] else []
  {
    hide Target;
    assert s[..i + 1][..i] == s[..i] && s[..i + 1][i] == s[i];
  }

  lemma WokenIntoNext(threads: seq<Thread>, qs: Queues, s: seq<nat>, core: nat, from: Queue, rest: seq<nat>,
                      qs1: Queues, i: nat, rest': seq<nat>, qs2: Queues)
    requires i < |s| && WokenInto(threads, qs, s[..i], core, from, rest, qs1) && s[i] < |threads|
    requires var q := Target(threads[s[i]], core);
             q != from && qs2 == qs1[from := rest'][q := In(qs1, q) + [s[i]]]
    ensures WokenInto(threads, qs, s[..i + 1], core, from, rest', qs2)
  {
    hide Target, Aimed;
    var t := Target(threads[s[i]], core);
    assert In(qs1, t) == In(qs, t) + Aimed(threads, s[..i], core, t);
    forall q ensures In(qs2, q) == if q == from then rest' else In(qs, q) + Aimed(threads, s[..i + 1], core, q) {
      AimedMore(threads, s, i, core, q);
      assert q != from ==> In(qs1, q) == In(qs, q) + Aimed(threads, s[..i], core, q);
      OneMore(qs1, from, rest', t, s[i], q, In(qs, q), Aimed(threads, s[..i], core, q));
    }
  }

  lemma OneMore(qs: Queues, from: Queue, rest: seq<nat>, to: Queue, t: nat, q: Queue, a: seq<nat>, b: seq<nat>)
    requires to != from && (q != from ==> In(qs, q) == a + b)
    ensures In(qs[from := rest][to := In(qs, to) + [t]], q) ==
            if q == from then rest else a + (b + if to == q then [t] else [])
  {
    assert (a + b) + [t] == a + (b + [t]) && a + (b + []) == a + b;
  }

  /** Where the threads are once those of `s` have been woken on `core`. */
  ghost function Woken(threads: seq<Thread>, home: Homes, s: seq<nat>, core: nat): (hs: Homes)
    requires |home| == |threads|
    ensures |hs| == |home|
  {
    seq(|home|, x requires 0 <= x < |home| => if x in s then Some(Target(threads[x], core)) else home[x])
  }

  /** The first `n` of the sleepers `s` are those whose time has come. */
  ghost predicate DueFirst(threads: seq<Thread>, s: seq<nat>, n: nat, now: nat) {
    n <= |s| && forall j :: 0 <= j < |s| ==> s[j] < |threads| && (threads[s[j]].wakeup <= now <==> j < n)
  }

  /** Waking the sleepers that are due changes nothing about who can be run. */
  lemma WokenTracks(qs: Queues, threads: seq<Thread>, home: Homes, cores: nat, core: nat, now: nat, n: nat)
    requires Inv(qs, threads, home, cores) && DueFirst(threads, In(qs, Sleeping(core)), n, now)
    ensures Tracks(threads, home, threads, Woken(threads, home, In(qs, Sleeping(core))[..n], core), core, now, true)
  {
    hide Track, Target, In;
    var s := In(qs, Sleeping(core));
    assert QueueOk(qs, home, Sleeping(core));
    TrackAll(threads, home, core, now);
    forall x | x in s[..n] ensures threads[x].wakeup <= now && home[x] == Some(Sleeping(core)) {
      var j :| 0 <= j < n && s[..n][j] == x;
      assert s[j] == x && x in s;
    }
    forall x | x in s[..n]
      ensures Track(threads[x], home[x], threads[x], Some(Target(threads[x], core)), core, now, true)
    {
      assert ThreadOk(threads[x], home[x], cores);
      WakeTrack(threads[x], home[x], core, now);
    }
  }

  /** The first `n` of the sleepers `s` have been woken, leaving `rest`, the homes `hs` and the
      queues `qs'`. */
  ghost predicate SoFar(threads: seq<Thread>, home: Homes, qs: Queues, s: seq<nat>, core: nat, now: nat, n: nat,
                        rest: seq<nat>, hs: Homes, qs': Queues)
    requires |home| == |threads|
  {
    && n <= |s| && rest == s[n..] && (forall j :: 0 <= j < |s| ==> s[j] < |threads|)
    && (forall j :: 0 <= j < n ==> threads[s[j]].wakeup <= now) && hs == Woken(threads, home, s[..n], core)
    && WokenInto(threads, qs, s[..n], core, Sleeping(core), rest, qs')
  }

  lemma SoFarNone(threads: seq<Thread>, home: Homes, qs: Queues, core: nat, now: nat)
    requires |home| == |threads|
    requires forall j :: 0 <= j < |In(qs, Sleeping(core))| ==> In(qs, Sleeping(core))[j] < |threads|
    ensures SoFar(threads, home, qs, In(qs, Sleeping(core)), core, now, 0, In(qs, Sleeping(core)), home, qs)
  {
    hide In;
    var s := In(qs, Sleeping(core));
    assert s[..0] == [] && s[0..] == s;
    assert Woken(threads, home, s[..0], core) == home;
    WokenIntoNone(threads, qs, core, Sleeping(core), s, qs);
  }

  lemma SoFarNext(threads: seq<Thread>, home: Homes, qs: Queues, s: seq<nat>, core: nat, now: nat, n: nat,
                  rest: seq<nat>, hs: Homes, qs1: Queues)
    requires |hs| == |home| == |threads| && SoFar(threads, home, qs, s, core, now, n, rest, hs, qs1)
    requires rest != [] && rest[0] < |threads| && threads[rest[0]].wakeup <= now
    ensures var q := Target(threads[rest[0]], core);
            q != Sleeping(core) &&
            SoFar(threads, home, qs, s, core, now, n + 1, rest[1..], hs[rest[0] := None][rest[0] := Some(q)],
                  qs1[Sleeping(core) := rest[1..]][q := In(qs1, q) + [rest[0]]])
  {
    hide WokenInto, In;
    var q := Target(threads[rest[0]], core);
    assert q != Sleeping(core);
    hide Target;
    assert s[..n + 1] == s[..n] + [s[n]];
    assert Woken(threads, home, s[..n + 1], core) == hs[rest[0] := None][rest[0] := Some(q)];
    WokenIntoNext(threads, qs, s, core, Sleeping(core), rest, qs1, n, rest[1..],
                  qs1[Sleeping(core) := rest[1..]][q := In(qs1, q) + [rest[0]]]);
  }

  lemma SoFarLast(threads: seq<Thread>, home: Homes, qs: Queues, s: seq<nat>, core: nat, now: nat, n: nat,
                  rest: seq<nat>, hs: Homes, qs': Queues)
    requires |home| == |threads| && SoFar(threads, home, qs, s, core, now, n, rest, hs, qs')
    requires forall x :: x in rest ==> x < |threads| && threads[x].wakeup > now
    ensures DueFirst(threads, s, n, now) && rest == s[n..] && hs == Woken(threads, home, s[..n], core)
    ensures WokenInto(threads, qs, s[..n], core, Sleeping(core), s[n..], qs')
  {
    hide WokenInto;
    forall j | n <= j < |s| ensures threads[s[j]].wakeup > now { assert s[n..][j - n] == s[j]; }
  }

  lemma Awake(th: Thread, core: nat)
    ensures !Target(th, core).Sleeping? && !Target(th, core).Deferred?
  {
  }

  lemma WakeTrack(th: Thread, h: Option<Queue>, core: nat, now: nat)
    requires h == Some(Deferred(core)) || (h == Some(Sleeping(core)) && th.wakeup <= now)
    requires th.affinity >= ANY_CORE
    ensures Track(th, h, th, Some(Target(th, core)), core, now, true)
  {
  }

  // ----- Boosting -----

  function WithLevel(q: Queue, l: nat): Queue {
    match q
    case Global(p, _) => Global(p, l)
    case Ready(c, p, _) => Ready(c, p, l)
    case _ => q
  }

  /** The queues once `from` has been emptied into the bucket of level 0. */
  function LiftedOne(qs: Queues, from: Queue, q: Queue): seq<nat> {
    if q == from then []
    else if q == WithLevel(from, 0) then In(qs, q) + In(qs, from)
    else In(qs, q)
  }

  lemma LiftTrack(th: Thread, from: Queue, core: nat, now: nat)
    requires from.Global? || from.Ready?
    ensures Track(th, Some(from), th.(level := 0, quantum := QUANTUM[0]), Some(WithLevel(from, 0)), core, now, true)
  {
  }

  lemma Apart(s: seq<nat>, i: nat)
    requires Once(s) && i < |s|
    ensures s[i] !in s[..i] && s[..i + 1] == s[..i] + [s[i]] && s[i..][0] == s[i] && s[i..][1..] == s[i + 1..]
  {
  }

  lemma OnceIn(qs: Queues, threads: seq<Thread>, home: Homes, cores: nat, q: Queue)
    requires Inv(qs, threads, home, cores)
    ensures Once(In(qs, q))
  {
    assert QueueOk(qs, home, q);
  }

  predicate Boosts(q: Queue, core: nat) {
    (q.Ready? && q.core == core) || (q.Global? && core == 0)
  }

  /** The first levels of a bucket's class, one after the other. */
  function Joined(qs: Queues, q: Queue, n: nat): seq<nat> {
    In(qs, WithLevel(q, 0)) + (if n >= 1 then In(qs, WithLevel(q, 1)) else []) +
      (if n >= 2 then In(qs, WithLevel(q, 2)) else [])
  }

  /** The queues once the classes below `p`, and the levels below `l` of class `p`, have been
      emptied into level 0. */
  function Lifted(qs: Queues, core: nat, p: nat, l: nat, q: Queue): seq<nat>
    requires l >= 1
  {
    if !Boosts(q, core) then In(qs, q)
    else
      var n := if q.p < p then 2 else if q.p == p then l - 1 else 0;
      if q.l == 0 then Joined(qs, q, n) else if q.l <= n then [] else In(qs, q)
  }

  /** A thread in a bucket above level 0 that a boost of `core` empties. */
  predicate LowHome(h: Option<Queue>, core: nat) {
    h.Some? && Boosts(h.value, core) && h.value.l > 0
  }

  /** The threads that a boost has come by, before it comes to level `l` of class `p`, are at level 0
      with a full quantum, and all others are as they were. */
  ghost predicate Raised(ths: seq<Thread>, hs: Homes, ths': seq<Thread>, core: nat, p: nat, l: nat) {
    && |ths'| == |ths| == |hs|
    && forall t :: 0 <= t < |ths| ==>
         ths'[t] == if LowHome(hs[t], core) && (hs[t].value.p < p || (hs[t].value.p == p && hs[t].value.l < l))
                    then ths[t].(level := 0, quantum := 2) else ths[t]
  }

  lemma RaisedNone(ths: seq<Thread>, hs: Homes, core: nat)
    requires |hs| == |ths|
    ensures Raised(ths, hs, ths, core, 0, 1)
  {
  }

  lemma RaisedLength(ths: seq<Thread>, hs: Homes, ths': seq<Thread>, core: nat, p: nat, l: nat)
    requires Raised(ths, hs, ths', core, p, l)
    ensures |ths'| == |ths| == |hs|
  {
  }

  /** Emptying a local bucket leaves the shared one of its level alone. */
  lemma SameGlobal(qs: Queues, core: nat, p: nat, l: nat)
    ensures LiftedOne(qs, Ready(core, p, l), Global(p, l)) == In(qs, Global(p, l))
  {
  }

  lemma RaisedStep(ths: seq<Thread>, hs: Homes, ths1: seq<Thread>, ths2: seq<Thread>, core: nat, p: nat, l: nat)
    requires Raised(ths, hs, ths1, core, p, l) && |ths2| == |ths1| && l > 0
    requires forall t :: 0 <= t < |ths1| ==>
               ths2[t] == if hs[t] == Some(Ready(core, p, l)) || (core == 0 && hs[t] == Some(Global(p, l)))
                          then ths1[t].(level := 0, quantum := 2) else ths1[t]
    ensures Raised(ths, hs, ths2, core, p, l + 1)
  {
  }

  lemma RaisedClass(qs: Queues, ths: seq<Thread>, hs: Homes, cores: nat, ths': seq<Thread>, core: nat, p: nat)
    requires Inv(qs, ths, hs, cores) && Raised(ths, hs, ths', core, p, 3)
    ensures Raised(ths, hs, ths', core, p + 1, 1)
  {
    forall t | 0 <= t < |ths| && LowHome(hs[t], core) ensures hs[t].value.l < 3 {
      assert ThreadOk(ths[t], hs[t], cores);
    }
  }

  /** Thread `t` is in a bucket above level 0 that a boost of `core` empties. */
  ghost predicate InLow(qs: Queues, core: nat, t: nat) {
    exists q :: Boosts(q, core) && q.l > 0 && t in In(qs, q)
  }

  /** What a boost makes of the threads: those it lifts get level 0 and quantum 2. */
  ghost predicate AllRaised(ths: seq<Thread>, qs: Queues, ths': seq<Thread>, core: nat) {
    && |ths'| == |ths|
    && forall t: nat :: t < |ths| ==>
         ths'[t] == if InLow(qs, core, t) then ths[t].(level := 0, quantum := 2) else ths[t]
  }

  lemma RaisedAll(qs: Queues, ths: seq<Thread>, hs: Homes, cores: nat, ths': seq<Thread>, core: nat)
    requires Inv(qs, ths, hs, cores) && Raised(ths, hs, ths', core, 3, 1)
    ensures AllRaised(ths, qs, ths', core)
  {
    hide In;
    forall t: nat | t < |ths| ensures InLow(qs, core, t) <==> LowHome(hs[t], core) && hs[t].value.p < 3 {
      assert ThreadOk(ths[t], hs[t], cores);
      if LowHome(hs[t], core) { assert QueueOk(qs, hs, hs[t].value) && t in In(qs, hs[t].value); }
      if InLow(qs, core, t) {
        var q :| Boosts(q, core) && q.l > 0 && t in In(qs, q);
        assert QueueOk(qs, hs, q);
      }
    }
  }

  /** A queue has the threads whose home it is. */
  lemma InIsHome(qs: Queues, threads: seq<Thread>, home: Homes, cores: nat, q: Queue)
    requires Inv(qs, threads, home, cores)
    ensures forall t: nat :: t in In(qs, q) <==> t < |home| && home[t] == Some(q)
  {
    assert QueueOk(qs, home, q);
  }

  /** The boost has not come to this level yet. */
  lemma NotLifted(qs: Queues, core: nat, p: nat, l: nat)
    requires 1 <= l < LEVELS
    ensures Lifted(qs, core, p, l, Ready(core, p, l)) == In(qs, Ready(core, p, l))
    ensures Lifted(qs, core, p, l, Global(p, l)) == In(qs, Global(p, l))
  {
  }

  lemma LiftedNone(qs: Queues, core: nat)
    ensures forall q :: In(qs, q) == Lifted(qs, core, 0, 1, q)
  {
  }

  lemma LiftedLevels(qs: Queues, core: nat, p: nat)
    ensures forall q :: Lifted(qs, core, p, 3, q) == Lifted(qs, core, p + 1, 1, q)
  {
  }

  /** One more level of a class. */
  lemma LiftedMore(qs: Queues, core: nat, p: nat, l: nat, q: Queue, from: Queue)
    requires 1 <= l < LEVELS && Boosts(q, core) && from == if q.Global? then Global(p, l) else Ready(core, p, l)
    ensures Lifted(qs, core, p, l + 1, q) ==
            if q == from then []
            else if q == WithLevel(from, 0) then Lifted(qs, core, p, l, q) + Lifted(qs, core, p, l, from)
            else Lifted(qs, core, p, l, q)
  {
    hide In;
  }

  lemma LiftedStep(qs: Queues, qs1: Queues, qs2: Queues, qs3: Queues, core: nat, p: nat, l: nat, q: Queue)
    requires 1 <= l < LEVELS
    requires forall r :: r in {q, Ready(core, p, l), Global(p, l)} ==>
               && In(qs1, r) == Lifted(qs, core, p, l, r) && In(qs2, r) == LiftedOne(qs1, Ready(core, p, l), r)
               && In(qs3, r) == if core == 0 then LiftedOne(qs2, Global(p, l), r) else In(qs2, r)
    ensures In(qs3, q) == Lifted(qs, core, p, l + 1, q)
  {
    var r, g := Ready(core, p, l), Global(p, l);
    assert In(qs1, r) == Lifted(qs, core, p, l, r) && In(qs1, g) == Lifted(qs, core, p, l, g) &&
           In(qs2, g) == LiftedOne(qs1, r, g);
    if Boosts(q, core) {
      LiftedMore(qs, core, p, l, q, if q.Global? then g else r);
      hide Lifted, In;
    } else {
      assert Lifted(qs, core, p, l + 1, q) == Lifted(qs, core, p, l, q);
      hide Lifted, In;
    }
  }

  lemma AtHome(qs: Queues, threads: seq<Thread>, home: Homes, cores: nat, q: Queue)
    requires Inv(qs, threads, home, cores)
    ensures forall t :: t in In(qs, q) ==> t < |threads| && ThreadOk(threads[t], Some(q), cores)
  {
    assert QueueOk(qs, home, q);
  }

  lemma SleepersOk(qs: Queues, threads: seq<Thread>, home: Homes, cores: nat, core: nat)
    requires Inv(qs, threads, home, cores)
    ensures |home| == |threads| && InOrder(threads, In(qs, Sleeping(core)))
    ensures forall j :: 0 <= j < |In(qs, Sleeping(core))| ==> In(qs, Sleeping(core))[j] < |threads|
  {
    var s := In(qs, Sleeping(core));
    assert QueueOk(qs, home, Sleeping(core));
    assert forall j :: 0 <= j < |s| ==> s[j] in s;
  }

  lemma PinnedTrack(th: Thread, q: Queue, core: nat, now: nat)
    requires q.Ready? && q.core == core
    ensures Track(th, Some(Pinned(core)), th, Some(q), core, now, true)
  {
  }

  lemma SameLength(qs: Queues, threads: seq<Thread>, home: Homes, cores: nat)
    requires Inv(qs, threads, home, cores)
    ensures |home| == |threads|
  {
  }

  lemma Affine(qs: Queues, threads: seq<Thread>, home: Homes, cores: nat, t: nat)
    requires Inv(qs, threads, home, cores) && t < |threads|
    ensures |home| == |threads| && ThreadOk(threads[t], home[t], cores)
  {
  }

  lemma TrackHeld(ths: seq<Thread>, hs: Homes, ths': seq<Thread>, hs': Homes, core: nat, now: nat, stay: bool, t: nat,
                  h: Option<Queue>)
    requires Tracks(ths, hs, ths', hs', core, now, stay) && t < |ths'| && t < |hs'| &&
             Track(ths'[t], hs'[t], ths'[t], h, core, now, stay)
    ensures Tracks(ths, hs, ths', hs'[t := h], core, now, stay)
  {
  }

  /** Threads taken off a queue and on none yet. */
  ghost predicate Between(home: Homes, ts: seq<nat>) {
    Once<nat>(ts) && forall t :: t in ts ==> t < |home| && home[t] == None
  }

  /** The first of them is put on a queue. */
  lemma HeldTrack(ths: seq<Thread>, hs: Homes, ths': seq<Thread>, home: Homes, ts: seq<nat>, q: Queue, core: nat,
                  now: nat, h: Option<Queue>)
    requires ts != [] && ts[0] < |home| && Between(home, ts) && |home| == |ths'| &&
             Tracks(ths, hs, ths', Held(home, ts, q), core, now, true)
    requires Track(ths'[ts[0]], Some(q), ths'[ts[0]], h, core, now, true)
    ensures Between(home[ts[0] := h], ts[1..]) &&
            Tracks(ths, hs, ths', Held(home[ts[0] := h], ts[1..], q), core, now, true)
  {
    hide Tracks, Track, Held, Once;
    assert ts[0] in ts;
    Tail([], ts);
    HeldNext(home, ts, q, h);
    TrackHeld(ths, hs, ths', Held(home, ts, q), core, now, true, ts[0], h);
  }

  // ----- Rebalancing -----

  predicate IsLoose(threads: seq<Thread>, t: nat) {
    t < |threads| && threads[t].affinity == ANY_CORE
  }

  /** The pinned threads of a bucket, and the others. */
  function Bound(threads: seq<Thread>, s: seq<nat>): seq<nat> {
    if s == [] then []
    else Bound(threads, s[..|s| - 1]) + if IsLoose(threads, s[|s| - 1]) then [] else [s[|s| - 1]]
  }

  function Loose(threads: seq<Thread>, s: seq<nat>): seq<nat> {
    if s == [] then []
    else Loose(threads, s[..|s| - 1]) + if IsLoose(threads, s[|s| - 1]) then [s[|s| - 1]] else []
  }

  lemma NoneBound(threads: seq<Thread>)
    ensures Bound(threads, []) == Loose(threads, []) == []
  {
  }

  lemma OneBound(threads: seq<Thread>, s: seq<nat>, t: nat)
    ensures Bound(threads, s + [t]) == Bound(threads, s) + if IsLoose(threads, t) then [] else [t]
    ensures Loose(threads, s + [t]) == Loose(threads, s) + if IsLoose(threads, t) then [t] else []
  {
    assert (s + [t])[..|s + [t]| - 1] == s;
  }

  lemma Loosen(ths: seq<Thread>, hs: Homes, ths': seq<Thread>, hs': Homes, core: nat, now: nat)
    requires Tracks(ths, hs, ths', hs', core, now, true)
    ensures Tracks(ths, hs, ths', hs', core, now, false)
  {
  }

  lemma MoveTrack(th: Thread, from: Queue, to: Queue, core: nat, now: nat)
    requires from.Global? || (from.Ready? && from.core == core)
    requires to.Global? || (to.Ready? && to.core == core)
    ensures Track(th, Some(from), th, Some(to), core, now, false)
  {
  }

  const MAX_PERCENT := 130
  const MIN_PERCENT := 70

  function ReadyTotal(qs: Queues, p: nat, l: nat, cores: nat): nat {
    if cores == 0 then |In(qs, Global(p, l))| else ReadyTotal(qs, p, l, cores - 1) + |In(qs, Ready(cores - 1, p, l))|
  }

  /** A core's fair share, rounded up. */
  function Ideal(total: nat, cores: nat): (n: nat)
    requires cores > 0
    ensures total == 0 <==> n == 0
  {
    FairShare(total, cores);
    (total + cores - 1) / cores
  }

  lemma FairShare(total: nat, cores: nat)
    requires cores > 0
    ensures (total + cores - 1) / cores >= 1 <==> total > 0
  {
    if total > 0 {
      LargeMultiple(1, cores);
      assert (total + cores - 1) / cores >= cores / cores by { assert total + cores - 1 >= cores; }
    }
  }

  lemma {:induction false} NothingReady(qs: Queues, p: nat, l: nat, cores: nat, core: nat)
    requires core < cores
    ensures |In(qs, Global(p, l))| + |In(qs, Ready(core, p, l))| <= ReadyTotal(qs, p, l, cores)
  {
    hide In;
    if core + 1 < cores {
      NothingReady(qs, p, l, cores - 1, core);
    } else {
      SharedInTotal(qs, p, l, cores - 1);
    }
  }

  lemma {:induction false} SharedInTotal(qs: Queues, p: nat, l: nat, cores: nat)
    ensures |In(qs, Global(p, l))| <= ReadyTotal(qs, p, l, cores)
  {
    if cores > 0 { SharedInTotal(qs, p, l, cores - 1); }
  }

  function Max(a: int, b: int): int { if a < b then b else a }

  function Min(a: int, b: int): int { if a < b then a else b }

  lemma {:induction false} BoundSplit(threads: seq<Thread>, s: seq<nat>)
    ensures |Bound(threads, s)| + |Loose(threads, s)| == |s|
  {
    if s != [] { BoundSplit(threads, s[..|s| - 1]); }
  }

  lemma {:induction false} LooseGrows(threads: seq<Thread>, s: seq<nat>, k: nat)
    requires k <= |s|
    ensures |Loose(threads, s[..k])| <= |Loose(threads, s)|
  {
    if k < |s| {
      LooseGrows(threads, s[..|s| - 1], k);
      assert s[..|s| - 1][..k] == s[..k];
    } else {
      assert s[..k] == s;
    }
  }

  lemma BoundCount(threads: seq<Thread>, s: seq<nat>, k: nat)
    requires k <= |s|
    ensures |s[k..] + Bound(threads, s[..k])| == |s| - |Loose(threads, s[..k])|
    ensures |Loose(threads, s[..k])| <= |Loose(threads, s)| == |s| - |Bound(threads, s)|
    ensures k == |s| ==> Loose(threads, s[..k]) == Loose(threads, s)
  {
    hide Bound, Loose;
    BoundSplit(threads, s[..k]);
    BoundSplit(threads, s);
    LooseGrows(threads, s, k);
    assert k == |s| ==> s[..k] == s;
  }

  /** The fair share is the least number that gives all their threads to the cores. */
  lemma FairIdeal(total: nat, cores: nat)
    requires cores > 0
    ensures Ideal(total, cores) * cores >= total
    ensures Ideal(total, cores) > 0 ==> (Ideal(total, cores) - 1) * cores < total
  {
    var q := (total + cores - 1) / cores;
    assert total + cores - 1 == q * cores + (total + cores - 1) % cores;
    assert (q - 1) * cores == q * cores - cores;
  }

  /** A bucket `s` gives what it has above `ideal` to the shared bucket `g`, as far as it has threads
      that are not pinned; it scans `k` of its threads, and puts the pinned ones among them at its
      end. */
  ghost predicate GivesUp(threads: seq<Thread>, s: seq<nat>, g: seq<nat>, ideal: nat, k: nat, s': seq<nat>,
                          g': seq<nat>) {
    var n := |s| - ideal;
    && k <= |s| && s' == s[k..] + Bound(threads, s[..k]) && g' == g + Loose(threads, s[..k])
    && |Loose(threads, s[..k])| <= n && (|Loose(threads, s[..k])| == n || k == |s|)
    && (k > 0 ==> |Loose(threads, s[..k - 1])| < n)
  }

  /** What rebalancing makes of a local bucket and the shared one: above 130 per cent of the fair
      share the bucket gives up what is above it, and below 70 per cent it takes what is missing. */
  ghost predicate BucketBalanced(threads: seq<Thread>, s: seq<nat>, g: seq<nat>, total: nat, cores: nat, s': seq<nat>,
                                 g': seq<nat>)
    requires cores > 0
  {
    var ideal := Ideal(total, cores);
    if |s| * 100 > ideal * 130 then exists k: nat :: GivesUp(threads, s, g, ideal, k, s', g')
    else if |s| * 100 < ideal * 70 then
      var j := Min(ideal - |s|, |g|);
      s' == s + g[..j] && g' == g[j..]
    else s' == s && g' == g
  }

  ghost predicate PairBalanced(threads: seq<Thread>, qs: Queues, qs': Queues, core: nat, cores: nat, p: nat, l: nat)
    requires cores > 0
  {
    BucketBalanced(threads, In(qs, Ready(core, p, l)), In(qs, Global(p, l)), ReadyTotal(qs, p, l, cores), cores,
                   In(qs', Ready(core, p, l)), In(qs', Global(p, l)))
  }

  /** The buckets before level `l` of class `p` have been balanced, and nothing else is changed. */
  ghost predicate BalancedTo(threads: seq<Thread>, qs: Queues, qs': Queues, core: nat, cores: nat, p: nat, l: nat)
    requires cores > 0
  {
    && (forall m: nat, k: nat :: m < 3 && k < 3 && (m < p || (m == p && k < l)) ==>
          PairBalanced(threads, qs, qs', core, cores, m, k))
    && (forall q :: !Reached(q, core, p, l) ==> In(qs', q) == In(qs, q))
  }

  /** Rebalancing has come by the bucket `q` before it comes to level `l` of class `p`. */
  predicate Reached(q: Queue, core: nat, p: nat, l: nat) {
    (q.Global? || (q.Ready? && q.core == core)) && q.p < 3 && q.l < 3 && (q.p < p || (q.p == p && q.l < l))
  }

  lemma {:induction false} TotalSame(qs: Queues, qs': Queues, p: nat, l: nat, cores: nat)
    requires In(qs', Global(p, l)) == In(qs, Global(p, l))
    requires forall c: nat :: In(qs', Ready(c, p, l)) == In(qs, Ready(c, p, l))
    ensures ReadyTotal(qs', p, l, cores) == ReadyTotal(qs, p, l, cores)
  {
    hide In;
    if cores > 0 { TotalSame(qs, qs', p, l, cores - 1); }
  }

  lemma BalancedNone(threads: seq<Thread>, qs: Queues, core: nat, cores: nat)
    requires cores > 0
    ensures BalancedTo(threads, qs, qs, core, cores, 0, 0)
  {
  }

  lemma BalancedStep(threads: seq<Thread>, qs: Queues, qs1: Queues, qs2: Queues, core: nat, cores: nat, p: nat, l: nat)
    requires cores > 0 && p < 3 && l < 3 && BalancedTo(threads, qs, qs1, core, cores, p, l)
    requires PairBalanced(threads, qs1, qs2, core, cores, p, l)
    requires forall q :: q != Ready(core, p, l) && q != Global(p, l) ==> In(qs2, q) == In(qs1, q)
    ensures BalancedTo(threads, qs, qs2, core, cores, p, l + 1)
  {
    hide In, BucketBalanced, ReadyTotal;
    assert forall c: nat :: In(qs1, Ready(c, p, l)) == In(qs, Ready(c, p, l));
    TotalSame(qs, qs1, p, l, cores);
    forall m: nat, k: nat | m < 3 && k < 3 && (m < p || (m == p && k < l + 1))
      ensures PairBalanced(threads, qs, qs2, core, cores, m, k)
    {
      if m < p || k < l { assert PairBalanced(threads, qs, qs1, core, cores, m, k); }
    }
  }

  lemma BalancedClass(threads: seq<Thread>, qs: Queues, qs': Queues, core: nat, cores: nat, p: nat)
    requires cores > 0 && BalancedTo(threads, qs, qs', core, cores, p, 3)
    ensures BalancedTo(threads, qs, qs', core, cores, p + 1, 0)
  {
    hide In, BucketBalanced, ReadyTotal;
  }

  // ----- Choosing -----

  const MIN_LOCAL := 1
  const CHECK_INTERVAL := 2
  const MAX_ADMISSIONS := 1

  /** `scheduler_priority_order`: weights 4, 2 and 1 out of 7. */
  function PriorityOrder(slot: nat): (order: seq<nat>)
    ensures |order| == 3
  {
    if slot < 4 then [HIGH, NORMAL, LOW] else if slot < 6 then [NORMAL, HIGH, LOW] else [LOW, NORMAL, HIGH]
  }

  /** The remainder of a signed counter, which C truncates towards zero, as an unsigned word. */
  function SignedSlot(n: int): nat {
    if n >= 0 then n % 7 else ToWord(-((-n) % 7))
  }

  function Bucket(core: Option<nat>, p: nat, l: nat): Queue {
    match core
    case None => Global(p, l)
    case Some(c) => Ready(c, p, l)
  }

  /** The buckets of a core, or the shared ones, in the order in which they are looked at. */
  function Buckets(core: Option<nat>, order: seq<nat>): (b: seq<Queue>)
    requires |order| == 3
    ensures |b| == 9
    ensures forall j :: 0 <= j < 9 ==> b[j] == Bucket(core, order[j / 3], j % 3)
  {
    [Bucket(core, order[0], 0), Bucket(core, order[0], 1), Bucket(core, order[0], 2),
     Bucket(core, order[1], 0), Bucket(core, order[1], 1), Bucket(core, order[1], 2),
     Bucket(core, order[2], 0), Bucket(core, order[2], 1), Bucket(core, order[2], 2)]
  }

  ghost predicate NoneShared(qs: Queues) {
    forall p, l :: In(qs, Global(p, l)) == []
  }

  ghost predicate NoneReady(qs: Queues, core: nat) {
    forall p, l :: In(qs, Ready(core, p, l)) == []
  }

  ghost predicate AllEmpty(qs: Queues, b: seq<Queue>) {
    forall j :: 0 <= j < |b| ==> In(qs, b[j]) == []
  }

  /** Only nine buckets ever have threads. */
  lemma Nine(qs: Queues, threads: seq<Thread>, home: Homes, cores: nat, core: Option<nat>, p: nat, l: nat)
    requires Inv(qs, threads, home, cores)
    ensures In(qs, Bucket(core, p, l)) != [] ==> p < 3 && l < LEVELS
  {
    var q := Bucket(core, p, l);
    if In(qs, q) != [] {
      assert QueueOk(qs, home, q) && In(qs, q)[0] in In(qs, q);
      assert ThreadOk(threads[In(qs, q)[0]], Some(q), cores);
    }
  }

  /** Where in the order a class comes. */
  function Rank(slot: nat, p: nat): (r: nat)
    requires p < 3
    ensures r < 3 && PriorityOrder(slot)[r] == p
  {
    if PriorityOrder(slot)[0] == p then 0 else if PriorityOrder(slot)[1] == p then 1 else 2
  }

  lemma AllBuckets(core: Option<nat>, slot: nat, qs: Queues, threads: seq<Thread>, home: Homes, cores: nat)
    requires Inv(qs, threads, home, cores)
    ensures core == None ==> (AllEmpty(qs, Buckets(core, PriorityOrder(slot))) <==> NoneShared(qs))
    ensures core.Some? ==> (AllEmpty(qs, Buckets(core, PriorityOrder(slot))) <==> NoneReady(qs, core.value))
  {
    var b := Buckets(core, PriorityOrder(slot));
    hide In, Inv, PriorityOrder, Buckets;
    assert forall p, l :: Bucket(None, p, l) == Global(p, l);
    assert core.Some? ==> forall p, l :: Bucket(core, p, l) == Ready(core.value, p, l);
    forall p: nat, l: nat ensures p < 3 && l < LEVELS ==> b[3 * Rank(slot, p) + l] == Bucket(core, p, l) {
      if p < 3 && l < LEVELS {
        var j := 3 * Rank(slot, p) + l;
        assert j / 3 == Rank(slot, p) && j % 3 == l;
      }
    }
    forall p: nat, l: nat ensures In(qs, Bucket(core, p, l)) != [] ==> p < 3 && l < LEVELS {
      Nine(qs, threads, home, cores, core, p, l);
    }
  }

  lemma NineReady(qs: Queues, threads: seq<Thread>, home: Homes, cores: nat, core: nat)
    requires Inv(qs, threads, home, cores)
    ensures NoneReady(qs, core) <==> forall p, l :: 0 <= p < 3 && 0 <= l < LEVELS ==> In(qs, Ready(core, p, l)) == []
  {
    hide In, Inv;
    forall p: nat, l: nat ensures In(qs, Ready(core, p, l)) != [] ==> p < 3 && l < LEVELS {
      Nine(qs, threads, home, cores, Some(core), p, l);
    }
  }

  lemma ReadyOne(qs: Queues, core: nat, q: Queue)
    requires q.Ready? && q.core == core && In(qs, q) != []
    ensures !NoneReady(qs, core)
  {
    assert q == Ready(core, q.p, q.l);
  }

  lemma AdmitTrack(th: Thread, from: Queue, to: Queue, core: nat, now: nat)
    requires from.Global? && to.Ready? && to.core == core
    ensures Track(th, Some(from), th, Some(to), core, now, true)
  {
  }

  lemma LiftedElsewhere(qs: Queues, core: nat)
    ensures forall q: Queue :: !q.Ready? && !q.Global? ==> Lifted(qs, core, 3, 1, q) == In(qs, q)
  {
  }

  // ----- The steps of a pass, exactly -----

  /** What a boost makes of the queues: every class of the core, and on core 0 every shared one, has
      its levels joined in order. */
  ghost predicate Boosted(qs: Queues, qs': Queues, core: nat) {
    && (forall p: nat :: p < 3 ==>
          && In(qs', Ready(core, p, 0)) ==
             In(qs, Ready(core, p, 0)) + In(qs, Ready(core, p, 1)) + In(qs, Ready(core, p, 2))
          && In(qs', Ready(core, p, 1)) == In(qs', Ready(core, p, 2)) == [])
    && (core == 0 ==> forall p: nat :: p < 3 ==>
          && In(qs', Global(p, 0)) == In(qs, Global(p, 0)) + In(qs, Global(p, 1)) + In(qs, Global(p, 2))
          && In(qs', Global(p, 1)) == In(qs', Global(p, 2)) == [])
    && (forall q :: !Boosts(q, core) ==> In(qs', q) == In(qs, q))
  }

  lemma BoostedIs(qs: Queues, qs': Queues, core: nat)
    requires forall q :: In(qs', q) == Lifted(qs, core, 3, 1, q)
    ensures Boosted(qs, qs', core)
  {
    hide In;
  }

  /** The class whose turn it is when a core's counter is `n`. */
  function CoreTurn(n: nat): nat {
    if n % 7 < 4 then HIGH else if n % 7 < 6 then NORMAL else LOW
  }

  /** The class whose turn it is when the shared counter, which is signed, is `n`. */
  function SharedTurn(n: int): nat {
    if n >= 0 then CoreTurn(n) else if n % 7 == 0 then HIGH else LOW
  }

  /** Class `a` is looked at before class `b` when it is the turn of `turn`. */
  predicate Prefers(turn: nat, a: nat, b: nat) {
    a != b && b != turn && (a == turn || a == if turn == NORMAL then HIGH else NORMAL)
  }

  /** Bucket `q` of a core, or of the shared ones, has threads; the classes that are looked at
      before its class have none, nor have the levels of its class before its level. */
  ghost predicate FirstIn(qs: Queues, where: Option<nat>, turn: nat, q: Queue) {
    && (q.Ready? || q.Global?) && q == Bucket(where, q.p, q.l) && q.p < 3 && q.l < LEVELS && In(qs, q) != []
    && (forall p: nat, l: nat :: p < 3 && l < LEVELS && Prefers(turn, p, q.p) ==> In(qs, Bucket(where, p, l)) == [])
    && (forall l: nat :: l < q.l ==> In(qs, Bucket(where, q.p, l)) == [])
  }

  lemma FirstInOrder(qs: Queues, where: Option<nat>, slot: nat, i: nat)
    requires i < 9 && In(qs, Buckets(where, PriorityOrder(slot))[i]) != []
    requires forall j :: 0 <= j < i ==> In(qs, Buckets(where, PriorityOrder(slot))[j]) == []
    ensures FirstIn(qs, where, if slot < 4 then HIGH else if slot < 6 then NORMAL else LOW,
                    Buckets(where, PriorityOrder(slot))[i])
  {
    hide In, Buckets;
    var order := PriorityOrder(slot);
    var b := Buckets(where, order);
    var q := b[i];
    assert q == Bucket(where, order[i / 3], i % 3);
    forall l: nat | l < q.l ensures In(qs, Bucket(where, q.p, l)) == [] {
      var j := i / 3 * 3 + l;
      assert j / 3 == i / 3 && j % 3 == l && b[j] == Bucket(where, order[j / 3], j % 3);
    }
    var turn := if slot < 4 then HIGH else if slot < 6 then NORMAL else LOW;
    forall p: nat, l: nat | p < 3 && l < LEVELS && Prefers(turn, p, q.p) ensures In(qs, Bucket(where, p, l)) == [] {
      var k := Rank(slot, p);
      assert k < i / 3;
      var j := k * 3 + l;
      assert j / 3 == k && j % 3 == l && b[j] == Bucket(where, order[j / 3], j % 3);
    }
  }

  lemma TurnOfSlot(n: int)
    requires InRange(Int, n)
    ensures var slot := SignedSlot(n); SharedTurn(n) == if slot < 4 then HIGH else if slot < 6 then NORMAL else LOW
  {
    if n < 0 { NegativeSlot(n); }
  }

  /** The first shared thread, if there is one, goes to the end of its bucket on the core. */
  ghost predicate AdmitsOne(qs: Queues, core: nat, turn: nat, qs': Queues) {
    if NoneShared(qs) then qs' == qs else exists q :: FirstIn(qs, None, turn, q) && Brought(qs, core, q, qs')
  }

  ghost predicate Brought(qs: Queues, core: nat, q: Queue, qs': Queues) {
    && q.Global? && In(qs, q) != []
    && qs' == qs[q := In(qs, q)[1..]][Ready(core, q.p, q.l) := In(qs, Ready(core, q.p, q.l)) + [In(qs, q)[0]]]
  }

  /** A core whose counter is `n` brings in a shared thread if it has none ready, and else every
      second time. */
  ghost predicate Admits(qs: Queues, core: nat, n: nat, shared: int, qs': Queues, shared': int) {
    if NoneReady(qs, core) || n % 2 == 0
    then AdmitsOne(qs, core, SharedTurn(shared), qs') &&
         shared' == (if shared == 0x7FFF_FFFF then -0x8000_0000 else shared + 1)
    else qs' == qs && shared' == shared
  }

  /** The core takes the first of its ready threads, if there is one. */
  ghost predicate Chooses(qs: Queues, core: nat, n: nat, next: Option<nat>, qs': Queues) {
    if NoneReady(qs, core) then next == None && qs' == qs
    else exists q :: FirstIn(qs, Some(core), CoreTurn(n), q) && TookFirst(qs, q, next, qs')
  }

  ghost predicate TookFirst(qs: Queues, q: Queue, next: Option<nat>, qs': Queues) {
    In(qs, q) != [] && next == Some(In(qs, q)[0]) && qs' == qs[q := In(qs, q)[1..]]
  }

  lemma ChoosesIs(qs: Queues, ths: seq<Thread>, hs: Homes, cores: nat, core: nat, n: nat, next: Option<nat>, i: nat,
                  qs': Queues)
    requires Inv(qs, ths, hs, cores)
    requires var b := Buckets(Some(core), PriorityOrder(n % 7));
             && i <= 9 && (next == None <==> i == 9) && (forall j :: 0 <= j < i ==> In(qs, b[j]) == [])
             && (next == None ==> qs' == qs)
             && (next.Some? ==>
                   In(qs, b[i]) != [] && next.value == In(qs, b[i])[0] && qs' == qs[b[i] := In(qs, b[i])[1..]])
    ensures Chooses(qs, core, n, next, qs')
  {
    hide Inv, In, Buckets, PriorityOrder, FirstIn;
    AllBuckets(Some(core), n % 7, qs, ths, hs, cores);
    if next.Some? {
      FirstInOrder(qs, Some(core), n % 7, i);
      assert TookFirst(qs, Buckets(Some(core), PriorityOrder(n % 7))[i], next, qs');
      hide NoneReady;
    }
  }

  // ----- A pass -----

  /** The core has a ready thread of priority `p`. */
  ghost predicate ClassReady(ths: seq<Thread>, hs: Homes, core: nat, p: nat) {
    exists t: nat :: t < |ths| && t < |hs| && InReady(hs[t], core) && ths[t].priority == p
  }

  lemma StaysReady(ths: seq<Thread>, hs: Homes, ths': seq<Thread>, hs': Homes, core: nat, now: nat)
    requires Tracks(ths, hs, ths', hs', core, now, true)
    ensures forall p :: ClassReady(ths, hs, core, p) ==> ClassReady(ths', hs', core, p)
  {
    forall p: nat | ClassReady(ths, hs, core, p) ensures ClassReady(ths', hs', core, p) {
      var t: nat :| t < |ths| && t < |hs| && InReady(hs[t], core) && ths[t].priority == p;
      assert Track(ths[t], hs[t], ths'[t], hs'[t], core, now, true);
    }
  }

  lemma ReadyBucket(qs: Queues, ths: seq<Thread>, hs: Homes, cores: nat, core: nat, p: nat)
    requires Inv(qs, ths, hs, cores)
    ensures ClassReady(ths, hs, core, p) <==> exists l: nat :: In(qs, Ready(core, p, l)) != []
  {
    if ClassReady(ths, hs, core, p) {
      var t: nat :| t < |ths| && t < |hs| && InReady(hs[t], core) && ths[t].priority == p;
      assert ThreadOk(ths[t], hs[t], cores) && QueueOk(qs, hs, hs[t].value);
      assert hs[t].value == Ready(core, p, ths[t].level) && t in In(qs, hs[t].value);
    }
    forall l: nat | In(qs, Ready(core, p, l)) != [] ensures ClassReady(ths, hs, core, p) {
      var q := Ready(core, p, l);
      var t := In(qs, q)[0];
      assert QueueOk(qs, hs, q) && t in In(qs, q);
      assert ThreadOk(ths[t], hs[t], cores) && InReady(hs[t], core);
    }
  }

  /** Buckets that keep a thread keep their classes ready. */
  lemma BucketsReady(qs: Queues, ths: seq<Thread>, hs: Homes, qs': Queues, ths': seq<Thread>, hs': Homes, cores: nat,
                     core: nat)
    requires Inv(qs, ths, hs, cores) && Inv(qs', ths', hs', cores)
    requires forall p, l :: In(qs, Ready(core, p, l)) != [] ==> In(qs', Ready(core, p, l)) != []
    ensures forall p :: ClassReady(ths, hs, core, p) ==> ClassReady(ths', hs', core, p)
  {
    hide Inv, In, ClassReady;
    forall p: nat | ClassReady(ths, hs, core, p) ensures ClassReady(ths', hs', core, p) {
      ReadyBucket(qs, ths, hs, cores, core, p);
      ReadyBucket(qs', ths', hs', cores, core, p);
    }
  }

  lemma StillAsleep(ths: seq<Thread>, hs: Homes, ths': seq<Thread>, hs': Homes, core: nat, now: nat, s: seq<nat>)
    requires Tracks(ths, hs, ths', hs', core, now, true) && forall x :: x in s ==> x < |ths| && ths[x].wakeup > now
    ensures forall x :: x in s ==> x < |ths'| && ths'[x].wakeup > now
  {
  }

  /** Nothing is left for the core to wake, and if nothing is ready then nothing is shared. */
  ghost predicate Settled(qs: Queues, threads: seq<Thread>, core: nat, now: nat) {
    && In(qs, Deferred(core)) == [] && In(qs, Pinned(core)) == []
    && (forall x :: x in In(qs, Sleeping(core)) ==> x < |threads| && threads[x].wakeup > now)
    && (NoneReady(qs, core) ==> NoneShared(qs))
  }

  lemma NextRuns(qs: Queues, ths: seq<Thread>, hs: Homes, cores: nat, core: nat, now: nat, slot: nat, i: nat)
    requires Inv(qs, ths, hs, cores) && i < 9 && In(qs, Buckets(Some(core), PriorityOrder(slot))[i]) != []
    ensures var q := Buckets(Some(core), PriorityOrder(slot))[i]; var t := In(qs, q)[0];
            && t < |ths| == |hs| && hs[t] == Some(q) && Allows(ths[t], core) &&
              ths[t].priority == PriorityOrder(slot)[i / 3]
            && Runnable(ths[t], hs[t], core, now)
  {
    hide Buckets, PriorityOrder;
    var q := Buckets(Some(core), PriorityOrder(slot))[i];
    assert q == Bucket(Some(core), PriorityOrder(slot)[i / 3], i % 3);
    assert QueueOk(qs, hs, q) && In(qs, q)[0] in In(qs, q);
    assert ThreadOk(ths[In(qs, q)[0]], Some(q), cores);
  }

  lemma NothingRuns(qs: Queues, ths: seq<Thread>, hs: Homes, cores: nat, core: nat, now: nat, t: nat)
    requires Inv(qs, ths, hs, cores) && Settled(qs, ths, core, now) && NoneReady(qs, core) && t < |ths|
    ensures |hs| == |ths| && !Runnable(ths[t], hs[t], core, now)
  {
    hide In, Once;
    if hs[t].Some? {
      assert QueueOk(qs, hs, hs[t].value);
    }
  }

  lemma FirstClass(qs: Queues, ths: seq<Thread>, hs: Homes, cores: nat, core: nat, slot: nat, t: nat, i: nat)
    requires Inv(qs, ths, hs, cores) && t < |ths| == |hs| && InReady(hs[t], core) &&
             ths[t].priority == PriorityOrder(slot)[0]
    requires i <= 9 && forall j :: 0 <= j < i ==> In(qs, Buckets(Some(core), PriorityOrder(slot))[j]) == []
    ensures i < 3
  {
    hide Buckets, PriorityOrder;
    var l := ths[t].level;
    assert ThreadOk(ths[t], hs[t], cores);
    assert QueueOk(qs, hs, hs[t].value) && t in In(qs, hs[t].value);
    assert Buckets(Some(core), PriorityOrder(slot))[l] == Bucket(Some(core), PriorityOrder(slot)[l / 3], l % 3) ==
           hs[t].value;
  }

  lemma Chosen(ths: seq<Thread>, hs: Homes, qs: Queues, ths': seq<Thread>, hs': Homes, cores: nat, core: nat, now: nat,
               slot: nat, next: Option<nat>, i: nat)
    requires Inv(qs, ths', hs', cores) && Tracks(ths, hs, ths', hs', core, now, false) && Settled(qs, ths', core, now)
    requires var b := Buckets(Some(core), PriorityOrder(slot));
             && i <= |b| && (next == None <==> i == |b|) && (forall j :: 0 <= j < i ==> In(qs, b[j]) == [])
             && (next.Some? ==> In(qs, b[i]) != [] && next.value == In(qs, b[i])[0])
    ensures |ths'| == |ths| == |hs'| == |hs|
    ensures forall t: nat :: t < |ths| ==>
            (hs'[t].Some? <==> hs[t].Some?) && ths'[t].priority == ths[t].priority &&
            ths'[t].affinity == ths[t].affinity
    ensures next == None <==> forall t: nat :: t < |ths| ==> !Runnable(ths[t], hs[t], core, now)
    ensures next.Some? ==>
            0 <= next.value < |ths| && Allows(ths'[next.value], core) &&
            Runnable(ths[next.value], hs[next.value], core, now)
    ensures ClassReady(ths', hs', core, PriorityOrder(slot)[0]) ==>
            next.Some? && ths'[next.value].priority == PriorityOrder(slot)[0]
  {
    hide Inv, In, Buckets, PriorityOrder, NoneReady, NoneShared, Runnable;
    AllBuckets(Some(core), slot, qs, ths', hs', cores);
    if next.Some? {
      NextRuns(qs, ths', hs', cores, core, now, slot, i);
      assert Track(ths[next.value], hs[next.value], ths'[next.value], hs'[next.value], core, now, false);
    } else {
      forall t: nat | t < |ths| ensures !Runnable(ths[t], hs[t], core, now) {
        NothingRuns(qs, ths', hs', cores, core, now, t);
        assert Track(ths[t], hs[t], ths'[t], hs'[t], core, now, false);
      }
    }
    forall t: nat | t < |ths'| && InReady(hs'[t], core) && ths'[t].priority == PriorityOrder(slot)[0]
      ensures next.Some? && ths'[next.value].priority == PriorityOrder(slot)[0]
    {
      FirstClass(qs, ths', hs', cores, core, slot, t, i);
    }
  }

  // ----- Weights -----

  function One(p: nat, q: nat): nat {
    if p == q then 1 else 0
  }

  /** How many of seven turns are those of class `p`. */
  function Times(p: nat, s: seq<nat>): nat
    requires |s| == 7
  {
    One(p, s[0]) + One(p, s[1]) + One(p, s[2]) + One(p, s[3]) + One(p, s[4]) + One(p, s[5]) + One(p, s[6])
  }

  ghost predicate Weighted(s: seq<nat>)
    requires |s| == 7
  {
    Times(HIGH, s) == 4 && Times(NORMAL, s) == 2 && Times(LOW, s) == 1
  }

  function Residue(n: int): (r: nat)
    ensures r < 7
  {
    n % 7
  }

  function Slot(n: nat): (r: nat)
    ensures r < 7
  {
    Residue(n % MODULUS)
  }

  /** The class whose turn it is on a core whose counter is `n`. */
  function Turn(n: nat): nat {
    PriorityOrder(Slot(n))[0]
  }

  lemma NextResidue(n: int)
    ensures Residue(n + 1) == if Residue(n) == 6 then 0 else Residue(n) + 1
  {
  }

  lemma NextSlot(n: nat)
    requires n < 2 * MODULUS - 1
    ensures Slot(n + 1) == if n + 1 == MODULUS || Slot(n) == 6 then 0 else Slot(n) + 1
    ensures n + 1 == MODULUS ==> Slot(n) == 3
  {
    var m := if n < MODULUS then n else n - MODULUS;
    assert n % MODULUS == m && (n + 1) % MODULUS == if m + 1 == MODULUS then 0 else m + 1;
    NextResidue(m);
  }

  /** Of seven picks in a row, four are for high, two for normal and one for low priority, if and
      only if the counter does not wrap in between. */
  lemma SevenPicks(n: nat)
    requires n < MODULUS
    ensures Weighted([Turn(n), Turn(n + 1), Turn(n + 2), Turn(n + 3), Turn(n + 4), Turn(n + 5), Turn(n + 6)]) <==>
            n + 7 <= MODULUS
  {
    hide Slot;
    NextSlot(n);
    NextSlot(n + 1);
    NextSlot(n + 2);
    NextSlot(n + 3);
    NextSlot(n + 4);
    NextSlot(n + 5);
  }

  /** The class whose turn it is in the shared buckets when the counter, a signed word, has been
      counted up to `n`. */
  function AdmissionTurn(n: int): nat {
    PriorityOrder(SignedSlot(Wrap(Int, n)))[0]
  }

  lemma AdmissionIs(n: int)
    requires -0x8000_0000 <= n < 0x8000_0000 + 7
    ensures var m := if n < 0x8000_0000 then n else n - MODULUS;
            AdmissionTurn(n) == if m < 0 && Residue(m) != 0 then LOW else PriorityOrder(Residue(m))[0]
    ensures Residue(n + 1) == if Residue(n) == 6 then 0 else Residue(n) + 1
    ensures n >= 0x8000_0000 ==> Residue(n - MODULUS) == if Residue(n) < 4 then Residue(n) + 3 else Residue(n) - 4
    ensures n == 0 ==> Residue(n) == 0
    ensures n == 0x8000_0000 ==> Residue(n) == 2
  {
    NextResidue(n);
    var m := if n < 0x8000_0000 then n else n - MODULUS;
    assert Wrap(Int, n) == m;
    if m < 0 { NegativeSlot(m); }
  }

  lemma NegativeSlot(m: int)
    requires -0x8000_0000 <= m < 0
    ensures if Residue(m) == 0 then SignedSlot(m) == 0 else SignedSlot(m) >= 7
  {
  }

  /** The weights hold in the shared buckets until the counter becomes negative. */
  lemma SevenAdmissions(n: int)
    requires InRange(Int, n)
    ensures Weighted([AdmissionTurn(n), AdmissionTurn(n + 1), AdmissionTurn(n + 2), AdmissionTurn(n + 3),
                      AdmissionTurn(n + 4),
                      AdmissionTurn(n + 5), AdmissionTurn(n + 6)]) <==>
            -1 <= n && n + 7 <= 0x8000_0000
  {
    hide AdmissionTurn, Residue;
    AdmissionIs(n);
    AdmissionIs(n + 1);
    AdmissionIs(n + 2);
    AdmissionIs(n + 3);
    AdmissionIs(n + 4);
    AdmissionIs(n + 5);
    AdmissionIs(n + 6);
  }

  /** From then on six of seven admissions are for low priority, and none for normal. */
  lemma LateAdmissions(n: int)
    requires InRange(Int, n) && n + 7 <= 0
    ensures var s :=
            [AdmissionTurn(n), AdmissionTurn(n + 1), AdmissionTurn(n + 2), AdmissionTurn(n + 3), AdmissionTurn(n + 4),
                      AdmissionTurn(n + 5), AdmissionTurn(n + 6)];
            Times(LOW, s) == 6 && Times(NORMAL, s) == 0 && Times(HIGH, s) == 1
  {
    hide AdmissionTurn, Residue;
    AdmissionIs(n);
    AdmissionIs(n + 1);
    AdmissionIs(n + 2);
    AdmissionIs(n + 3);
    AdmissionIs(n + 4);
    AdmissionIs(n + 5);
    AdmissionIs(n + 6);
  }

  // ----- Passes -----

  /** What a pass is stated about: the threads, where they are, and the cores' counters. */
  datatype Snapshot = Snapshot(threads: seq<Thread>, home: Homes, iters: seq<nat>)

  /** Everything that a pass can change. */
  datatype Machine = Machine(queues: Queues, threads: seq<Thread>, home: Homes, iters: seq<nat>, boost: seq<bool>,
                             rebalance: seq<bool>, admissions: int)

  /** The queues on the way: without deferred threads, without the `due` first sleepers, with all
      threads woken, rebalanced, boosted, and with a shared thread brought in. */
  datatype Trace = Trace(deferred: Queues, due: nat, slept: Queues, woken: Queues, balanced: Queues, boosted: Queues,
                         ready: Queues)

  /** Deferred threads, sleepers that are due and threads woken by others, in this order. */
  ghost predicate WakesAll(threads: seq<Thread>, qs: Queues, core: nat, now: nat, deferred: Queues, due: nat,
                           slept: Queues, woken: Queues) {
    var s := In(deferred, Sleeping(core));
    && WokenInto(threads, qs, In(qs, Deferred(core)), core, Deferred(core), [], deferred)
    && DueFirst(threads, s, due, now)
    && WokenInto(threads, deferred, s[..due], core, Sleeping(core), s[due..], slept)
    && WokenInto(threads, slept, In(slept, Pinned(core)), core, Pinned(core), [], woken)
  }

  /** The pass from `a` up to the choice: waking, rebalancing and boosting if they are pending, and
      admission, in this order. */
  ghost predicate Prepared(a: Machine, core: nat, cores: nat, now: nat, tr: Trace, b: Machine) {
    && 0 < cores == |a.boost| == |a.rebalance| == |a.iters| && core < cores
    && WakesAll(a.threads, a.queues, core, now, tr.deferred, tr.due, tr.slept, tr.woken)
    && (if a.rebalance[core] then BalancedTo(a.threads, tr.woken, tr.balanced, core, cores, 3, 0)
        else tr.balanced == tr.woken)
    && (if a.boost[core] then Boosted(tr.balanced, tr.boosted, core) else tr.boosted == tr.balanced)
    && (if a.boost[core] then AllRaised(a.threads, tr.balanced, b.threads, core) else b.threads == a.threads)
    && Admits(tr.boosted, core, a.iters[core], a.admissions, tr.ready, b.admissions)
    && b.boost == a.boost[core := false] && b.rebalance == a.rebalance[core := false]
  }

  /** The whole pass, which picks `next`. */
  ghost predicate Passes(a: Machine, core: nat, cores: nat, now: nat, tr: Trace, next: Option<nat>, b: Machine) {
    && Prepared(a, core, cores, now, tr, b) && Chooses(tr.ready, core, a.iters[core], next, b.queues)
    && b.iters == a.iters[core := (a.iters[core] + 1) % MODULUS]
  }

  /** After a pass with a boost pending the core has no thread above level 0 but one that it may just
      have brought in from the shared buckets; core 0, which boosts these as well, has none, and
      leaves none there. */
  lemma BoostedPass(a: Machine, core: nat, cores: nat, now: nat, tr: Trace, next: Option<nat>, b: Machine, p: nat,
                    l: nat)
    requires Passes(a, core, cores, now, tr, next, b) && a.boost[core] && p < 3 && 0 < l < LEVELS
    ensures core == 0 ==> In(b.queues, Ready(0, p, l)) == [] && In(b.queues, Global(p, l)) == []
    ensures In(b.queues, Ready(core, p, l)) == [] ||
            (core != 0 && In(tr.boosted, Global(p, l)) != [] &&
             In(b.queues, Ready(core, p, l)) == [In(tr.boosted, Global(p, l))[0]])
  {
    hide WakesAll, BalancedTo, AllRaised, NoneReady, NoneShared, SharedTurn, CoreTurn, Prefers;
    assert In(tr.boosted, Ready(core, p, l)) == [] && (core == 0 ==> In(tr.boosted, Global(p, l)) == []);
    BringsOne(tr.boosted, core, a.iters[core], a.admissions, tr.ready, b.admissions, p, l);
    TakesOne(tr.ready, core, a.iters[core], next, b.queues, p, l);
  }

  lemma BringsOne(qs: Queues, core: nat, n: nat, shared: int, qs': Queues, shared': int, p: nat, l: nat)
    requires Admits(qs, core, n, shared, qs', shared')
    ensures In(qs', Ready(core, p, l)) == In(qs, Ready(core, p, l)) ||
            (In(qs, Global(p, l)) != [] &&
             In(qs', Ready(core, p, l)) == In(qs, Ready(core, p, l)) + [In(qs, Global(p, l))[0]])
    ensures In(qs, Global(p, l)) == [] ==> In(qs', Global(p, l)) == []
  {
    hide NoneReady, NoneShared, SharedTurn, FirstIn;
    if qs' != qs {
      var turn := SharedTurn(shared);
      var q :| FirstIn(qs, None, turn, q) && Brought(qs, core, q, qs');
      assert q == Global(q.p, q.l);
    }
  }

  lemma TakesOne(qs: Queues, core: nat, n: nat, next: Option<nat>, qs': Queues, p: nat, l: nat)
    requires Chooses(qs, core, n, next, qs')
    ensures In(qs', Ready(core, p, l)) == In(qs, Ready(core, p, l)) ||
            (In(qs, Ready(core, p, l)) != [] && In(qs', Ready(core, p, l)) == In(qs, Ready(core, p, l))[1..])
    ensures In(qs', Global(p, l)) == In(qs, Global(p, l))
  {
    hide NoneReady, CoreTurn, Prefers;
    if qs' != qs {
      var q :| FirstIn(qs, Some(core), CoreTurn(n), q) && TookFirst(qs, q, next, qs');
    }
  }

  /** One pass of core `core` at time `now`, from `a` to `b`, which picks `next`. */
  ghost predicate Passed(a: Snapshot, core: nat, now: nat, next: Option<nat>, b: Snapshot) {
    && |a.threads| == |a.home| == |b.threads| == |b.home| && core < |a.iters|
    && (forall t: nat :: t < |a.threads| ==> Picked(a, next, b, t))
    && (next == None <==> forall t: nat :: t < |a.threads| ==> !Runnable(a.threads[t], a.home[t], core, now))
    && (next.Some? ==>
          && 0 <= next.value < |a.threads| && Allows(a.threads[next.value], core)
          && Runnable(a.threads[next.value], a.home[next.value], core, now))
    && (ClassReady(a.threads, a.home, core, Turn(a.iters[core])) ==>
        next.Some? && a.threads[next.value].priority == Turn(a.iters[core]))
    && b.iters == a.iters[core := (a.iters[core] + 1) % MODULUS]
  }

  /** Thread `t` stays queued unless it is the one picked, and keeps its priority and affinity. */
  ghost predicate Picked(a: Snapshot, next: Option<nat>, b: Snapshot, t: nat)
    requires |a.threads| == |a.home| == |b.threads| == |b.home|
  {
    t < |a.threads| ==>
      && (b.home[t].Some? <==> a.home[t].Some? && next != Some(t))
      && b.threads[t].priority == a.threads[t].priority && b.threads[t].affinity == a.threads[t].affinity
  }

  /** Pass `i` of a history goes from `before[i]` to `after[i]`; between passes anything may happen
      but to the core's own counter. */
  datatype History = History(core: nat, before: seq<Snapshot>, times: seq<nat>, next: seq<Option<nat>>,
                             after: seq<Snapshot>)

  ghost predicate Consecutive(h: History) {
    && |h.before| == |h.times| == |h.next| == |h.after| == 7
    && (forall i :: 0 <= i < 7 ==> Passed(h.before[i], h.core, h.times[i], h.next[i], h.after[i]))
    && (forall i :: 0 <= i < 6 ==> h.core < |h.after[i].iters| && h.core < |h.before[i + 1].iters| &&
                                   h.before[i + 1].iters[h.core] == h.after[i].iters[h.core])
  }

  /** Before each pass every class has a ready thread on the core. */
  ghost predicate AllReady(h: History) {
    forall i, p: nat :: 0 <= i < |h.before| && p < 3 ==> ClassReady(h.before[i].threads, h.before[i].home, h.core, p)
  }

  lemma PassTurns(a: Snapshot, core: nat, now: nat, next: Option<nat>, b: Snapshot)
    requires Passed(a, core, now, next, b)
    ensures core < |a.iters| == |b.iters| && b.iters[core] == (a.iters[core] + 1) % MODULUS
    ensures ClassReady(a.threads, a.home, core, Turn(a.iters[core])) ==>
              next.Some? && 0 <= next.value < |a.threads| && a.threads[next.value].priority == Turn(a.iters[core])
  {
    hide ClassReady, Runnable, Turn;
  }

  lemma NextCount(n: nat, i: nat)
    ensures ((n + i) % MODULUS + 1) % MODULUS == (n + (i + 1)) % MODULUS
  {
  }

  lemma {:induction false} CounterAt(h: History, n: nat, i: nat)
    requires Consecutive(h) && n < MODULUS && i < 7
    requires h.core < |h.before[0].iters| && n == h.before[0].iters[h.core]
    ensures h.core < |h.before[i].iters| && h.before[i].iters[h.core] == (n + i) % MODULUS
  {
    hide Passed;
    if i > 0 {
      CounterAt(h, n, i - 1);
      PassTurns(h.before[i - 1], h.core, h.times[i - 1], h.next[i - 1], h.after[i - 1]);
      NextCount(n, i - 1);
    }
  }

  lemma ServesTurn(h: History, n: nat, i: nat)
    requires Consecutive(h) && AllReady(h) && n < MODULUS && i < 7
    requires h.core < |h.before[0].iters| && n == h.before[0].iters[h.core]
    ensures Served(h, i) == Turn(n + i)
  {
    hide Passed, ClassReady, Turn;
    CounterAt(h, n, i);
    PassTurns(h.before[i], h.core, h.times[i], h.next[i], h.after[i]);
    TurnWraps(n + i);
    ClassOfTurn(n + i);
    assert ClassReady(h.before[i].threads, h.before[i].home, h.core, Turn(n + i));
  }

  lemma TurnWraps(n: nat)
    ensures Turn(n % MODULUS) == Turn(n)
  {
  }

  lemma ClassOfTurn(n: nat)
    ensures Turn(n) < 3
  {
  }

  /** The priority of the thread that pass `i` has picked. */
  ghost function Served(h: History, i: nat): nat {
    if i < |h.next| && i < |h.before| && h.next[i].Some? && 0 <= h.next[i].value < |h.before[i].threads|
    then h.before[i].threads[h.next[i].value].priority else 3
  }

  ghost function ServedAll(h: History): seq<nat> {
    [Served(h, 0), Served(h, 1), Served(h, 2), Served(h, 3), Served(h, 4), Served(h, 5), Served(h, 6)]
  }

  /** The counter of the core before the first pass. */
  ghost function Counter(h: History): nat {
    if |h.before| > 0 && h.core < |h.before[0].iters| then h.before[0].iters[h.core] else 0
  }

  lemma FirstCounter(h: History)
    requires Consecutive(h)
    ensures |h.before| == 7 && h.core < |h.before[0].iters| && Counter(h) == h.before[0].iters[h.core]
  {
    hide Passed;
    PassTurns(h.before[0], h.core, h.times[0], h.next[0], h.after[0]);
  }

  /** Seven passes in a row of a core on which every class is ready serve four threads of high, two
      of normal and one of low priority, if and only if the counter does not wrap in between. */
  lemma SevenPasses(h: History)
    requires Consecutive(h) && AllReady(h) && Counter(h) < MODULUS
    ensures Weighted(ServedAll(h)) <==> Counter(h) + 7 <= MODULUS
  {
    hide Turn, Weighted, Consecutive, AllReady, Served, Counter;
    var n := Counter(h);
    FirstCounter(h);
    ServesTurn(h, n, 0);
    ServesTurn(h, n, 1);
    ServesTurn(h, n, 2);
    ServesTurn(h, n, 3);
    ServesTurn(h, n, 4);
    ServesTurn(h, n, 5);
    ServesTurn(h, n, 6);
    SevenPicks(n);
  }

  // ----- A counter that wraps -----

  /** One ready thread of each class on core 0, whose counter is `n`. */
  function Triple(n: nat): Snapshot {
    Snapshot([Thread(HIGH, 0, 2, 0, 0), Thread(NORMAL, 0, 2, 0, 0), Thread(LOW, 0, 2, 0, 0)],
             [Some(Ready(0, HIGH, 0)), Some(Ready(0, NORMAL, 0)), Some(Ready(0, LOW, 0))], [n])
  }

  /** The thread of class `p` there. */
  function Member(p: nat): nat {
    if p == HIGH then 0 else if p == NORMAL then 1 else 2
  }

  lemma TripleReady(n: nat, p: nat)
    requires p < 3
    ensures ClassReady(Triple(n).threads, Triple(n).home, 0, p)
  {
    var a := Triple(n);
    assert Member(p) < |a.threads| && InReady(a.home[Member(p)], 0) && a.threads[Member(p)].priority == p;
  }

  function TriplePassed(n: nat): Snapshot {
    var a, t := Triple(n), Member(Turn(n));
    Snapshot(a.threads, a.home[t := None], [(n + 1) % MODULUS])
  }

  lemma TriplePass(n: nat)
    ensures Passed(Triple(n), 0, 0, Some(Member(Turn(n))), TriplePassed(n))
  {
    hide Turn;
    ClassOfTurn(n);
    var a := Triple(n);
    assert Runnable(a.threads[Member(Turn(n))], a.home[Member(Turn(n))], 0, 0);
  }

  /** Seven passes, of which the first has the counter at its greatest value. */
  function AcrossTheWrap(): History {
    History(0, seq(7, i requires 0 <= i => Triple((MODULUS - 1 + i) % MODULUS)), seq(7, _ => 0),
            seq(7, i requires 0 <= i => Some(Member(Turn((MODULUS - 1 + i) % MODULUS)))),
            seq(7, i requires 0 <= i => TriplePassed((MODULUS - 1 + i) % MODULUS)))
  }

  lemma WrapShape()
    ensures var h := AcrossTheWrap();
            h.core == 0 && |h.before| == |h.times| == |h.next| == |h.after| == 7
  {
    hide Triple, TriplePassed, Turn, Member;
  }

  /** Pass `i` of these. */
  lemma WrapPass(i: nat)
    requires i < 7
    ensures var h := AcrossTheWrap();
            && h.core == 0 && |h.before| == |h.times| == |h.next| == |h.after| == 7
            && Passed(h.before[i], 0, h.times[i], h.next[i], h.after[i])
            && h.before[i].iters == [(MODULUS - 1 + i) % MODULUS]
            && h.after[i].iters == [((MODULUS - 1 + i) % MODULUS + 1) % MODULUS]
            && forall p: nat :: p < 3 ==> ClassReady(h.before[i].threads, h.before[i].home, 0, p)
  {
    hide Passed, ClassReady, Turn, Member, Triple, TriplePassed;
    var n := (MODULUS - 1 + i) % MODULUS;
    var a := Triple(n);
    TriplePass(n);
    TripleCounts(n);
    forall p: nat | p < 3 ensures ClassReady(a.threads, a.home, 0, p) { TripleReady(n, p); }
  }

  /** Where the counter wraps, seven passes do not have the weights. */
  lemma UnevenPasses()
    ensures var h := AcrossTheWrap();
            Consecutive(h) && AllReady(h) && Counter(h) == MODULUS - 1 && !Weighted(ServedAll(h))
  {
    hide Passed, ClassReady, Weighted, Served, AcrossTheWrap;
    var h := AcrossTheWrap();
    WrapShape();
    forall i | 0 <= i < 7
      ensures Passed(h.before[i], h.core, h.times[i], h.next[i], h.after[i])
      ensures h.before[i].iters == [(MODULUS - 1 + i) % MODULUS]
      ensures h.after[i].iters == [((MODULUS - 1 + i) % MODULUS + 1) % MODULUS]
      ensures forall p: nat :: p < 3 ==> ClassReady(h.before[i].threads, h.before[i].home, h.core, p)
    {
      WrapPass(i);
    }
    forall i | 0 <= i < 6 ensures h.before[i + 1].iters[0] == h.after[i].iters[0] { NextCount(MODULUS - 1, i); }
    SevenPasses(h);
  }

  lemma TripleCounts(n: nat)
    ensures Triple(n).iters == [n] && TriplePassed(n).iters == [(n + 1) % MODULUS]
  {
    hide Turn;
  }

  // ----- Removals from the shared buckets -----

  /** What a removal is stated about: the threads, where they are, and the shared counter. */
  datatype Pool = Pool(threads: seq<Thread>, home: Homes, admissions: int)

  predicate InPool(h: Option<Queue>) {
    h.Some? && h.value.Global?
  }

  ghost predicate ClassShared(ths: seq<Thread>, hs: Homes, p: nat) {
    exists t: nat :: t < |ths| && t < |hs| && InPool(hs[t]) && ths[t].priority == p
  }

  /** One call of `global_queue_remove`, from `a` to `b`, which returns `t`. */
  ghost predicate Admitted(a: Pool, t: Option<nat>, b: Pool) {
    && |a.threads| == |a.home| && b.threads == a.threads && b.admissions == Wrap(Int, a.admissions + 1)
    && (t == None <==> forall u: nat :: u < |a.home| ==> !InPool(a.home[u]))
    && (t == None ==> b.home == a.home)
    && (t.Some? ==> 0 <= t.value < |a.home| && InPool(a.home[t.value]) && b.home == a.home[t.value := None])
    && (ClassShared(a.threads, a.home, AdmissionTurn(a.admissions)) ==>
          t.Some? && a.threads[t.value].priority == AdmissionTurn(a.admissions))
  }

  /** Removal `i` goes from `before[i]` to `after[i]`, on whatever core; between removals anything
      may happen but to the shared counter. */
  datatype Removals = Removals(before: seq<Pool>, taken: seq<Option<nat>>, after: seq<Pool>)

  ghost predicate InARow(r: Removals) {
    && |r.before| == |r.taken| == |r.after| == 7 && InRange(Int, r.before[0].admissions)
    && (forall i :: 0 <= i < 7 ==> Admitted(r.before[i], r.taken[i], r.after[i]))
    && (forall i :: 0 <= i < 6 ==> r.before[i + 1].admissions == r.after[i].admissions)
  }

  /** Before each removal every class has a thread in the shared buckets. */
  ghost predicate AllShared(r: Removals) {
    forall i, p: nat :: 0 <= i < |r.before| && p < 3 ==> ClassShared(r.before[i].threads, r.before[i].home, p)
  }

  /** The priority of the thread that removal `i` has returned. */
  ghost function Taken(r: Removals, i: nat): nat {
    if i < |r.taken| && i < |r.before| && r.taken[i].Some? && 0 <= r.taken[i].value < |r.before[i].threads|
    then r.before[i].threads[r.taken[i].value].priority else 3
  }

  ghost function TakenAll(r: Removals): seq<nat> {
    [Taken(r, 0), Taken(r, 1), Taken(r, 2), Taken(r, 3), Taken(r, 4), Taken(r, 5), Taken(r, 6)]
  }

  /** The first bucket that is not empty, in the order of the slot, makes a removal. */
  lemma Removed(qs: Queues, ths: seq<Thread>, hs: Homes, hs': Homes, cores: nat, n: int, t: Option<nat>, i: nat)
    requires Inv(qs, ths, hs, cores) && |hs| == |ths| && InRange(Int, n)
    requires var b := Buckets(None, PriorityOrder(SignedSlot(n)));
             && i <= |b| && (t == None <==> i == |b|) && (forall j :: 0 <= j < i ==> In(qs, b[j]) == [])
             && (t == None ==> hs' == hs)
             && (t.Some? ==>
                   && In(qs, b[i]) != [] && t.value == In(qs, b[i])[0] && 0 <= t.value < |ths|
                   && hs[t.value] == Some(b[i]) && hs' == hs[t.value := None])
    ensures Admitted(Pool(ths, hs, n), t, Pool(ths, hs', Wrap(Int, n + 1)))
  {
    var slot := SignedSlot(n);
    assert AdmissionTurn(n) == PriorityOrder(slot)[0];
    hide In, Buckets, PriorityOrder, SignedSlot, Wrap, AdmissionTurn;
    var b := Buckets(None, PriorityOrder(slot));
    AllBuckets(None, slot, qs, ths, hs, cores);
    forall u: nat | u < |hs| && InPool(hs[u]) ensures t.Some? && (ths[u].priority == PriorityOrder(slot)[0] ==> i < 3) {
      PoolThread(qs, ths, hs, cores, slot, u, i);
    }
    if t.Some? {
      assert b[i] == Bucket(None, PriorityOrder(slot)[i / 3], i % 3);
      assert ThreadOk(ths[t.value], hs[t.value], cores);
    }
  }

  /** A thread in the shared buckets is in the bucket of its class and level. */
  lemma PoolThread(qs: Queues, ths: seq<Thread>, hs: Homes, cores: nat, slot: nat, u: nat, i: nat)
    requires Inv(qs, ths, hs, cores) && u < |hs| && |hs| == |ths| && InPool(hs[u])
    requires i <= 9 && forall j :: 0 <= j < i ==> In(qs, Buckets(None, PriorityOrder(slot))[j]) == []
    ensures i < 9 && (ths[u].priority == PriorityOrder(slot)[0] ==> i < 3)
  {
    hide Buckets, PriorityOrder;
    var p, l := ths[u].priority, ths[u].level;
    assert ThreadOk(ths[u], hs[u], cores);
    assert QueueOk(qs, hs, hs[u].value) && u in In(qs, hs[u].value);
    var j := 3 * Rank(slot, p) + l;
    assert j / 3 == Rank(slot, p) && j % 3 == l;
    assert Buckets(None, PriorityOrder(slot))[j] == hs[u].value;
    if p == PriorityOrder(slot)[0] { FirstRank(slot, p); }
  }

  lemma FirstRank(slot: nat, p: nat)
    requires p < 3 && p == PriorityOrder(slot)[0]
    ensures Rank(slot, p) == 0
  {
  }

  lemma NextWrap(n: int, i: nat)
    ensures Wrap(Int, Wrap(Int, n + i) + 1) == Wrap(Int, n + (i + 1))
  {
  }

  /** The shared counter before the first removal. */
  ghost function FirstCount(r: Removals): int {
    if |r.before| > 0 then r.before[0].admissions else 0
  }

  lemma {:induction false} SharedCounterAt(r: Removals, i: nat)
    requires InARow(r) && i < 7
    ensures r.before[i].admissions == Wrap(Int, FirstCount(r) + i)
  {
    hide ClassShared, AdmissionTurn, Wrap;
    if i > 0 {
      SharedCounterAt(r, i - 1);
      assert Admitted(r.before[i - 1], r.taken[i - 1], r.after[i - 1]);
      NextWrap(FirstCount(r), i - 1);
    } else {
      assert Wrap(Int, FirstCount(r)) == FirstCount(r);
    }
  }

  lemma TurnOfWord(n: int)
    ensures AdmissionTurn(Wrap(Int, n)) == AdmissionTurn(n) < 3
  {
  }

  lemma TakesTurn(r: Removals, i: nat)
    requires InARow(r) && AllShared(r) && i < 7
    ensures Taken(r, i) == AdmissionTurn(FirstCount(r) + i)
  {
    hide ClassShared, AdmissionTurn, Wrap, FirstCount;
    SharedCounterAt(r, i);
    TurnOfWord(FirstCount(r) + i);
    assert Admitted(r.before[i], r.taken[i], r.after[i]);
    assert ClassShared(r.before[i].threads, r.before[i].home, AdmissionTurn(r.before[i].admissions));
  }

  lemma CountInRange(r: Removals)
    requires InARow(r)
    ensures InRange(Int, FirstCount(r))
  {
  }

  /** Seven removals in a row, while every class has shared threads, return four threads of high,
      two of normal and one of low priority if and only if the signed counter stays non-negative,
      or begins at -1; and one of high and six of low priority while it is negative. */
  lemma SevenRemovals(r: Removals)
    requires InARow(r) && AllShared(r)
    ensures Weighted(TakenAll(r)) <==> -1 <= FirstCount(r) && FirstCount(r) + 7 <= 0x8000_0000
    ensures FirstCount(r) + 7 <= 0 ==>
            Times(LOW, TakenAll(r)) == 6 && Times(NORMAL, TakenAll(r)) == 0 && Times(HIGH, TakenAll(r)) == 1
  {
    hide AdmissionTurn, Weighted, Times, Taken, InARow, AllShared, FirstCount, InRange;
    CountInRange(r);
    TakesTurn(r, 0);
    TakesTurn(r, 1);
    TakesTurn(r, 2);
    TakesTurn(r, 3);
    TakesTurn(r, 4);
    TakesTurn(r, 5);
    TakesTurn(r, 6);
    SevenAdmissions(FirstCount(r));
    if FirstCount(r) + 7 <= 0 { LateAdmissions(FirstCount(r)); }
  }

  /** One thread of each class in the shared buckets, and the counter at `n`. */
  function SharedTriple(n: int): Pool {
    Pool([Thread(HIGH, 0, 2, ANY_CORE, 0), Thread(NORMAL, 0, 2, ANY_CORE, 0), Thread(LOW, 0, 2, ANY_CORE, 0)],
         [Some(Global(HIGH, 0)), Some(Global(NORMAL, 0)), Some(Global(LOW, 0))], n)
  }

  lemma TripleShared(n: int, p: nat)
    requires p < 3
    ensures ClassShared(SharedTriple(n).threads, SharedTriple(n).home, p)
  {
    var a := SharedTriple(n);
    assert Member(p) < |a.threads| && InPool(a.home[Member(p)]) && a.threads[Member(p)].priority == p;
  }

  function TripleRemoved(n: int): Pool {
    var a, t := SharedTriple(n), Member(AdmissionTurn(n));
    Pool(a.threads, a.home[t := None], Wrap(Int, n + 1))
  }

  lemma TripleRemoval(n: int)
    ensures Admitted(SharedTriple(n), Some(Member(AdmissionTurn(n))), TripleRemoved(n))
  {
    TurnOfWord(n);
    hide AdmissionTurn, Wrap;
    var a := SharedTriple(n);
    assert InPool(a.home[Member(AdmissionTurn(n))]) && a.threads[Member(AdmissionTurn(n))].priority == AdmissionTurn(n);
  }

  /** Seven removals from when the counter is `n`. */
  function RemovalsFrom(n: int): Removals {
    Removals(seq(7, i => SharedTriple(n + i)), seq(7, i => Some(Member(AdmissionTurn(n + i)))),
             seq(7, i => TripleRemoved(n + i)))
  }

  /** Once the counter is negative, seven removals return one thread of high and six of low
      priority. */
  lemma LowPriorityFirst()
    ensures var r := RemovalsFrom(-0x8000_0000);
            && InARow(r) && AllShared(r) && FirstCount(r) == -0x8000_0000
            && Times(HIGH, TakenAll(r)) == 1 && Times(NORMAL, TakenAll(r)) == 0 && Times(LOW, TakenAll(r)) == 6
  {
    hide Admitted, ClassShared, AdmissionTurn, Times, Taken, SharedTriple, TripleRemoved;
    var n, r := -0x8000_0000, RemovalsFrom(-0x8000_0000);
    forall i | 0 <= i < 7
      ensures Admitted(r.before[i], r.taken[i], r.after[i])
      ensures r.before[i].admissions == n + i && r.after[i].admissions == n + i + 1
    {
      TripleRemoval(n + i);
      SharedCounts(n + i);
    }
    forall i, p: nat | 0 <= i < |r.before| && p < 3 ensures ClassShared(r.before[i].threads, r.before[i].home, p) {
      TripleShared(n + i, p);
    }
    SevenRemovals(r);
  }

  lemma SharedCounts(n: int)
    requires -0x8000_0000 <= n < 0
    ensures SharedTriple(n).admissions == n && TripleRemoved(n).admissions == n + 1
  {
    hide AdmissionTurn;
  }

  // ----- The cores -----

  class System {
    const cores: nat
    var threads: seq<Thread>
    var queues: Queues
    var iters: seq<nat>
    var boost: seq<bool>
    var rebalance: seq<bool>
    var admissions: int
    ghost var home: Homes

    ghost predicate Valid()
      reads this
    {
      && cores > 0 && |iters| == |boost| == |rebalance| == cores
      && (forall c :: 0 <= c < cores ==> iters[c] < MODULUS) && InRange(Int, admissions)
      && Inv(queues, threads, home, cores)
    }

    constructor (n: nat, ths: seq<Thread>)
      requires n > 0 && forall t :: 0 <= t < |ths| ==> ThreadOk(ths[t], None, n)
      ensures Valid() && cores == n && threads == ths && forall t :: 0 <= t < |ths| ==> home[t] == None
    {
      cores, threads, queues := n, ths, map[];
      iters, boost, rebalance := seq(n, _ => 0), seq(n, _ => false), seq(n, _ => false);
      admissions := 0;
      home := seq(|ths|, _ => None);
    }

    ghost function Shown(): Snapshot
      reads this
    {
      Snapshot(threads, home, iters)
    }

    ghost function Whole(): Machine
      reads this
    {
      Machine(queues, threads, home, iters, boost, rebalance, admissions)
    }

    ghost function Shared(): Pool
      reads this
    {
      Pool(threads, home, admissions)
    }

    /** Nothing but queues, levels and quanta changes, and every thread is accounted for. */
    twostate predicate Kept(core: nat, now: nat, stay: bool)
      reads this
    {
      Valid() && Tracks(old(threads), old(home), threads, home, core, now, stay)
    }

    /** `queue_add` and `spin_queue_add`. */
    method Put(q: Queue, t: nat)
      requires Valid() && t < |threads| && home[t] == None && May(threads[t], q, cores) && !q.Sleeping?
      modifies `queues, `home
      ensures Valid() && queues == old(queues)[q := In(old(queues), q) + [t]] && home == old(home)[t := Some(q)]
    {
      AddInv(queues, threads, home, cores, q, t);
      hide Inv;
      queues := queues[q := In(queues, q) + [t]];
      home := home[t := Some(q)];
    }

    /** `queue_remove` and `spin_queue_remove`. */
    method Remove(q: Queue) returns (t: Option<nat>)
      requires Valid()
      modifies `queues, `home
      ensures Valid() && (t == None <==> In(old(queues), q) == [])
      ensures t == None ==> queues == old(queues) && home == old(home)
      ensures t.Some? ==>
                && t.value == In(old(queues), q)[0] && 0 <= t.value < |threads| == |home|
                && old(home[t.value]) == Some(q) && home[t.value] == None
                && queues == old(queues)[q := In(old(queues), q)[1..]] && home == old(home)[t.value := None]
    {
      hide Inv;
      if In(queues, q) == [] {
        return None;
      }
      RemoveInv(queues, threads, home, cores, q);
      SameLength(queues, threads, home, cores);
      t := Some(In(queues, q)[0]);
      home := home[t.value := None];
      queues := queues[q := In(queues, q)[1..]];
    }

    /** `queue_remove_all` and `spin_queue_remove_all`. */
    method RemoveAll(q: Queue) returns (ts: seq<nat>)
      requires Valid()
      modifies `queues, `home
      ensures Valid() && ts == In(old(queues), q) && queues == old(queues)[q := []] && home == Cleared(old(home), ts)
      ensures |home| == |threads| && Once<nat>(ts) && forall t :: t in ts ==>
              t < |threads| && old(home[t]) == Some(q) && home[t] == None
      ensures Held(home, ts, q) == old(home)
    {
      ts := In(queues, q);
      assert QueueOk(queues, home, q);
      RemoveAllInv(queues, threads, home, cores, q);
      HeldStart(queues, home, q);
      hide Inv;
      home := Cleared(home, ts);
      queues := queues[q := []];
    }

    /** `scheduler_wake_thread`, on core `core`. */
    method Wake(core: nat, t: nat)
      requires Valid() && core < cores && t < |threads| && home[t] == None
      modifies `queues, `home
      ensures Valid() && home == old(home)[t := Some(Target(threads[t], core))]
      ensures var th, q := threads[t], Target(threads[t], core);
              && (th.affinity == core ==> q == Ready(core, th.priority, th.level))
              && (th.affinity == -1 ==> q == Global(th.priority, th.level))
              && (th.affinity != core && th.affinity != -1 ==> q.Pinned? && q.core == th.affinity)
      ensures queues == old(queues)[Target(threads[t], core) := In(old(queues), Target(threads[t], core)) + [t]]
    {
      assert ThreadOk(threads[t], home[t], cores);
      Put(Target(threads[t], core), t);
    }

    /** Wakes what interrupts have left to be woken. */
    method WakeDeferred(core: nat, ghost now: nat)
      requires Valid() && core < cores
      modifies `queues, `home
      ensures Kept(core, now, true) && In(queues, Deferred(core)) == []
      ensures WokenInto(threads, old(queues), In(old(queues), Deferred(core)), core, Deferred(core), [], queues)
    {
      hide Inv, Tracks, Track, Held, Cleared, Once, WokenInto, Target;
      TrackAll(threads, home, core, now) by { SameLength(queues, threads, home, cores); }
      var list := RemoveAll(Deferred(core));
      var i := 0;
      assert list[i..] == list && list[..i] == [] && Between(home, list);
      WokenIntoNone(threads, old(queues), core, Deferred(core), [], queues);
      while i < |list|
        invariant i <= |list| && Valid() && |home| == |threads| && In(queues, Deferred(core)) == [] &&
                  Between(home, list[i..])
        invariant Deferred(core) in queues && queues[Deferred(core)] == []
        invariant WokenInto(threads, old(queues), list[..i], core, Deferred(core), [], queues)
        invariant Tracks(old(threads), old(home), threads, Held(home, list[i..], Deferred(core)), core, now, true)
      {
        var t := list[i];
        assert t == list[i..][0] && t in list[i..];
        hide Between;
        Affine(queues, threads, home, cores, t);
        WakeTrack(threads[t], Some(Deferred(core)), core, now);
        HeldTrack(old(threads), old(home), threads, home, list[i..], Deferred(core), core, now,
                  Some(Target(threads[t], core)));
        Awake(threads[t], core);
        ghost var qs := queues;
        assert qs[Deferred(core) := []] == qs;
        Wake(core, t);
        WokenIntoNext(threads, old(queues), list, core, Deferred(core), [], qs, i, [], queues);
        assert list[i..][1..] == list[i + 1..];
        i := i + 1;
      }
      assert list[i..] == [] && list[..i] == list;
      HeldNone(home, Deferred(core));
    }

    /** Takes over the threads that others have woken for this core. */
    method TakePinned(core: nat, ghost now: nat)
      requires Valid() && core < cores
      modifies `queues, `home
      ensures Kept(core, now, true) && In(queues, Pinned(core)) == []
      ensures forall q: Queue :: !q.Ready? && q != Pinned(core) ==> In(queues, q) == In(old(queues), q)
      ensures WokenInto(threads, old(queues), In(old(queues), Pinned(core)), core, Pinned(core), [], queues)
    {
      hide Inv, Tracks, Track, Held, Cleared, Once, WokenInto;
      TrackAll(threads, home, core, now) by { SameLength(queues, threads, home, cores); }
      AtHome(queues, threads, home, cores, Pinned(core));
      var list := RemoveAll(Pinned(core));
      var i := 0;
      assert list[i..] == list && list[..i] == [] && Between(home, list);
      WokenIntoNone(threads, old(queues), core, Pinned(core), [], queues);
      while i < |list|
        invariant Pinned(core) in queues && queues[Pinned(core)] == []
        invariant i <= |list| && WokenInto(threads, old(queues), list[..i], core, Pinned(core), [], queues)
        invariant i <= |list| && Valid() && |home| == |threads| && In(queues, Pinned(core)) == [] &&
                  Between(home, list[i..])
        invariant forall t :: t in list ==> t < |threads| && threads[t].affinity == core
        invariant Tracks(old(threads), old(home), threads, Held(home, list[i..], Pinned(core)), core, now, true)
        invariant forall q: Queue :: !q.Ready? && q != Pinned(core) ==> In(queues, q) == In(old(queues), q)
      {
        var t := list[i];
        assert t == list[i..][0] && t in list[i..];
        var q := Ready(core, threads[t].priority, threads[t].level);
        hide Between;
        PinnedTrack(threads[t], q, core, now);
        HeldTrack(old(threads), old(home), threads, home, list[i..], Pinned(core), core, now, Some(q));
        ghost var qs := queues;
        assert t in list && Target(threads[t], core) == q && qs[Pinned(core) := []] == qs;
        Put(q, t);
        WokenIntoNext(threads, old(queues), list, core, Pinned(core), [], qs, i, [], queues);
        assert list[i..][1..] == list[i + 1..];
        i := i + 1;
      }
      assert list[i..] == [] && list[..i] == list;
      HeldNone(home, Pinned(core));
    }

    /** `sleep_queue_add`: in order of wake-up, and first come first for equal times. */
    method SleepAdd(core: nat, t: nat) returns (ghost i: nat)
      requires Valid() && core < cores && t < |threads| && home[t] == None
      modifies `queues, `home
      ensures Valid() && home == old(home)[t := Some(Sleeping(core))] && i <= |In(old(queues), Sleeping(core))|
      ensures var s := In(old(queues), Sleeping(core));
              && queues == old(queues)[Sleeping(core) := Insert(s, t, i)]
              && (forall j :: 0 <= j < |s| ==>
                  s[j] < |threads| && (threads[s[j]].wakeup <= threads[t].wakeup <==> j < i))
    {
      var s := In(queues, Sleeping(core));
      var n := 0;
      SleepersOk(queues, threads, home, cores, core);
      hide Inv, Insert;
      while n < |s| && threads[s[n]].wakeup <= threads[t].wakeup
        invariant n <= |s| && forall j :: 0 <= j < n ==> threads[s[j]].wakeup <= threads[t].wakeup
      {
        n := n + 1;
      }
      SleepInv(queues, threads, home, cores, core, t, n);
      queues := queues[Sleeping(core) := Insert(s, t, n)];
      home := home[t := Some(Sleeping(core))];
      i := n;
    }

    /** `sleep_queue_remove_at`: the first sleeper, if its time has come. */
    method RemoveDue(core: nat, now: nat) returns (t: Option<nat>)
      requires Valid()
      modifies `queues, `home
      ensures Valid() && |home| == |threads|
      ensures t == None ==> queues == old(queues) && home == old(home)
      ensures t == None ==> forall x :: x in In(queues, Sleeping(core)) ==> x < |threads| && threads[x].wakeup > now
      ensures t.Some? ==>
                && In(old(queues), Sleeping(core)) != [] && t.value == In(old(queues), Sleeping(core))[0]
                && t.value < |threads| && threads[t.value].wakeup <= now && old(home[t.value]) == Some(Sleeping(core))
                && queues == old(queues)[Sleeping(core) := In(old(queues), Sleeping(core))[1..]]
                && home == old(home)[t.value := None]
    {
      var s := In(queues, Sleeping(core));
      SleepersOk(queues, threads, home, cores, core);
      if s == [] || threads[s[0]].wakeup > now {
        return None;
      }
      hide Inv;
      t := Remove(Sleeping(core));
    }

    /** Wakes the threads whose time has come: the first `n` sleepers, and no others. */
    method WakeSleepers(core: nat, now: nat) returns (ghost n: nat)
      requires Valid() && core < cores
      modifies `queues, `home
      ensures var s := In(old(queues), Sleeping(core));
              && DueFirst(threads, s, n, now) && In(queues, Sleeping(core)) == s[n..]
              && |old(home)| == |threads| && home == Woken(threads, old(home), s[..n], core)
              && WokenInto(threads, old(queues), s[..n], core, Sleeping(core), s[n..], queues)
      ensures Kept(core, now, true) && In(queues, Deferred(core)) == In(old(queues), Deferred(core))
      ensures forall x :: x in In(queues, Sleeping(core)) ==> x < |threads| && threads[x].wakeup > now
    {
      hide Inv, Tracks, SoFar, DueFirst, Woken, Target, WokenInto;
      ghost var s: seq<nat>, r: seq<nat>, h, qs := In(queues, Sleeping(core)), In(queues, Sleeping(core)), home, queues;
      SleepersOk(queues, threads, home, cores, core);
      SoFarNone(threads, home, queues, core, now);
      n := 0;
      var t := RemoveDue(core, now);
      while t.Some?
        invariant Valid() && |h| == |home| == |threads|
        invariant SoFar(threads, old(home), old(queues), s, core, now, n, r, h, qs)
        invariant In(queues, Deferred(core)) == In(old(queues), Deferred(core))
        invariant t == None ==> In(queues, Sleeping(core)) == r && home == h && queues == qs
        invariant t == None ==> forall x :: x in r ==> x < |threads| && threads[x].wakeup > now
        invariant t.Some? ==>
                  && r != [] && t.value == r[0] && queues == qs[Sleeping(core) := r[1..]] && 0 <= t.value < |threads|
                  && threads[t.value].wakeup <= now && home == h[t.value := None]
        decreases |r|, t.Some?
      {
        SoFarNext(threads, old(home), old(queues), s, core, now, n, r, h, qs);
        Awake(threads[t.value], core);
        Wake(core, t.value);
        n, r, h, qs := n + 1, r[1..], home, queues;
        t := RemoveDue(core, now);
      }
      SoFarLast(threads, old(home), old(queues), s, core, now, n, r, h, qs);
      WokenTracks(old(queues), threads, old(home), cores, core, now, n);
    }

    /** Moves the first thread of a bucket to the bucket of level 0, with a new quantum. */
    method LiftFirst(from: Queue, core: nat, ghost now: nat) returns (ghost t: nat)
      requires Valid() && core < cores && (from.Global? || (from.Ready? && from.core == core)) && 0 < from.l < LEVELS &&
               In(queues, from) != []
      modifies `queues, `home, `threads
      ensures Kept(core, now, true) && t == In(old(queues), from)[0] && t < old(|threads|)
      ensures threads == old(threads)[t := old(threads[t]).(level := 0, quantum := QUANTUM[0])]
      ensures In(queues, from) == In(old(queues), from)[1..] &&
              In(queues, WithLevel(from, 0)) == In(old(queues), WithLevel(from, 0)) + [t]
      ensures forall q :: q != from && q != WithLevel(from, 0) ==> In(queues, q) == In(old(queues), q)
    {
      hide Inv, Tracks, Track;
      SameLength(queues, threads, home, cores);
      TrackAll(threads, home, core, now);
      var to := WithLevel(from, 0);
      AtHome(queues, threads, home, cores, from);
      var r := Remove(from);
      var u := r.value;
      var th := threads[u].(level := 0, quantum := QUANTUM[0]);
      LiftTrack(threads[u], from, core, now);
      TrackOne(old(threads), old(home), threads, old(home), core, now, true, u, th, Some(to));
      ChangeInv(queues, threads, home, cores, u, th);
      threads := threads[u := th];
      Put(to, u);
      assert home == old(home)[u := Some(to)];
      t := u;
    }

    /** Moves all of a bucket to the bucket of level 0, in order. */
    method Lift(from: Queue, core: nat, ghost now: nat)
      requires Valid() && core < cores && (from.Global? || (from.Ready? && from.core == core)) && 0 < from.l < LEVELS
      modifies `queues, `home, `threads
      ensures Kept(core, now, true)
      ensures forall q :: In(queues, q) == LiftedOne(old(queues), from, q)
      ensures |threads| == old(|threads|) && forall t: nat :: t < |threads| ==>
                threads[t] == if t in In(old(queues), from) then old(threads[t]).(level := 0, quantum := QUANTUM[0])
                  else old(threads[t])
    {
      hide Inv, Tracks, Track, In, Once;
      SameLength(queues, threads, home, cores);
      TrackAll(threads, home, core, now);
      ghost var to, s, i := WithLevel(from, 0), In(queues, from), 0;
      OnceIn(queues, threads, home, cores, from);
      while In(queues, from) != []
        invariant Kept(core, now, true) && |threads| == old(|threads|) && i <= |s|
        invariant In(queues, from) == s[i..] && In(queues, to) == In(old(queues), to) + s[..i]
        invariant forall q :: q != from && q != to ==> In(queues, q) == In(old(queues), q)
        invariant forall t: nat :: t < |threads| ==>
                    threads[t] == if t in s[..i] then old(threads[t]).(level := 0, quantum := QUANTUM[0])
                      else old(threads[t])
        decreases |s| - i
      {
        ghost var ths, hs := threads, home;
        Apart(s, i);
        ghost var t := LiftFirst(from, core, now);
        TrackMore(old(threads), old(home), ths, hs, threads, home, core, now, true, true);
        i := i + 1;
      }
      assert s[..i] == s;
    }

    /** `mlfq_boost`: every bucket of the core, and on core 0 every shared one, is emptied into
        level 0, level by level. */
    method Boost(core: nat, ghost now: nat)
      requires Valid() && core < cores
      modifies `queues, `home, `threads
      ensures Kept(core, now, true)
      ensures forall q :: In(queues, q) == Lifted(old(queues), core, 3, 1, q)
      ensures AllRaised(old(threads), old(queues), threads, core)
    {
      hide Inv, Tracks, Track, Lifted, LiftedOne, Raised, AllRaised, In;
      SameLength(queues, threads, home, cores);
      TrackAll(threads, home, core, now);
      LiftedNone(queues, core);
      RaisedNone(threads, home, core);
      var p := 0;
      while p < 3
        invariant p <= 3 && Kept(core, now, true) && forall q :: In(queues, q) == Lifted(old(queues), core, p, 1, q)
        invariant Raised(old(threads), old(home), threads, core, p, 1)
      {
        var l := 1;
        while l < LEVELS
          invariant 1 <= l <= LEVELS && Kept(core, now, true) && forall q ::
                    In(queues, q) == Lifted(old(queues), core, p, l, q)
          invariant Raised(old(threads), old(home), threads, core, p, l)
        {
          ghost var ths, hs, qs := threads, home, queues;
          NotLifted(old(queues), core, p, l);
          InIsHome(old(queues), old(threads), old(home), cores, Ready(core, p, l));
          InIsHome(old(queues), old(threads), old(home), cores, Global(p, l));
          Lift(Ready(core, p, l), core, now);
          TrackMore(old(threads), old(home), ths, hs, threads, home, core, now, true, true);
          ghost var ths1, hs1, qs1 := threads, home, queues;
          SameGlobal(qs, core, p, l);
          if core == 0 {
            Lift(Global(p, l), core, now);
            TrackMore(old(threads), old(home), ths1, hs1, threads, home, core, now, true, true);
          }
          forall q ensures In(queues, q) == Lifted(old(queues), core, p, l + 1, q) {
            LiftedStep(old(queues), qs, qs1, queues, core, p, l, q);
          }
          RaisedLength(old(threads), old(home), ths, core, p, l);
          RaisedStep(old(threads), old(home), ths, threads, core, p, l);
          l := l + 1;
        }
        LiftedLevels(old(queues), core, p);
        RaisedClass(old(queues), old(threads), old(home), cores, threads, core, p);
        p := p + 1;
      }
      RaisedAll(old(queues), old(threads), old(home), cores, threads, core);
    }

    /** Takes the first thread of a ready bucket and puts it at the end of one of the same class,
        or of the same bucket. */
    method Shift(from: Queue, to: Queue, core: nat, ghost now: nat) returns (ghost t: nat)
      requires Valid() && core < cores && In(queues, from) != []
      requires (from.Global? || (from.Ready? && from.core == core)) && (to.Global? || (to.Ready? && to.core == core))
      requires from.p == to.p && from.l == to.l && (to.Global? ==> IsLoose(threads, In(queues, from)[0]))
      modifies `queues, `home
      ensures Kept(core, now, false) && t == In(old(queues), from)[0]
      ensures var qs := old(queues)[from := In(old(queues), from)[1..]]; queues == qs[to := In(qs, to) + [t]]
    {
      hide Inv, Tracks, Track;
      SameLength(queues, threads, home, cores);
      TrackAll(threads, home, core, now);
      Loosen(threads, home, threads, home, core, now);
      AtHome(queues, threads, home, cores, from);
      var r := Remove(from);
      var u := r.value;
      MoveTrack(threads[u], from, to, core, now);
      TrackHeld(threads, old(home), threads, old(home), core, now, false, u, Some(to));
      Put(to, u);
      assert home == old(home)[u := Some(to)];
      t := u;
    }

    /** Takes the first thread of a local bucket, and puts it at the end of the shared bucket, or
        of the local one if it is pinned. */
    method ScanOne(core: nat, p: nat, l: nat, ghost now: nat) returns (moved: bool)
      requires Valid() && core < cores && In(queues, Ready(core, p, l)) != []
      modifies `queues, `home
      ensures Kept(core, now, false)
      ensures var s := In(old(queues), Ready(core, p, l)); moved <==> IsLoose(threads, s[0])
      ensures var s := In(old(queues), Ready(core, p, l)); In(queues, Ready(core, p, l)) == s[1..] + if moved then []
              else [s[0]]
      ensures var s := In(old(queues), Ready(core, p, l));
              In(queues, Global(p, l)) == In(old(queues), Global(p, l)) + if moved then [s[0]] else []
      ensures forall q :: q != Ready(core, p, l) && q != Global(p, l) ==> In(queues, q) == In(old(queues), q)
    {
      var local := Ready(core, p, l);
      moved := IsLoose(threads, In(queues, local)[0]);
      ghost var t := Shift(local, if moved then Global(p, l) else local, core, now);
    }

    /** `move_local_bucket_to_global`: gives up to `n` threads that are not pinned to the shared
        bucket, and puts the pinned ones it meets at the end of the local one. */
    method MoveOut(core: nat, p: nat, l: nat, n: nat, ghost now: nat) returns (ghost k: nat)
      requires Valid() && core < cores
      modifies `queues, `home
      ensures Kept(core, now, false)
      ensures var s := In(old(queues), Ready(core, p, l));
              && k <= |s| && In(queues, Ready(core, p, l)) == s[k..] + Bound(threads, s[..k])
              && In(queues, Global(p, l)) == In(old(queues), Global(p, l)) + Loose(threads, s[..k])
              && |Loose(threads, s[..k])| <= n && (|Loose(threads, s[..k])| == n || k == |s|)
              && (k > 0 ==> |Loose(threads, s[..k - 1])| < n)
      ensures forall q :: q != Ready(core, p, l) && q != Global(p, l) ==> In(queues, q) == In(old(queues), q)
    {
      hide Inv, Tracks, Track, Bound, Loose, In;
      SameLength(queues, threads, home, cores);
      TrackAll(threads, home, core, now);
      Loosen(threads, home, threads, home, core, now);
      var local := Ready(core, p, l);
      ghost var s := In(queues, local);
      AtHome(queues, threads, home, cores, local);
      var toMove, scan := n, |In(queues, local)|;
      k := 0;
      NoneBound(threads);
      assert s[k..] + Bound(threads, s[..k]) == s;
      while toMove > 0 && scan > 0
        invariant Kept(core, now, false) && k <= |s| && scan == |s| - k && toMove == n - |Loose(threads, s[..k])| >= 0
        invariant k > 0 ==> |Loose(threads, s[..k - 1])| < n
        invariant In(queues, local) == s[k..] + Bound(threads, s[..k])
        invariant In(queues, Global(p, l)) == In(old(queues), Global(p, l)) + Loose(threads, s[..k])
        invariant forall q :: q != local && q != Global(p, l) ==> In(queues, q) == In(old(queues), q)
        decreases scan
      {
        ghost var hs := home;
        assert s[..k + 1] == s[..k] + [s[k]] && In(queues, local)[0] == s[k] &&
               In(queues, local)[1..] == s[k + 1..] + Bound(threads, s[..k]);
        OneBound(threads, s[..k], s[k]);
        var moved := ScanOne(core, p, l, now);
        if moved {
          toMove := toMove - 1;
        }
        TrackMore(old(threads), old(home), threads, hs, threads, home, core, now, false, false);
        scan := scan - 1;
        k := k + 1;
      }
    }

    /** `move_global_bucket_to_local`: takes up to `n` threads from the shared bucket. */
    method MoveIn(core: nat, p: nat, l: nat, n: nat, ghost now: nat)
      requires Valid() && core < cores
      modifies `queues, `home
      ensures Kept(core, now, false)
      ensures var g := In(old(queues), Global(p, l)); var k := if n < |g| then n else |g|;
              In(queues, Ready(core, p, l)) == In(old(queues), Ready(core, p, l)) + g[..k] &&
                In(queues, Global(p, l)) == g[k..]
      ensures forall q :: q != Ready(core, p, l) && q != Global(p, l) ==> In(queues, q) == In(old(queues), q)
    {
      hide Inv, Tracks, Track;
      SameLength(queues, threads, home, cores);
      TrackAll(threads, home, core, now);
      Loosen(threads, home, threads, home, core, now);
      ghost var g := In(queues, Global(p, l));
      var i := 0;
      while i < n && In(queues, Global(p, l)) != []
        invariant Kept(core, now, false) && i <= n && i <= |g| && In(queues, Global(p, l)) == g[i..]
        invariant In(queues, Ready(core, p, l)) == In(old(queues), Ready(core, p, l)) + g[..i]
        invariant forall q :: q != Ready(core, p, l) && q != Global(p, l) ==> In(queues, q) == In(old(queues), q)
        decreases n - i
      {
        ghost var hs := home;
        assert g[..i + 1] == g[..i] + [g[i]];
        ghost var t := Shift(Global(p, l), Ready(core, p, l), core, now);
        TrackMore(old(threads), old(home), threads, hs, threads, home, core, now, false, false);
        i := i + 1;
      }
    }

    /** The ready threads of a class and level, on all cores and in the shared bucket. */
    method TotalReady(p: nat, l: nat) returns (total: nat)
      ensures total == ReadyTotal(queues, p, l, cores)
    {
      total := |In(queues, Global(p, l))|;
      var c := 0;
      while c < cores
        invariant c <= cores && total == ReadyTotal(queues, p, l, c)
      {
        total := total + |In(queues, Ready(c, p, l))|;
        c := c + 1;
      }
    }

    /** One bucket's part of `rebalance_queues`. */
    method RebalanceBucket(core: nat, p: nat, l: nat, ghost now: nat)
      requires Valid() && core < cores
      modifies `queues, `home
      ensures Kept(core, now, false)
      ensures forall q :: q != Ready(core, p, l) && q != Global(p, l) ==> In(queues, q) == In(old(queues), q)
      ensures var s, g := In(old(queues), Ready(core, p, l)), In(old(queues), Global(p, l));
              var ideal := Ideal(ReadyTotal(old(queues), p, l, cores), cores);
              |In(queues, Ready(core, p, l))| ==
                if |s| * 100 > ideal * MAX_PERCENT then Max(ideal, |Bound(threads, s)|)
                else if |s| * 100 < ideal * MIN_PERCENT then Min(ideal, |s| + |g|)
                else |s|
      ensures In(old(queues), Ready(core, p, l)) != [] ==> In(queues, Ready(core, p, l)) != []
      ensures PairBalanced(threads, old(queues), queues, core, cores, p, l)
    {
      hide Inv, Tracks, Track, Bound, Loose, In, Ideal;
      SameLength(queues, threads, home, cores);
      TrackAll(threads, home, core, now);
      Loosen(threads, home, threads, home, core, now);
      var total := TotalReady(p, l);
      ghost var s := In(queues, Ready(core, p, l));
      NothingReady(queues, p, l, cores, core);
      if total == 0 {
        return;
      }
      var ideal := Ideal(total, cores);
      var n := |In(queues, Ready(core, p, l))|;
      if n * 100 > ideal * MAX_PERCENT {
        ghost var k := MoveOut(core, p, l, n - ideal, now);
        BoundCount(threads, s, k);
        assert GivesUp(threads, s, In(old(queues), Global(p, l)), ideal, k, In(queues, Ready(core, p, l)),
                       In(queues, Global(p, l)));
      } else if n * 100 < ideal * MIN_PERCENT {
        MoveIn(core, p, l, ideal - n, now);
      }
    }

    /** `rebalance_queues`. */
    method Rebalance(core: nat, ghost now: nat)
      requires Valid() && core < cores
      modifies `queues, `home
      ensures Kept(core, now, false)
      ensures forall q: Queue :: !q.Ready? && !q.Global? ==> In(queues, q) == In(old(queues), q)
      ensures forall p, l :: In(old(queues), Ready(core, p, l)) != [] ==> In(queues, Ready(core, p, l)) != []
      ensures BalancedTo(threads, old(queues), queues, core, cores, 3, 0)
    {
      hide Inv, Tracks, Track, Bound, Loose, In, BucketBalanced, BalancedTo, PairBalanced;
      BalancedNone(threads, queues, core, cores);
      SameLength(queues, threads, home, cores);
      TrackAll(threads, home, core, now);
      Loosen(threads, home, threads, home, core, now);
      var p := 0;
      while p < 3
        invariant p <= 3 && Kept(core, now, false) && BalancedTo(threads, old(queues), queues, core, cores, p, 0)
        invariant forall q: Queue :: !q.Ready? && !q.Global? ==> In(queues, q) == In(old(queues), q)
        invariant forall m, l :: In(old(queues), Ready(core, m, l)) != [] ==> In(queues, Ready(core, m, l)) != []
      {
        var l := 0;
        while l < LEVELS
          invariant l <= LEVELS && Kept(core, now, false) && BalancedTo(threads, old(queues), queues, core, cores, p, l)
          invariant forall q: Queue :: !q.Ready? && !q.Global? ==> In(queues, q) == In(old(queues), q)
          invariant forall m, k :: In(old(queues), Ready(core, m, k)) != [] ==> In(queues, Ready(core, m, k)) != []
        {
          ghost var hs, qs := home, queues;
          RebalanceBucket(core, p, l, now);
          BalancedStep(threads, old(queues), qs, queues, core, cores, p, l);
          TrackMore(old(threads), old(home), threads, hs, threads, home, core, now, false, false);
          l := l + 1;
        }
        BalancedClass(threads, old(queues), queues, core, cores, p);
        p := p + 1;
      }
    }

    /** Takes the first thread of the first bucket that has one. */
    method RemoveFirst(buckets: seq<Queue>) returns (t: Option<nat>, ghost i: nat)
      requires Valid()
      modifies `queues, `home
      ensures Valid() && |home| == |threads| && i <= |buckets| && (t == None <==> i == |buckets|)
      ensures forall j :: 0 <= j < i ==> In(old(queues), buckets[j]) == []
      ensures t == None ==> queues == old(queues) && home == old(home)
      ensures t.Some? ==>
                && In(old(queues), buckets[i]) != [] && t.value == In(old(queues), buckets[i])[0] &&
                  0 <= t.value < |threads|
                && old(home[t.value]) == Some(buckets[i]) && home == old(home)[t.value := None]
                && queues == old(queues)[buckets[i] := In(old(queues), buckets[i])[1..]]
    {
      hide Inv;
      SameLength(queues, threads, home, cores);
      var n := 0;
      t, i := None, 0;
      while n < |buckets|
        invariant i == n <= |buckets| && Valid() && queues == old(queues) && home == old(home)
        invariant forall j :: 0 <= j < i ==> In(old(queues), buckets[j]) == []
        invariant t == None
      {
        t := Remove(buckets[n]);
        if t.Some? {
          return;
        }
        n := n + 1;
        i := n;
      }
    }

    /** `global_queue_remove`: by the shared admission counter, a signed word. */
    method GlobalRemove() returns (t: Option<nat>, ghost i: nat)
      requires Valid()
      modifies `queues, `home, `admissions
      ensures Valid() && |home| == |threads| && admissions == Wrap(Int, old(admissions) + 1)
      ensures Admitted(old(Shared()), t, Shared())
      ensures var b := Buckets(None, PriorityOrder(SignedSlot(old(admissions))));
              && i <= |b| && (t == None <==> i == |b|) && (forall j :: 0 <= j < i ==> In(old(queues), b[j]) == [])
              && (t == None ==> queues == old(queues) && home == old(home))
              && (t.Some? ==>
                    && In(old(queues), b[i]) != [] && t.value == In(old(queues), b[i])[0] && 0 <= t.value < |threads|
                    && old(home[t.value]) == Some(b[i]) && home == old(home)[t.value := None]
                    && queues == old(queues)[b[i] := In(old(queues), b[i])[1..]])
    {
      hide Inv, Buckets, PriorityOrder, SignedSlot, Admitted, In;
      var slot := SignedSlot(admissions);
      SameLength(queues, threads, home, cores);
      admissions := Wrap(Int, admissions + 1);
      t, i := RemoveFirst(Buckets(None, PriorityOrder(slot)));
      Removed(old(queues), threads, old(home), home, cores, old(admissions), t, i);
    }

    /** `admit_one_global_thread`: none only if there is no shared ready thread. */
    method AdmitOne(core: nat, ghost now: nat) returns (ok: bool)
      requires Valid() && core < cores
      modifies `queues, `home, `admissions
      ensures Kept(core, now, true) && (!ok <==> NoneShared(old(queues)))
      ensures AdmitsOne(old(queues), core, SharedTurn(old(admissions)), queues)
      ensures admissions == Wrap(Int, old(admissions) + 1)
      ensures !ok ==> queues == old(queues) && home == old(home)
      ensures ok ==> !NoneReady(queues, core)
      ensures forall q: Queue :: !q.Ready? && !q.Global? ==> In(queues, q) == In(old(queues), q)
    {
      hide Inv, Tracks, Track, Buckets, PriorityOrder, SignedSlot, NoneReady, NoneShared, FirstIn, SharedTurn;
      SameLength(queues, threads, home, cores);
      TrackAll(threads, home, core, now);
      ghost var order := PriorityOrder(SignedSlot(admissions));
      AllBuckets(None, SignedSlot(admissions), queues, threads, home, cores);
      var t: Option<nat>;
      ghost var i: nat;
      t, i := GlobalRemove();
      if t == None {
        return false;
      }
      ghost var from := Buckets(None, order)[i];
      Affine(old(queues), threads, old(home), cores, t.value);
      var th := threads[t.value];
      var to := Ready(core, th.priority, th.level);
      AdmitTrack(th, from, to, core, now);
      TrackHeld(threads, old(home), threads, old(home), core, now, true, t.value, Some(to));
      Put(to, t.value);
      assert home == old(home)[t.value := Some(to)];
      ReadyOne(queues, core, to);
      FirstInOrder(old(queues), None, SignedSlot(old(admissions)), i);
      TurnOfSlot(old(admissions));
      assert Brought(old(queues), core, from, queues);
      return true;
    }

    /** `local_ready_queue_size`. */
    method LocalSize(core: nat) returns (total: nat)
      ensures total == 0 <==> forall p, l :: 0 <= p < 3 && 0 <= l < LEVELS ==> In(queues, Ready(core, p, l)) == []
    {
      total := 0;
      var p := 0;
      while p < 3
        invariant p <= 3
        invariant total == 0 <==> forall r, l :: 0 <= r < p && 0 <= l < LEVELS ==> In(queues, Ready(core, r, l)) == []
      {
        var l := 0;
        while l < LEVELS
          invariant l <= LEVELS
          invariant total == 0 <==>
                    forall r, m :: 0 <= r <= p && 0 <= m < LEVELS && (r < p || m < l) ==>
                    In(queues, Ready(core, r, m)) == []
        {
          total := total + |In(queues, Ready(core, p, l))|;
          l := l + 1;
        }
        p := p + 1;
      }
    }

    /** `admit_global_work`: a core with nothing ready takes a shared thread if there is one. */
    method Admit(core: nat, ghost now: nat)
      requires Valid() && core < cores
      modifies `queues, `home, `admissions
      ensures Kept(core, now, true) && (NoneReady(queues, core) ==> NoneShared(queues))
      ensures Admits(old(queues), core, iters[core], old(admissions), queues, admissions)
      ensures forall q: Queue :: !q.Ready? && !q.Global? ==> In(queues, q) == In(old(queues), q)
    {
      hide Inv, Tracks, Track, NoneReady, NoneShared, AdmitsOne, SharedTurn;
      SameLength(queues, threads, home, cores);
      TrackAll(threads, home, core, now);
      var size := LocalSize(core);
      NineReady(queues, threads, home, cores, core);
      var budget := 0;
      if size < MIN_LOCAL {
        budget := MIN_LOCAL - size;
      } else if iters[core] % CHECK_INTERVAL == 0 {
        budget := 1;
      }
      if budget > MAX_ADMISSIONS {
        budget := MAX_ADMISSIONS;
      }
      if budget > 0 {
        var ok := AdmitOne(core, now);
      }
    }

    /** `local_queue_remove`. */
    method Pick(core: nat) returns (t: Option<nat>, ghost i: nat)
      requires Valid() && core < cores
      modifies `queues, `home
      ensures Valid() && |home| == |threads|
      ensures var b := Buckets(Some(core), PriorityOrder(iters[core] % 7));
              && i <= |b| && (t == None <==> i == |b|) && (forall j :: 0 <= j < i ==> In(old(queues), b[j]) == [])
              && (t == None ==> queues == old(queues) && home == old(home))
              && (t.Some? ==>
                    && In(old(queues), b[i]) != [] && t.value == In(old(queues), b[i])[0] && 0 <= t.value < |threads|
                    && old(home[t.value]) == Some(b[i]) && home == old(home)[t.value := None]
                    && queues == old(queues)[b[i] := In(old(queues), b[i])[1..]])
    {
      hide Inv, Buckets, PriorityOrder;
      t, i := RemoveFirst(Buckets(Some(core), PriorityOrder(iters[core] % 7)));
    }

    /** Wakes what is to be woken, and takes over what others have woken. */
    method WakeAll(core: nat, now: nat) returns (ghost tr: Trace)
      requires Valid() && core < cores
      modifies `queues, `home
      ensures Kept(core, now, true) && In(queues, Deferred(core)) == [] && In(queues, Pinned(core)) == []
      ensures forall x :: x in In(queues, Sleeping(core)) ==> x < |threads| && threads[x].wakeup > now
      ensures WakesAll(threads, old(queues), core, now, tr.deferred, tr.due, tr.slept, tr.woken) && tr.woken == queues
    {
      hide Inv, Tracks, Track, In, WokenInto, DueFirst, Woken;
      WakeDeferred(core, now);
      ghost var hs, deferred := home, queues;
      ghost var due := WakeSleepers(core, now);
      TrackMore(threads, old(home), threads, hs, threads, home, core, now, true, true);
      ghost var slept := queues;
      hs := home;
      TakePinned(core, now);
      TrackMore(threads, old(home), threads, hs, threads, home, core, now, true, true);
      tr := Trace(deferred, due, slept, queues, queues, queues, queues);
    }

    /** The pass up to the choice: everything that is to be woken is, every class that was ready
        here still is, and if the core has no ready thread then there is none that it could take. */
    method Prepare(core: nat, now: nat) returns (ghost tr: Trace)
      requires Valid() && core < cores
      modifies this
      ensures Kept(core, now, false) && Settled(queues, threads, core, now)
      ensures forall p :: ClassReady(old(threads), old(home), core, p) ==> ClassReady(threads, home, core, p)
      ensures iters == old(iters) && boost == old(boost)[core := false] && rebalance == old(rebalance)[core := false]
      ensures Prepared(old(Whole()), core, cores, now, tr, Whole()) && tr.ready == queues
    {
      hide Inv, Tracks, Track, In, Lifted, NoneReady, NoneShared, ClassReady, WakesAll, BalancedTo, Boosted, AllRaised,
           Admits;
      tr := WakeAll(core, now);
      StaysReady(old(threads), old(home), threads, home, core, now);
      Loosen(old(threads), old(home), threads, home, core, now);
      ghost var ths, hs, qs := threads, home, queues;
      if rebalance[core] {
        Rebalance(core, now);
        TrackMore(old(threads), old(home), ths, hs, threads, home, core, now, false, false);
        BucketsReady(qs, ths, hs, queues, threads, home, cores, core);
        rebalance := rebalance[core := false];
      }
      ths, hs, qs := threads, home, queues;
      tr := tr.(balanced := queues);
      if boost[core] {
        Boost(core, now);
        TrackMore(old(threads), old(home), ths, hs, threads, home, core, now, false, true);
        StaysReady(ths, hs, threads, home, core, now);
        boost := boost[core := false];
        LiftedElsewhere(qs, core);
        BoostedIs(qs, queues, core);
        StillAsleep(ths, hs, threads, home, core, now, In(queues, Sleeping(core)));
      }
      ths, hs := threads, home;
      tr := tr.(boosted := queues);
      Admit(core, now);
      tr := tr.(ready := queues);
      StaysReady(ths, hs, threads, home, core, now);
      TrackMore(old(threads), old(home), ths, hs, threads, home, core, now, false, true);
    }

    /** `schedule_next_thread`, at time `now`.  No thread is lost or gained; the core runs a thread
        that it may run whenever there is one, and one of the class whose turn it is if that class
        is ready. */
    method ScheduleNext(core: nat, now: nat) returns (next: Option<nat>, ghost tr: Trace)
      requires Valid() && core < cores
      modifies this
      ensures Valid() && Passed(old(Shown()), core, now, next, Shown())
      ensures Passes(old(Whole()), core, cores, now, tr, next, Whole())
    {
      hide Inv, Tracks, In, Buckets, PriorityOrder, Settled, Runnable, ClassReady, WakesAll, BalancedTo, Boosted,
           AllRaised, Admits, Chooses, NoneReady, NoneShared;
      SameLength(queues, threads, home, cores);
      tr := Prepare(core, now);
      ghost var qs, hs := queues, home;
      ghost var i: nat;
      next, i := Pick(core);
      assert Turn(iters[core]) == PriorityOrder(iters[core] % 7)[0];
      Chosen(old(threads), old(home), qs, threads, hs, cores, core, now, iters[core] % 7, next, i);
      ChoosesIs(qs, threads, hs, cores, core, iters[core], next, i, queues);
      iters := iters[core := (iters[core] + 1) % MODULUS];
    }
  }
}
