/** The reusable two-turnstile barrier, over semaphores.

    The blocking lock of the barrier is a semaphore too, so a thread in `barrier_sync` does
    nothing but `sem_down`, `sem_up` and two counter updates.  Each step below is one
    critical section of a semaphore, or one counter update; a run is any interleaving of the
    steps of `n` threads that call `barrier_sync` over and over.
  */
module Barrier {
  import opened Sequences
  import opened Words

  const NONE := -1
  const MUTEX := 0
  const GATE1 := 1
  const GATE2 := 2

  /** The places in `barrier_sync`, in the order of the code. */
  datatype Place =
    | Lock1 | Arrive | Close2 | Open1 | Unlock1 | Turn1 | Pass1
    | Lock2 | Depart | Close1 | Open2 | Unlock2 | Turn2 | Pass2

  datatype Instr = Down(sem: nat) | Up(sem: nat) | Count

  function Code(p: Place): Instr {
    match p
    case Lock1 => Down(MUTEX)
    case Arrive => Count
    case Close2 => Down(GATE2)
    case Open1 => Up(GATE1)
    case Unlock1 => Up(MUTEX)
    case Turn1 => Down(GATE1)
    case Pass1 => Up(GATE1)
    case Lock2 => Down(MUTEX)
    case Depart => Count
    case Close1 => Down(GATE1)
    case Open2 => Up(GATE2)
    case Unlock2 => Up(MUTEX)
    case Turn2 => Down(GATE2)
    case Pass2 => Up(GATE2)
  }

  /** Where control goes after a semaphore operation. */
  function Next(p: Place): Place {
    match p
    case Lock1 => Arrive
    case Arrive => Unlock1
    case Close2 => Open1
    case Open1 => Unlock1
    case Unlock1 => Turn1
    case Turn1 => Pass1
    case Pass1 => Lock2
    case Lock2 => Depart
    case Depart => Unlock2
    case Close1 => Open2
    case Open2 => Unlock2
    case Unlock2 => Turn2
    case Turn2 => Pass2
    case Pass2 => Lock1
  }

  /** `Ready` to run; `Parking`, having found the count at zero and being about to run the
      callback of `block`; or `Waiting` in the queue of the semaphore. */
  datatype Mode = Ready | Parking | Waiting

  /** `entered` counts the arrivals of the thread, `left` the times it has come out. */
  datatype Thread = Thread(at: Place, mode: Mode, entered: nat, left: nat)

  datatype Sem = Sem(count: nat, queue: seq<nat>)

  datatype State = State(threads: seq<Thread>, sems: seq<Sem>, count: int)

  function Start(n: nat): State {
    State(seq(n, _ => Thread(Lock1, Ready, 0, 0)), [Sem(1, []), Sem(0, []), Sem(1, [])], n)
  }

  /** The thread leaves its semaphore operation behind. */
  function Advance(me: Thread): Thread {
    me.(at := Next(me.at), mode := Ready, left := if me.at == Pass2 then me.left + 1 else me.left)
  }

  function Counted(me: Thread, count: int, n: nat): Thread {
    if me.at == Arrive then me.(at := if count == 0 then Close2 else Unlock1, entered := me.entered + 1)
    else me.(at := if count == n then Close1 else Unlock2)
  }

  predicate Sane(s: State) {
    |s.sems| == 3 && forall k, i :: 0 <= k < 3 && 0 <= i < |s.sems[k].queue| ==> s.sems[k].queue[i] < |s.threads|
  }

  /** One step of thread `t`; none if it waits. */
  function Step(s: State, t: nat): Option<State>
    requires Sane(s)
  {
    if t >= |s.threads| || s.threads[t].mode == Waiting then None else
    var me := s.threads[t];
    match Code(me.at)
    case Count =>
      var count := if me.at == Arrive then s.count - 1 else s.count + 1;
      Some(s.(threads := s.threads[t := Counted(me, count, |s.threads|)], count := count))
    case Down(k) =>
      var sem := s.sems[k];
      if sem.count > 0 then
        Some(s.(threads := s.threads[t := Advance(me)], sems := s.sems[k := sem.(count := sem.count - 1)]))
      else if me.mode == Ready then
        Some(s.(threads := s.threads[t := me.(mode := Parking)]))
      else
        Some(s.(threads := s.threads[t := me.(mode := Waiting)], sems := s.sems[k := sem.(queue := sem.queue + [t])]))
    case Up(k) =>
      var sem := s.sems[k];
      if sem.queue == [] then
        Some(s.(threads := s.threads[t := Advance(me)], sems := s.sems[k := sem.(count := sem.count + 1)]))
      else
        var u := sem.queue[0];
        Some(s.(threads := s.threads[u := Advance(s.threads[u])][t := Advance(me)],
                sems := s.sems[k := sem.(queue := sem.queue[1..])]))
  }

  // ----- What holds in every reachable state -----

  /** Which gate is open, or who is about to open one. */
  datatype Phase = Arriving | Opening(who: nat) | Departing | Closing(who: nat)

  /** The phase; the thread between the two halves of a turnstile; the holder of the lock; and
      the generation, counted from 0. */
  datatype Hist = Hist(phase: Phase, token: int, holder: int, gen: nat)

  predicate InLock(p: Place) {
    p in {Arrive, Close2, Open1, Unlock1, Depart, Close1, Open2, Unlock2}
  }

  /** Between counting itself in and counting itself out. */
  predicate Inside(p: Place) {
    p in {Close2, Open1, Unlock1, Turn1, Pass1, Lock2, Depart}
  }

  ghost predicate PhaseOk(s: State, h: Hist, t: nat)
    requires t < |s.threads|
  {
    var me := s.threads[t];
    match h.phase
    case Arriving =>
      && me.at in {Unlock2, Turn2, Pass2, Lock1, Arrive, Close2, Unlock1, Turn1}
      && me.entered == h.gen + (if Inside(me.at) then 1 else 0)
      && (me.at == Close2 ==> s.count == 0)
    case Opening(u) =>
      && me.at in {Open1, Unlock1, Turn1} && (me.at == Open1 <==> t == u) && me.entered == h.gen + 1
    case Departing =>
      && me.at in {Unlock1, Turn1, Pass1, Lock2, Depart, Close1, Unlock2, Turn2}
      && me.entered == h.gen + 1
      && (me.at == Close1 ==> s.count == |s.threads|)
    case Closing(u) =>
      && me.at in {Open2, Unlock2, Turn2} && (me.at == Open2 <==> t == u) && me.entered == h.gen + 1
  }

  ghost predicate ThreadOk(s: State, h: Hist, t: nat)
    requires t < |s.threads|
  {
    var me := s.threads[t];
    && PhaseOk(s, h, t)
    && (InLock(me.at) <==> h.holder == t)
    && (me.at == Pass1 || me.at == Pass2 <==> h.token == t)
    && (me.mode != Ready ==> me.at in {Lock1, Lock2, Turn1, Turn2})
    && me.entered == me.left + (if me.at == Lock1 || me.at == Arrive then 0 else 1)
  }

  ghost predicate Queued(s: State, k: nat, t: nat)
    requires t < |s.threads|
  {
    s.threads[t].mode == Waiting && Code(s.threads[t].at) == Down(k)
  }

  ghost predicate SemOk(s: State, k: nat)
    requires Sane(s) && k < 3
  {
    var q := s.sems[k].queue;
    && (s.sems[k].count > 0 ==> q == [])
    && Once(q)
    && (forall t :: 0 <= t < |s.threads| ==> (t in q <==> Queued(s, k, t)))
  }

  ghost function InsideSet(s: State): set<nat> {
    set t: nat | t < |s.threads| && Inside(s.threads[t].at)
  }

  ghost predicate CountsOk(s: State, h: Hist)
    requires Sane(s)
  {
    && NONE <= h.holder < |s.threads| && NONE <= h.token < |s.threads|
    && s.sems[MUTEX].count == (if h.holder == NONE then 1 else 0)
    && s.sems[GATE1].count == (if h.phase == Departing && h.token == NONE then 1 else 0)
    && s.sems[GATE2].count == (if h.phase == Arriving && h.token == NONE then 1 else 0)
    && (h.token != NONE ==> h.phase == Arriving || h.phase == Departing)
    && s.count == |s.threads| - |InsideSet(s)|
    && (h.phase.Opening? ==> h.phase.who < |s.threads|) && (h.phase.Closing? ==> h.phase.who < |s.threads|)
    && (h.phase == Arriving && s.count == 0 ==> h.holder != NONE && s.threads[h.holder].at == Close2)
    && (h.phase == Departing && s.count == |s.threads| ==> h.holder != NONE && s.threads[h.holder].at == Close1)
  }

  ghost predicate Inv(s: State, h: Hist) {
    && Sane(s) && CountsOk(s, h)
    && (forall t :: 0 <= t < |s.threads| ==> ThreadOk(s, h, t))
    && (forall k :: 0 <= k < 3 ==> SemOk(s, k))
  }

  lemma {:induction false} AllInside(s: set<nat>, n: nat)
    requires |s| == n && forall t :: t in s ==> t < n
    ensures forall t: nat :: t < n ==> t in s
  {
    if n > 0 {
      if n - 1 in s {
        AllInside(s - {n - 1}, n - 1);
      } else {
        AtMost(s, n - 1);
      }
    }
  }

  lemma {:induction false} AtMost(s: set<nat>, n: nat)
    requires forall t :: t in s ==> t < n
    ensures |s| <= n
  {
    if n == 0 {
      assert s == {};
    } else {
      AtMost(s - {n - 1}, n - 1);
    }
  }

  // ----- Every step keeps it -----

  /** The history after a step. */
  ghost function After(s: State, h: Hist, t: nat): Hist
    requires Sane(s) && t < |s.threads|
  {
    var me := s.threads[t];
    match Code(me.at)
    case Count => h
    case Down(k) =>
      if s.sems[k].count == 0 then h
      else if k == MUTEX then h.(holder := t)
      else if me.at == Close2 then h.(phase := Opening(t))
      else if me.at == Close1 then h.(phase := Closing(t))
      else h.(token := t)
    case Up(k) =>
      var u := if s.sems[k].queue == [] then NONE else s.sems[k].queue[0];
      if k == MUTEX then h.(holder := u)
      else if me.at == Open1 then h.(phase := Departing, token := u)
      else if me.at == Open2 then h.(phase := Arriving, token := u, gen := h.gen + 1)
      else h.(token := u)
  }

  ghost predicate CanCount(s: State, h: Hist, t: nat) {
    Inv(s, h) && t < |s.threads| && Code(s.threads[t].at).Count?
  }

  lemma CountThread(s: State, h: Hist, t: nat, u: nat)
    requires CanCount(s, h, t) && u < |s.threads|
    ensures ThreadOk(s, h, t) && Step(s, t).Some? && ThreadOk(Step(s, t).value, h, u)
  {
    hide SemOk, InsideSet;
    assert ThreadOk(s, h, t) && ThreadOk(s, h, u);
  }

  lemma OneInside(s: State, s': State, t: nat)
    requires t < |s.threads| == |s'.threads| && Inside(s.threads[t].at) != Inside(s'.threads[t].at)
    requires forall u :: 0 <= u < |s.threads| && u != t ==> s'.threads[u].at == s.threads[u].at
    ensures |InsideSet(s')| == |InsideSet(s)| + (if Inside(s.threads[t].at) then -1 else 1)
  {
    if Inside(s.threads[t].at) {
      assert InsideSet(s') == InsideSet(s) - {t};
    } else {
      assert InsideSet(s') == InsideSet(s) + {t};
    }
  }

  lemma CountInside(s: State, h: Hist, t: nat)
    requires CanCount(s, h, t)
    ensures Step(s, t).Some? && CountsOk(Step(s, t).value, h)
  {
    hide SemOk, InsideSet;
    assert ThreadOk(s, h, t);
    OneInside(s, Step(s, t).value, t);
  }

  lemma CountStep(s: State, h: Hist, t: nat)
    requires CanCount(s, h, t)
    ensures Step(s, t).Some? && Inv(Step(s, t).value, h)
  {
    hide ThreadOk, CountsOk;
    CountInside(s, h, t);
    var s' := Step(s, t).value;
    forall u | 0 <= u < |s.threads| ensures ThreadOk(s', h, u) { CountThread(s, h, t, u); }
    forall k | 0 <= k < 3 ensures SemOk(s', k) { assert SemOk(s, k); }
  }

  lemma SameInside(s: State, s': State)
    requires |s'.threads| == |s.threads|
    requires forall u :: 0 <= u < |s.threads| ==> (Inside(s'.threads[u].at) <==> Inside(s.threads[u].at))
    ensures InsideSet(s') == InsideSet(s)
  {
  }

  lemma ParkThread(s: State, h: Hist, t: nat, k: nat, u: nat)
    requires Inv(s, h) && t < |s.threads| && s.threads[t].mode != Waiting && u < |s.threads|
    requires Code(s.threads[t].at) == Down(k) && k < 3 && s.sems[k].count == 0
    requires s.threads[t].at != Close1 && s.threads[t].at != Close2
    ensures ThreadOk(Step(s, t).value, h, u)
  {
    assert ThreadOk(s, h, u);
  }

  lemma ParkSem(s: State, h: Hist, t: nat, k: nat, j: nat)
    requires Inv(s, h) && t < |s.threads| && s.threads[t].mode != Waiting && j < 3
    requires Code(s.threads[t].at) == Down(k) && k < 3 && s.sems[k].count == 0
    ensures Sane(Step(s, t).value) && SemOk(Step(s, t).value, j)
  {
    hide CountsOk, ThreadOk;
    assert SemOk(s, j);
    var s' := Step(s, t).value;
    var q, q' := s.sems[j].queue, s'.sems[j].queue;
    assert q' == if s.threads[t].mode == Parking && j == k then q + [t] else q;
    assert t !in q;
    forall u | 0 <= u < |s.threads| ensures u in q' <==> Queued(s', j, u) {
      assert u in q <==> Queued(s, j, u);
    }
  }

  lemma ParkStep(s: State, h: Hist, t: nat, k: nat)
    requires Inv(s, h) && t < |s.threads| && s.threads[t].mode != Waiting
    requires Code(s.threads[t].at) == Down(k) && k < 3 && s.sems[k].count == 0
    requires s.threads[t].at != Close1 && s.threads[t].at != Close2
    ensures Step(s, t).Some? && Inv(Step(s, t).value, h)
  {
    hide ThreadOk, SemOk, InsideSet;
    var s' := Step(s, t).value;
    SameInside(s, s');
    forall u | 0 <= u < |s.threads| ensures ThreadOk(s', h, u) { ParkThread(s, h, t, k, u); }
    forall j | 0 <= j < 3 ensures SemOk(s', j) { ParkSem(s, h, t, k, j); }
  }

  /** When the last thread has arrived, and when the last has departed, the other gate is
      open and nobody is in its turnstile. */
  lemma CloseReady(s: State, h: Hist, t: nat)
    requires Inv(s, h) && t < |s.threads|
    ensures s.threads[t].at == Close2 ==> s.threads[t].mode == Ready && s.sems[GATE2].count == 1 && h.phase == Arriving
    ensures s.threads[t].at == Close2 ==> forall u :: 0 <= u < |s.threads| ==> Inside(s.threads[u].at)
    ensures s.threads[t].at == Close1 ==> s.threads[t].mode == Ready && s.sems[GATE1].count == 1 && h.phase == Departing
    ensures s.threads[t].at == Close1 ==> forall u :: 0 <= u < |s.threads| ==> !Inside(s.threads[u].at)
  {
    hide SemOk;
    assert ThreadOk(s, h, t);
    assert h.token != NONE ==> ThreadOk(s, h, h.token);
    if s.count == 0 {
      AllInside(InsideSet(s), |s.threads|);
      forall u | 0 <= u < |s.threads| ensures Inside(s.threads[u].at) { assert u in InsideSet(s); }
    } else if s.count == |s.threads| {
      assert InsideSet(s) == {};
      forall u | 0 <= u < |s.threads| ensures !Inside(s.threads[u].at) { assert u !in InsideSet(s); }
    }
  }

  ghost predicate CanTake(s: State, h: Hist, t: nat, k: nat) {
    && Inv(s, h) && t < |s.threads| && s.threads[t].mode != Waiting
    && Code(s.threads[t].at) == Down(k) && k < 3 && s.sems[k].count > 0
  }

  lemma TakeThread(s: State, h: Hist, t: nat, k: nat, u: nat)
    requires CanTake(s, h, t, k) && u < |s.threads|
    ensures Step(s, t).Some? && ThreadOk(Step(s, t).value, After(s, h, t), u)
  {
    hide SemOk;
    assert ThreadOk(s, h, t) && ThreadOk(s, h, u);
    CloseReady(s, h, t);
  }

  lemma TakeSem(s: State, h: Hist, t: nat, k: nat, j: nat)
    requires CanTake(s, h, t, k) && j < 3
    ensures Sane(Step(s, t).value) && SemOk(Step(s, t).value, j)
  {
    hide CountsOk, ThreadOk;
    assert SemOk(s, j);
    var s' := Step(s, t).value;
    forall u | 0 <= u < |s.threads| ensures u in s'.sems[j].queue <==> Queued(s', j, u) {
      assert u in s.sems[j].queue <==> Queued(s, j, u);
    }
  }

  lemma TakeStep(s: State, h: Hist, t: nat, k: nat)
    requires CanTake(s, h, t, k)
    ensures Step(s, t).Some? && Inv(Step(s, t).value, After(s, h, t))
  {
    hide SemOk, InsideSet;
    var s', h' := Step(s, t).value, After(s, h, t);
    assert ThreadOk(s, h, t);
    CloseReady(s, h, t);
    SameInside(s, s');
    forall u | 0 <= u < |s.threads| ensures ThreadOk(s', h', u) { TakeThread(s, h, t, k, u); }
    forall j | 0 <= j < 3 ensures SemOk(s', j) { TakeSem(s, h, t, k, j); }
  }

  ghost predicate CanUp(s: State, h: Hist, t: nat, k: nat) {
    && Inv(s, h) && t < |s.threads| && s.threads[t].mode != Waiting
    && Code(s.threads[t].at) == Up(k) && k < 3
  }

  /** The first in the queue waits at a place where it takes from this semaphore. */
  lemma FirstWaits(s: State, h: Hist, k: nat)
    requires Inv(s, h) && k < 3 && s.sems[k].queue != []
    ensures var w := s.sems[k].queue[0];
            && w < |s.threads| && Queued(s, k, w) && s.sems[k].count == 0
            && s.threads[w].at in {Lock1, Lock2, Turn1, Turn2} && ThreadOk(s, h, w)
  {
    var w := s.sems[k].queue[0];
    assert w in s.sems[k].queue;
    assert SemOk(s, k) && ThreadOk(s, h, w);
  }

  lemma GiveThread(s: State, h: Hist, t: nat, k: nat, u: nat)
    requires CanUp(s, h, t, k) && u < |s.threads| && s.sems[k].queue == []
    ensures Step(s, t).Some? && ThreadOk(Step(s, t).value, After(s, h, t), u)
  {
    hide SemOk;
    assert ThreadOk(s, h, t) && ThreadOk(s, h, u);
  }

  lemma WakePhase(s: State, h: Hist, t: nat, k: nat, u: nat)
    requires CanUp(s, h, t, k) && u < |s.threads| && s.sems[k].queue != []
    ensures Step(s, t).Some? && PhaseOk(Step(s, t).value, After(s, h, t), u)
  {
    hide SemOk, InsideSet;
    FirstWaits(s, h, k);
    assert ThreadOk(s, h, t) && ThreadOk(s, h, u);
  }

  lemma OpenPhase(s: State, h: Hist, t: nat)
    requires Inv(s, h) && t < |s.threads|
    ensures s.threads[t].at == Open1 ==> h.phase == Opening(t)
    ensures s.threads[t].at == Open2 ==> h.phase == Closing(t)
  {
    assert ThreadOk(s, h, t);
  }

  lemma WakeThread(s: State, h: Hist, t: nat, k: nat, u: nat)
    requires CanUp(s, h, t, k) && u < |s.threads| && s.sems[k].queue != []
    ensures Step(s, t).Some? && ThreadOk(Step(s, t).value, After(s, h, t), u)
  {
    hide SemOk, PhaseOk, InsideSet;
    FirstWaits(s, h, k);
    WakePhase(s, h, t, k, u);
    OpenPhase(s, h, t);
    assert ThreadOk(s, h, t) && ThreadOk(s, h, u);
  }

  lemma TailElements(q: seq<nat>, u: nat)
    requires q != [] && Once(q)
    ensures u in q[1..] <==> u in q && u != q[0]
  {
  }

  lemma UpSem(s: State, h: Hist, t: nat, k: nat, j: nat)
    requires CanUp(s, h, t, k) && j < 3
    ensures Step(s, t).Some? && Sane(Step(s, t).value) && SemOk(Step(s, t).value, j)
  {
    hide CountsOk, ThreadOk;
    assert SemOk(s, j) && SemOk(s, k);
    if s.sems[k].queue != [] { FirstWaits(s, h, k); }
    var s' := Step(s, t).value;
    forall u | 0 <= u < |s.threads| ensures u in s'.sems[j].queue <==> Queued(s', j, u) {
      assert u in s.sems[j].queue <==> Queued(s, j, u);
      if s.sems[j].queue != [] { TailElements(s.sems[j].queue, u); }
    }
  }

  lemma UpInside(s: State, h: Hist, t: nat, k: nat)
    requires CanUp(s, h, t, k)
    ensures Step(s, t).Some? && InsideSet(Step(s, t).value) == InsideSet(s)
  {
    hide SemOk, CountsOk, InsideSet;
    if s.sems[k].queue != [] { FirstWaits(s, h, k); }
    SameInside(s, Step(s, t).value);
  }

  lemma OpenCounts(s: State, h: Hist, t: nat)
    requires Inv(s, h) && t < |s.threads|
    ensures Inside(s.threads[t].at) ==> s.count < |s.threads|
    ensures !Inside(s.threads[t].at) ==> s.count > 0
  {
    hide SemOk, ThreadOk;
    AtMost(InsideSet(s), |s.threads|);
    if |InsideSet(s)| == |s.threads| { AllInside(InsideSet(s), |s.threads|); }
    assert t in InsideSet(s) <==> Inside(s.threads[t].at);
  }

  lemma GiveCounts(s: State, h: Hist, t: nat, k: nat)
    requires CanUp(s, h, t, k) && s.sems[k].queue == []
    ensures Step(s, t).Some? && Sane(Step(s, t).value) && CountsOk(Step(s, t).value, After(s, h, t))
  {
    hide SemOk, InsideSet;
    assert ThreadOk(s, h, t);
    OpenCounts(s, h, t);
    UpInside(s, h, t, k);
  }

  lemma WakeCounts(s: State, h: Hist, t: nat, k: nat)
    requires CanUp(s, h, t, k) && s.sems[k].queue != []
    ensures Step(s, t).Some? && Sane(Step(s, t).value) && CountsOk(Step(s, t).value, After(s, h, t))
  {
    hide SemOk, InsideSet;
    assert ThreadOk(s, h, t);
    FirstWaits(s, h, k);
    OpenCounts(s, h, t);
    UpInside(s, h, t, k);
  }

  lemma UpStep(s: State, h: Hist, t: nat, k: nat)
    requires CanUp(s, h, t, k)
    ensures Step(s, t).Some? && Inv(Step(s, t).value, After(s, h, t))
  {
    hide SemOk, ThreadOk, CountsOk;
    var s', h' := Step(s, t).value, After(s, h, t);
    if s.sems[k].queue == [] {
      GiveCounts(s, h, t, k);
      forall u | 0 <= u < |s.threads| ensures ThreadOk(s', h', u) { GiveThread(s, h, t, k, u); }
    } else {
      WakeCounts(s, h, t, k);
      forall u | 0 <= u < |s.threads| ensures ThreadOk(s', h', u) { WakeThread(s, h, t, k, u); }
    }
    forall j | 0 <= j < 3 ensures SemOk(s', j) { UpSem(s, h, t, k, j); }
  }

  /** A thread that does not wait can always step, and the invariant is kept. */
  lemma StepInv(s: State, h: Hist, t: nat)
    requires Inv(s, h) && t < |s.threads| && s.threads[t].mode != Waiting
    ensures Step(s, t).Some? && Inv(Step(s, t).value, After(s, h, t))
  {
    match Code(s.threads[t].at)
    case Count => CountStep(s, h, t);
    case Up(k) => UpStep(s, h, t, k);
    case Down(k) =>
      if s.sems[k].count > 0 {
        TakeStep(s, h, t, k);
      } else {
        CloseReady(s, h, t);
        ParkStep(s, h, t, k);
      }
  }

  lemma StartInv(n: nat)
    requires n > 0
    ensures Inv(Start(n), Hist(Arriving, NONE, NONE, 0))
  {
    var s, h := Start(n), Hist(Arriving, NONE, NONE, 0);
    assert InsideSet(s) == {};
    forall t | 0 <= t < n ensures ThreadOk(s, h, t) { assert s.threads[t].at == Lock1; }
  }

  // ----- Runs -----

  /** `s` is where the threads of `run`, each taking one step, lead from the start. */
  ghost predicate Reaches(n: nat, run: seq<nat>, s: State)
    decreases run
  {
    if run == [] then s == Start(n)
    else exists r :: Reaches(n, run[..|run| - 1], r) && Sane(r) && Step(r, run[|run| - 1]) == Some(s)
  }

  lemma Stepped(s: State, t: nat)
    requires Sane(s) && Step(s, t).Some?
    ensures t < |s.threads| && s.threads[t].mode != Waiting && |Step(s, t).value.threads| == |s.threads|
  {
  }

  lemma {:induction false} RunInv(n: nat, run: seq<nat>, s: State) returns (h: Hist)
    requires n > 0 && Reaches(n, run, s)
    ensures Inv(s, h) && |s.threads| == n
    decreases |run|
  {
    hide Inv, Step, After;
    if run == [] {
      h := Hist(Arriving, NONE, NONE, 0);
      StartInv(n);
    } else {
      var before, t := run[..|run| - 1], run[|run| - 1];
      var r :| Reaches(n, before, r) && Sane(r) && Step(r, t) == Some(s);
      var g := RunInv(n, before, r);
      Stepped(r, t);
      StepInv(r, g, t);
      h := After(r, g, t);
    }
  }

  // ----- What every run guarantees -----

  /** No thread gets past the first gate in a generation before all have arrived in it, so
      none comes out before that, and none is ever more than one generation ahead. */
  lemma NoneLeavesEarly(n: nat, run: seq<nat>, s: State, t: nat, u: nat)
    requires n > 0 && Reaches(n, run, s) && t < |s.threads| && u < |s.threads|
    ensures s.threads[t].at in {Pass1, Lock2, Depart, Close1, Open2, Unlock2, Turn2, Pass2} ==>
            s.threads[t].entered <= s.threads[u].entered
    ensures s.threads[t].left <= s.threads[u].entered
    ensures s.threads[t].entered <= s.threads[u].entered + 1
  {
    var h := RunInv(n, run, s);
    assert ThreadOk(s, h, t) && ThreadOk(s, h, u);
  }

  /** Nor does one arrive in a generation before all have left the gate of the one before. */
  lemma NoneArrivesEarly(n: nat, run: seq<nat>, s: State, t: nat, u: nat)
    requires n > 0 && Reaches(n, run, s) && t < |s.threads| && u < |s.threads|
    ensures s.threads[t].entered > s.threads[u].entered ==>
              s.threads[u].at in {Unlock2, Turn2, Pass2, Lock1, Arrive} && s.threads[t].at in {Close2, Unlock1, Turn1}
  {
    var h := RunInv(n, run, s);
    assert ThreadOk(s, h, t) && ThreadOk(s, h, u);
  }

  /** The two `sem_down` calls under the lock find a positive count. */
  lemma GatesCloseAtOnce(n: nat, run: seq<nat>, s: State, t: nat)
    requires n > 0 && Reaches(n, run, s) && t < |s.threads|
    ensures Sane(s)
    ensures s.threads[t].at == Close1 ==> s.threads[t].mode == Ready && s.sems[GATE1].count > 0
    ensures s.threads[t].at == Close2 ==> s.threads[t].mode == Ready && s.sems[GATE2].count > 0
  {
    var h := RunInv(n, run, s);
    CloseReady(s, h, t);
  }

  lemma NotQueued(s: State, k: nat, t: nat)
    requires Sane(s) && k < 3 && SemOk(s, k) && s.sems[k].count > 0 && t < |s.threads|
    ensures Code(s.threads[t].at) == Down(k) ==> s.threads[t].mode != Waiting
  {
    assert t in s.sems[k].queue <==> Queued(s, k, t);
  }

  lemma {:induction false} Everyone(s: set<nat>, n: nat)
    requires forall t: nat :: t < n ==> t in s
    ensures |s| >= n
  {
    if n > 0 { Everyone(s - {n - 1}, n - 1); }
  }

  /** A thread outside while not all are inside, and one inside while not all are outside. */
  lemma SomeoneElse(s: State, h: Hist)
    requires Inv(s, h)
    ensures 0 <= s.count <= |s.threads|
    ensures s.count > 0 ==> exists t :: 0 <= t < |s.threads| && !Inside(s.threads[t].at)
    ensures s.count < |s.threads| ==> exists t :: 0 <= t < |s.threads| && Inside(s.threads[t].at)
  {
    hide SemOk, ThreadOk;
    AtMost(InsideSet(s), |s.threads|);
    if forall t :: 0 <= t < |s.threads| ==> Inside(s.threads[t].at) { Everyone(InsideSet(s), |s.threads|); }
    if s.count < |s.threads| {
      var t :| t in InsideSet(s);
      assert Inside(s.threads[t].at);
    }
  }

  lemma SomeoneRuns(s: State, h: Hist) returns (t: nat)
    requires Inv(s, h) && |s.threads| > 0
    ensures t < |s.threads| && s.threads[t].mode != Waiting
  {
    hide InsideSet;
    if h.holder != NONE {
      t := h.holder;
    } else if h.token != NONE {
      t := h.token;
    } else {
      SomeoneElse(s, h);
      match h.phase {
        case Opening(u) => t := u;
        case Closing(u) => t := u;
        case Arriving => t :| t < |s.threads| && !Inside(s.threads[t].at);
        case Departing => t :| t < |s.threads| && Inside(s.threads[t].at);
      }
      assert SemOk(s, MUTEX) && SemOk(s, GATE1) && SemOk(s, GATE2);
      NotQueued(s, MUTEX, t);
      if h.phase == Arriving { NotQueued(s, GATE2, t); }
      if h.phase == Departing { NotQueued(s, GATE1, t); }
    }
    assert ThreadOk(s, h, t);
  }

  /** The threads never all wait: some thread can take a step. */
  lemma NoDeadlock(n: nat, run: seq<nat>, s: State)
    requires n > 0 && Reaches(n, run, s)
    ensures Sane(s) && exists t :: 0 <= t < |s.threads| && Step(s, t).Some?
  {
    hide Step;
    var h := RunInv(n, run, s);
    var t := SomeoneRuns(s, h);
    StepInv(s, h, t);
  }

  // ----- Progress -----

  function Pos(p: Place): nat {
    match p
    case Lock1 => 0
    case Arrive => 1
    case Close2 => 2
    case Open1 => 3
    case Unlock1 => 4
    case Turn1 => 5
    case Pass1 => 6
    case Lock2 => 7
    case Depart => 8
    case Close1 => 9
    case Open2 => 10
    case Unlock2 => 11
    case Turn2 => 12
    case Pass2 => 13
  }

  /** How far a thread has come: a round is 14 places, and a thread is at most three ways at
      each. */
  const ROUND := 42

  function Rank(me: Thread): nat {
    ROUND * me.left + 3 * Pos(me.at) + (match me.mode case Ready => 0 case Parking => 1 case Waiting => 2)
  }

  function Total(ts: seq<Thread>): nat {
    if ts == [] then 0 else Rank(ts[0]) + Total(ts[1..])
  }

  lemma {:induction false} TotalUpdate(ts: seq<Thread>, t: nat, me: Thread)
    requires t < |ts|
    ensures Total(ts[t := me]) == Total(ts) - Rank(ts[t]) + Rank(me)
  {
    hide Rank;
    if t == 0 {
      assert ts[t := me][1..] == ts[1..];
    } else {
      assert ts[t := me][1..] == ts[1..][t - 1 := me];
      TotalUpdate(ts[1..], t - 1, me);
    }
  }

  lemma {:induction false} TotalBound(ts: seq<Thread>, b: nat)
    requires forall t :: 0 <= t < |ts| ==> Rank(ts[t]) <= b
    ensures Total(ts) <= |ts| * b
  {
    hide Rank;
    if ts != [] {
      assert Rank(ts[0]) <= b;
      TotalBound(ts[1..], b);
      assert |ts| * b == b + (|ts| - 1) * b;
    }
  }

  lemma RankUp(me: Thread, count: int, n: nat)
    ensures Rank(Advance(me)) > Rank(me)
    ensures Code(me.at).Count? ==> Rank(Counted(me, count, n)) > Rank(me)
  {
  }

  /** Every step of every thread, parking and waiting too, is progress. */
  lemma StepTotal(s: State, t: nat)
    requires Sane(s) && Step(s, t).Some?
    ensures Total(Step(s, t).value.threads) > Total(s.threads)
  {
    var me := s.threads[t];
    var s' := Step(s, t).value;
    TotalUpdate(s.threads, t, s'.threads[t]);
    match Code(me.at)
    case Count => RankUp(me, s'.count, |s.threads|);
    case Down(k) => RankUp(me, 0, 0);
    case Up(k) =>
      RankUp(me, 0, 0);
      if s.sems[k].queue != [] {
        var u := s.sems[k].queue[0];
        RankUp(s.threads[u], 0, 0);
        TotalUpdate(s.threads, u, Advance(s.threads[u]));
        TotalUpdate(s.threads[u := Advance(s.threads[u])], t, Advance(me));
      }
  }

  lemma {:induction false} RunTotal(n: nat, run: seq<nat>, s: State)
    requires Reaches(n, run, s)
    ensures Total(s.threads) >= |run|
    decreases |run|
  {
    hide Step, Total;
    if run == [] {
    } else {
      var before, t := run[..|run| - 1], run[|run| - 1];
      var r :| Reaches(n, before, r) && Sane(r) && Step(r, t) == Some(s);
      RunTotal(n, before, r);
      StepTotal(r, t);
    }
  }

  /** The number of steps by which every thread has come out `k` times. */
  function Enough(n: nat, k: nat): nat {
    n * (ROUND * (k + 1))
  }

  lemma RankAtMost(me: Thread, k: nat)
    requires me.left <= k
    ensures Rank(me) < ROUND * (k + 1)
  {
  }

  /** A thread that is late keeps all the others back. */
  lemma OthersWait(n: nat, run: seq<nat>, s: State, k: nat, t: nat, u: nat)
    requires n > 0 && Reaches(n, run, s) && t < |s.threads| && s.threads[t].left < k && u < |s.threads|
    ensures Rank(s.threads[u]) < ROUND * (k + 1)
  {
    hide Rank, Reaches;
    var h := RunInv(n, run, s);
    assert ThreadOk(s, h, t);
    NoneLeavesEarly(n, run, s, u, t);
    RankAtMost(s.threads[u], k);
  }

  lemma LateTotal(n: nat, run: seq<nat>, s: State, k: nat, t: nat)
    requires n > 0 && Reaches(n, run, s) && t < |s.threads| == n && s.threads[t].left < k
    ensures Total(s.threads) < Enough(n, k)
  {
    hide Rank, Total, Reaches;
    var b := ROUND * (k + 1);
    forall u | 0 <= u < n ensures Rank(s.threads[u]) <= b - 1 { OthersWait(n, run, s, k, t, u); }
    TotalBound(s.threads, b - 1);
    assert n * (b - 1) == n * b - n;
  }

  /** However the steps of the threads are interleaved, after `42 * n * (k + 1)` of them every
      thread has come out of the barrier `k` times: none can run on, and none can stay behind. */
  lemma AllComeOut(n: nat, run: seq<nat>, s: State, k: nat, t: nat)
    requires n > 0 && Reaches(n, run, s) && |run| >= Enough(n, k)
    ensures |s.threads| == n && (t < n ==> s.threads[t].left >= k)
  {
    hide Total, Reaches, Enough, Inv;
    var h := RunInv(n, run, s);
    RunTotal(n, run, s);
    if t < n && s.threads[t].left < k { LateTotal(n, run, s, k, t); }
  }

  lemma {:induction false} Extend(n: nat, run: seq<nat>, s: State, m: nat) returns (more: seq<nat>, r: State)
    requires n > 0 && Reaches(n, run, s)
    ensures |more| == m && Reaches(n, run + more, r)
  {
    hide Step;
    if m == 0 {
      more, r := [], s;
      assert run + more == run;
    } else {
      var before, q := Extend(n, run, s, m - 1);
      NoDeadlock(n, run + before, q);
      var t :| 0 <= t < |q.threads| && Step(q, t).Some?;
      more, r := before + [t], Step(q, t).value;
      assert (run + more)[..|run + more| - 1] == run + before;
      assert (run + more)[|run + more| - 1] == t;
    }
  }

  /** From every reachable state some continuation brings every thread out `k` times. */
  lemma EveryoneLeaves(n: nat, run: seq<nat>, s: State, k: nat) returns (more: seq<nat>, r: State)
    requires n > 0 && Reaches(n, run, s)
    ensures Reaches(n, run + more, r) && |r.threads| == n && forall t :: 0 <= t < n ==> r.threads[t].left >= k
  {
    hide Enough, Reaches;
    more, r := Extend(n, run, s, Enough(n, k));
    AllComeOut(n, run + more, r, k, 0);
    forall t | 0 <= t < n ensures r.threads[t].left >= k {
      AllComeOut(n, run + more, r, k, t);
    }
  }

  // ----- Who can step, and who is woken -----

  /** A thread has no step only while it is in the queue of a semaphore, whose count is then zero. */
  lemma OnlyQueuedWait(n: nat, run: seq<nat>, s: State, t: nat)
    requires n > 0 && Reaches(n, run, s) && t < n
    ensures Sane(s) && |s.threads| == n
    ensures Step(s, t).None? <==> exists k: nat :: k < 3 && t in s.sems[k].queue && s.sems[k].count == 0
  {
    hide Reaches;
    var h := RunInv(n, run, s);
    assert ThreadOk(s, h, t);
    if s.threads[t].mode == Waiting {
      var k := Code(s.threads[t].at).sem;
      assert Queued(s, k, t) && k < 3 && SemOk(s, k);
      assert t in s.sems[k].queue && s.sems[k].count == 0;
    }
    if exists k: nat :: k < 3 && t in s.sems[k].queue {
      var k: nat :| k < 3 && t in s.sems[k].queue;
      assert SemOk(s, k);
    }
  }

  /** When thread `t` last took a step. */
  ghost function LastStep(run: seq<nat>, t: nat): int {
    if run == [] then -1 else if run[|run| - 1] == t then |run| - 1 else LastStep(run[..|run| - 1], t)
  }

  lemma {:induction false} LastBound(run: seq<nat>, t: nat)
    ensures -1 <= LastStep(run, t) < |run|
  {
    if run != [] { LastBound(run[..|run| - 1], t); }
  }

  ghost predicate InTurn(run: seq<nat>, q: seq<nat>) {
    forall i, j :: 0 <= i < j < |q| ==> LastStep(run, q[i]) < LastStep(run, q[j])
  }

  lemma QueueStep(s: State, h: Hist, t: nat, k: nat)
    requires Inv(s, h) && Step(s, t).Some? && k < 3
    ensures var q, q' := s.sems[k].queue, Step(s, t).value.sems[k].queue;
            t !in q && (q' == q || q' == q + [t] || (q != [] && q' == q[1..]))
  {
    assert SemOk(s, k);
  }

  /** The queue of a semaphore is in the order in which the threads came to it. */
  lemma {:induction false} QueuesInTurn(n: nat, run: seq<nat>, s: State, k: nat)
    requires n > 0 && Reaches(n, run, s) && k < 3
    ensures Sane(s) && InTurn(run, s.sems[k].queue)
    decreases |run|
  {
    hide Step, Inv;
    if run != [] {
      var before, t := run[..|run| - 1], run[|run| - 1];
      var r :| Reaches(n, before, r) && Sane(r) && Step(r, t) == Some(s);
      QueuesInTurn(n, before, r, k);
      var h := RunInv(n, before, r);
      var g := RunInv(n, run, s);
      InvSane(s, g);
      QueueStep(r, h, t, k);
      var q := s.sems[k].queue;
      forall i, j | 0 <= i < j < |q| ensures LastStep(run, q[i]) < LastStep(run, q[j]) {
        LastBound(before, q[i]);
        assert q[i] != t && (j < |q| - 1 || q[j] == t || q[j] in r.sems[k].queue);
      }
    }
  }

  lemma InvSane(s: State, h: Hist)
    requires Inv(s, h)
    ensures Sane(s)
  {
  }

  /** A thread that a step of another one wakes has been in its queue longest. */
  lemma FirstIsWoken(n: nat, run: seq<nat>, s: State, t: nat, u: nat, v: nat)
    requires n > 0 && Reaches(n, run, s) && Sane(s) && Step(s, t).Some? && u < n && v < n && |s.threads| == n
    requires s.threads[u].mode == Waiting && |Step(s, t).value.threads| == n &&
             Step(s, t).value.threads[u].mode != Waiting
    requires u != v && s.threads[v].mode == Waiting && Code(s.threads[v].at) == Code(s.threads[u].at)
    ensures LastStep(run, u) < LastStep(run, v)
  {
    hide Reaches, LastStep;
    var h := RunInv(n, run, s);
    assert ThreadOk(s, h, u);
    var k := Code(s.threads[u].at).sem;
    assert k < 3;
    QueuesInTurn(n, run, s, k);
    assert SemOk(s, k) && Queued(s, k, u) && Queued(s, k, v);
    var q := s.sems[k].queue;
    WokenFirst(s, h, t, u);
    var j :| 0 <= j < |q| && q[j] == v;
  }

  lemma WokenFirst(s: State, h: Hist, t: nat, u: nat)
    requires Inv(s, h) && Step(s, t).Some? && u < |s.threads| && s.threads[u].mode == Waiting
    requires |Step(s, t).value.threads| == |s.threads| && Step(s, t).value.threads[u].mode != Waiting
    ensures Code(s.threads[u].at).Down? && Code(s.threads[u].at).sem < 3
    ensures var q := s.sems[Code(s.threads[u].at).sem].queue; q != [] && q[0] == u
  {
    assert ThreadOk(s, h, u);
    var k := Code(s.threads[t].at).sem;
    assert SemOk(s, k);
    assert s.sems[k].queue[0] == u;
    assert Queued(s, k, u);
  }
}
