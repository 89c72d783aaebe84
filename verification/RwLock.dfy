/** The write-preferring reader-writer lock.

    Every step is one critical section of the lock's own spin lock: the fast path of an
    acquire, the callback that `block` runs after the fast path has failed, or a release.
    A run is any interleaving of the steps of any number of threads.
  */
module RwLock {
  import opened Sequences
  import opened Words

  /** `Park...`: the fast path has failed and the callback has not run yet. */
  datatype Pc = Idle | ParkRead | WaitRead | Reading | ParkWrite | WaitWrite | Writing

  datatype State = State(threads: seq<Pc>, readers: nat, writerActive: bool, waitingReaders: seq<nat>,
                         waitingWriters: seq<nat>)

  datatype Action = AcquireRead | AddReader | ReleaseRead | AcquireWrite | AddWriter | ReleaseWrite

  datatype Event = Event(thread: nat, action: Action)

  function Start(n: nat): State {
    State(seq(n, _ => Idle), 0, false, [], [])
  }

  predicate ReadFree(s: State) {
    !s.writerActive && |s.waitingWriters| == 0
  }

  predicate WriteFree(s: State) {
    !s.writerActive && s.readers == 0
  }

  /** Takes the first waiting writer off the queue and makes it the owner. */
  function HandToWriter(s: State): State
    requires s.waitingWriters != []
  {
    var w := s.waitingWriters[0];
    s.(threads := if w < |s.threads| then s.threads[w := Writing] else s.threads,
       writerActive := true, waitingWriters := s.waitingWriters[1..])
  }

  /** Gives every waiting reader a slot. */
  function AdmitReaders(s: State): State {
    s.(threads :=
       seq(|s.threads|, t requires 0 <= t < |s.threads| => if t in s.waitingReaders then Reading else s.threads[t]),
       readers := s.readers + |s.waitingReaders|, waitingReaders := [])
  }

  /** One critical section of thread `e.thread`, if that is where it is. */
  function Step(s: State, e: Event): Option<State> {
    var t := e.thread;
    if t >= |s.threads| then None else
    match (s.threads[t], e.action)
    case (Idle, AcquireRead) =>
      Some(if ReadFree(s) then s.(readers := s.readers + 1, threads := s.threads[t := Reading])
           else s.(threads := s.threads[t := ParkRead]))
    case (ParkRead, AddReader) =>
      Some(if ReadFree(s) then s.(readers := s.readers + 1, threads := s.threads[t := Reading])
           else s.(waitingReaders := s.waitingReaders + [t], threads := s.threads[t := WaitRead]))
    case (Reading, ReleaseRead) =>
      if s.readers == 0 then None else
      var r := s.(readers := s.readers - 1, threads := s.threads[t := Idle]);
      Some(if r.readers == 0 && |r.waitingWriters| > 0 then HandToWriter(r) else r)
    case (Idle, AcquireWrite) =>
      Some(if WriteFree(s) then s.(writerActive := true, threads := s.threads[t := Writing])
           else s.(threads := s.threads[t := ParkWrite]))
    case (ParkWrite, AddWriter) =>
      Some(if WriteFree(s) then s.(writerActive := true, threads := s.threads[t := Writing])
           else s.(waitingWriters := s.waitingWriters + [t], threads := s.threads[t := WaitWrite]))
    case (Writing, ReleaseWrite) =>
      if !s.writerActive then None else
      var r := s.(writerActive := false, threads := s.threads[t := Idle]);
      Some(if |r.waitingWriters| > 0 then HandToWriter(r) else AdmitReaders(r))
    case _ => None
  }

  // ----- What holds in every reachable state -----

  ghost function At(s: State, pc: Pc): set<nat> {
    set t: nat | t < |s.threads| && s.threads[t] == pc
  }

  ghost predicate QueueOf(q: seq<nat>, waiting: set<nat>) {
    && Once(q)
    && (forall t :: t in q <==> t in waiting)
  }

  /** Everything but the two "implies" of the invariant, which a release breaks for a moment. */
  ghost predicate Held(s: State) {
    && s.readers == |At(s, Reading)|
    && |At(s, Writing)| == (if s.writerActive then 1 else 0)
    && (s.writerActive ==> s.readers == 0)
    && QueueOf(s.waitingReaders, At(s, WaitRead)) && QueueOf(s.waitingWriters, At(s, WaitWrite))
  }

  ghost predicate Inv(s: State) {
    && Held(s)
    && (s.waitingWriters != [] ==> s.writerActive || s.readers > 0)
    && (s.waitingReaders != [] ==> s.writerActive || s.waitingWriters != [])
  }

  /** Thread `t` moves from `pc` to `pc'`, and nothing else moves. */
  ghost predicate Moves(s: State, r: State, t: nat, pc: Pc, pc': Pc) {
    t < |s.threads| && s.threads[t] == pc && pc != pc' && r.threads == s.threads[t := pc']
  }

  lemma Moved(s: State, r: State, t: nat, pc: Pc, pc': Pc)
    requires Moves(s, r, t, pc, pc')
    ensures At(r, pc) == At(s, pc) - {t} && At(r, pc') == At(s, pc') + {t}
    ensures forall p :: p != pc && p != pc' ==> At(r, p) == At(s, p)
    ensures t in At(s, pc) && forall p :: p != pc ==> t !in At(s, p)
  {
  }

  lemma QueueAdd(q: seq<nat>, w: set<nat>, t: nat)
    requires QueueOf(q, w) && t !in w
    ensures QueueOf(q + [t], w + {t})
  {
  }

  lemma QueuePop(q: seq<nat>, w: set<nat>)
    requires QueueOf(q, w) && q != []
    ensures q[0] in w && QueueOf(q[1..], w - {q[0]})
  {
  }

  lemma {:induction false} QueueSize(q: seq<nat>, w: set<nat>)
    requires QueueOf(q, w)
    ensures |q| == |w|
    decreases |q|
  {
    if q == [] {
      assert forall t :: t in w ==> t in q;
      assert w == {};
    } else {
      QueuePop(q, w);
      QueueSize(q[1..], w - {q[0]});
    }
  }

  lemma HandKeeps(s: State)
    requires Held(s) && s.waitingWriters != [] && !s.writerActive && s.readers == 0
    ensures Inv(HandToWriter(s))
  {
    var w := s.waitingWriters[0];
    QueuePop(s.waitingWriters, At(s, WaitWrite));
    Moved(s, HandToWriter(s), w, WaitWrite, Writing);
  }

  lemma AdmitKeeps(s: State)
    requires Held(s) && s.waitingWriters == [] && !s.writerActive
    ensures Inv(AdmitReaders(s))
  {
    var r := AdmitReaders(s);
    QueueSize(s.waitingReaders, At(s, WaitRead));
    assert At(r, Reading) == At(s, Reading) + At(s, WaitRead);
    assert At(r, Writing) == At(s, Writing);
    assert At(r, WaitRead) == {};
    assert At(r, WaitWrite) == At(s, WaitWrite);
  }

  lemma ReadFast(s: State, r: State, t: nat, pc: Pc)
    requires Inv(s) && ReadFree(s) && (pc == Idle || pc == ParkRead) && Moves(s, r, t, pc, Reading)
    requires r == s.(readers := s.readers + 1, threads := r.threads)
    ensures Inv(r)
  {
    hide QueueOf, At;
    Moved(s, r, t, pc, Reading);
  }

  lemma WriteFast(s: State, r: State, t: nat, pc: Pc)
    requires Inv(s) && WriteFree(s) && (pc == Idle || pc == ParkWrite) && Moves(s, r, t, pc, Writing)
    requires r == s.(writerActive := true, threads := r.threads)
    ensures Inv(r)
  {
    hide QueueOf, At;
    Moved(s, r, t, pc, Writing);
  }

  lemma Parks(s: State, r: State, t: nat, pc: Pc)
    requires Inv(s) && (pc == ParkRead || pc == ParkWrite) && Moves(s, r, t, Idle, pc) && r == s.(threads := r.threads)
    ensures Inv(r)
  {
    hide QueueOf, At;
    Moved(s, r, t, Idle, pc);
  }

  lemma WaitsToRead(s: State, r: State, t: nat)
    requires Inv(s) && !ReadFree(s) && Moves(s, r, t, ParkRead, WaitRead)
    requires r == s.(waitingReaders := s.waitingReaders + [t], threads := r.threads)
    ensures Inv(r)
  {
    hide QueueOf, At;
    Moved(s, r, t, ParkRead, WaitRead);
    QueueAdd(s.waitingReaders, At(s, WaitRead), t);
  }

  lemma WaitsToWrite(s: State, r: State, t: nat)
    requires Inv(s) && !WriteFree(s) && Moves(s, r, t, ParkWrite, WaitWrite)
    requires r == s.(waitingWriters := s.waitingWriters + [t], threads := r.threads)
    ensures Inv(r)
  {
    hide QueueOf, At;
    Moved(s, r, t, ParkWrite, WaitWrite);
    QueueAdd(s.waitingWriters, At(s, WaitWrite), t);
  }

  lemma StopsReading(s: State, t: nat)
    requires Inv(s) && s.readers > 0 && t < |s.threads| && s.threads[t] == Reading
    ensures var r := s.(readers := s.readers - 1, threads := s.threads[t := Idle]);
            Inv(if r.readers == 0 && |r.waitingWriters| > 0 then HandToWriter(r) else r)
  {
    hide QueueOf, At;
    var r := s.(readers := s.readers - 1, threads := s.threads[t := Idle]);
    Moved(s, r, t, Reading, Idle);
    if r.readers == 0 && |r.waitingWriters| > 0 { HandKeeps(r); }
  }

  lemma StopsWriting(s: State, t: nat)
    requires Inv(s) && s.writerActive && t < |s.threads| && s.threads[t] == Writing
    ensures var r := s.(writerActive := false, threads := s.threads[t := Idle]);
            Inv(if |r.waitingWriters| > 0 then HandToWriter(r) else AdmitReaders(r))
  {
    hide QueueOf, At;
    var r := s.(writerActive := false, threads := s.threads[t := Idle]);
    Moved(s, r, t, Writing, Idle);
    if |r.waitingWriters| > 0 { HandKeeps(r); } else { AdmitKeeps(r); }
  }

  lemma StepInv(s: State, e: Event)
    requires Inv(s) && Step(s, e).Some?
    ensures Inv(Step(s, e).value)
  {
    hide Inv, HandToWriter, AdmitReaders;
    var r, t := Step(s, e).value, e.thread;
    match e.action
    case AcquireRead => if ReadFree(s) { ReadFast(s, r, t, Idle); } else { Parks(s, r, t, ParkRead); }
    case AddReader => if ReadFree(s) { ReadFast(s, r, t, ParkRead); } else { WaitsToRead(s, r, t); }
    case ReleaseRead => StopsReading(s, t);
    case AcquireWrite => if WriteFree(s) { WriteFast(s, r, t, Idle); } else { Parks(s, r, t, ParkWrite); }
    case AddWriter => if WriteFree(s) { WriteFast(s, r, t, ParkWrite); } else { WaitsToWrite(s, r, t); }
    case ReleaseWrite => StopsWriting(s, t);
  }

  // ----- Runs -----

  predicate Leads(r: State, e: Event, s: State) {
    Step(r, e) == Some(s)
  }

  /** `s` is where the events of `run` lead from the start, in order. */
  ghost predicate Reaches(n: nat, run: seq<Event>, s: State)
    decreases |run|, 0
  {
    if run == [] then s == Start(n) else Then(n, run[..|run| - 1], run[|run| - 1], s)
  }

  ghost predicate Then(n: nat, run: seq<Event>, e: Event, s: State)
    decreases |run|, 1
  {
    exists r :: Reaches(n, run, r) && Leads(r, e, s)
  }

  lemma {:induction false} RunInv(n: nat, run: seq<Event>, s: State)
    requires Reaches(n, run, s)
    ensures Inv(s)
    decreases |run|
  {
    hide Step;
    if run == [] {
      assert forall pc :: pc != Idle ==> At(Start(n), pc) == {};
    } else {
      var r :| Reaches(n, run[..|run| - 1], r) && Leads(r, run[|run| - 1], s);
      RunInv(n, run[..|run| - 1], r);
      StepInv(r, run[|run| - 1]);
    }
  }

  /** A writer is alone. */
  lemma Exclusion(n: nat, run: seq<Event>, s: State, t: nat, u: nat)
    requires Reaches(n, run, s) && t < |s.threads| && u < |s.threads| && t != u
    ensures s.threads[t] == Writing ==> s.threads[u] != Writing && s.threads[u] != Reading
  {
    RunInv(n, run, s);
    if s.threads[t] == Writing {
      assert t in At(s, Writing);
      assert |At(s, Writing) - {t}| == 0;
      assert u !in At(s, Writing) - {t};
      assert u !in At(s, Writing);
      assert u !in At(s, Reading);
    }
  }

  /** Queued writers mean that the lock is held, and queued readers that a writer has it or is
      queued; so when nobody has the lock, nobody waits. */
  lemma NobodyLeftWaiting(n: nat, run: seq<Event>, s: State)
    requires Reaches(n, run, s)
    ensures s.waitingWriters != [] ==>
            exists t :: 0 <= t < |s.threads| && (s.threads[t] == Writing || s.threads[t] == Reading)
    ensures s.waitingReaders != [] ==>
            exists t :: 0 <= t < |s.threads| && (s.threads[t] == Writing || s.threads[t] == WaitWrite)
    ensures forall t :: 0 <= t < |s.threads| ==> (t in s.waitingReaders <==> s.threads[t] == WaitRead)
    ensures forall t :: 0 <= t < |s.threads| ==> (t in s.waitingWriters <==> s.threads[t] == WaitWrite)
  {
    RunInv(n, run, s);
    forall t | 0 <= t < |s.threads|
      ensures t in s.waitingReaders <==> s.threads[t] == WaitRead
      ensures t in s.waitingWriters <==> s.threads[t] == WaitWrite
    {
      assert t in At(s, WaitRead) <==> s.threads[t] == WaitRead;
      assert t in At(s, WaitWrite) <==> s.threads[t] == WaitWrite;
    }
    if s.writerActive { var t :| t in At(s, Writing); }
    if s.readers > 0 { var t :| t in At(s, Reading); }
    if s.waitingWriters != [] { assert s.waitingWriters[0] in At(s, WaitWrite); }
  }

  /** No thread starts to read while a writer is queued or active. */
  lemma NoReaderOvertakes(n: nat, run: seq<Event>, s: State, e: Event, t: nat)
    requires Reaches(n, run, s) && Step(s, e).Some? && t < |s.threads|
    requires s.threads[t] != Reading && Step(s, e).value.threads[t] == Reading
    ensures s.waitingWriters == []
    ensures forall u :: 0 <= u < |s.threads| ==> s.threads[u] != WaitWrite && Step(s, e).value.threads[u] != Writing
  {
    RunInv(n, run, s);
    NobodyLeftWaiting(n, run, s);
    StepInv(s, e);
    var r := Step(s, e).value;
    assert t in At(r, Reading);
    forall u | 0 <= u < |s.threads| ensures s.threads[u] != WaitWrite && r.threads[u] != Writing {
      assert u in s.waitingWriters <==> s.threads[u] == WaitWrite;
      assert u !in At(r, Writing);
    }
  }

  // ----- What a thread can do -----

  /** Somebody reads or writes. */
  ghost predicate Busy(s: State) {
    exists u :: 0 <= u < |s.threads| && (s.threads[u] == Reading || s.threads[u] == Writing)
  }

  /** Somebody writes or is queued to write. */
  ghost predicate Closed(s: State) {
    exists u :: 0 <= u < |s.threads| && (s.threads[u] == Writing || s.threads[u] == WaitWrite)
  }

  lemma FreeMeans(s: State)
    requires Inv(s)
    ensures (WriteFree(s) <==> !Busy(s)) && (ReadFree(s) <==> !Closed(s))
  {
    if Busy(s) {
      var u :| 0 <= u < |s.threads| && (s.threads[u] == Reading || s.threads[u] == Writing);
      assert u in At(s, s.threads[u]);
    }
    if Closed(s) {
      var u :| 0 <= u < |s.threads| && (s.threads[u] == Writing || s.threads[u] == WaitWrite);
      assert u in At(s, s.threads[u]);
    }
    if s.writerActive { var u :| u in At(s, Writing); }
    if s.readers > 0 { var u :| u in At(s, Reading); }
    if s.waitingWriters != [] { assert s.waitingWriters[0] in At(s, WaitWrite); }
  }

  /** The next step of thread `t` is `a`; it gets to `pc`, and nobody else moves. */
  ghost predicate Goes(s: State, t: nat, a: Action, pc: Pc)
    requires t < |s.threads|
  {
    Step(s, Event(t, a)).Some? && Step(s, Event(t, a)).value.threads == s.threads[t := pc]
  }

  /** Every thread has its next step, except those in a queue.  An acquire, and the callback of one
      that has failed, gives the lock if and only if it is free for that thread; a callback that
      does not queues the thread. */
  lemma NextStep(n: nat, run: seq<Event>, s: State, t: nat)
    requires Reaches(n, run, s) && t < |s.threads|
    ensures match s.threads[t]
            case Idle =>
              && Goes(s, t, AcquireRead, if Closed(s) then ParkRead else Reading)
              && Goes(s, t, AcquireWrite, if Busy(s) then ParkWrite else Writing)
            case ParkRead => Goes(s, t, AddReader, if Closed(s) then WaitRead else Reading)
            case ParkWrite => Goes(s, t, AddWriter, if Busy(s) then WaitWrite else Writing)
            case Reading => Step(s, Event(t, ReleaseRead)).Some?
            case Writing => Step(s, Event(t, ReleaseWrite)).Some?
            case WaitRead => Closed(s) && Busy(s) && forall a :: Step(s, Event(t, a)) == None
            case WaitWrite => Busy(s) && forall a :: Step(s, Event(t, a)) == None
  {
    hide Closed, Busy, HandToWriter, AdmitReaders;
    RunInv(n, run, s);
    FreeMeans(s);
    assert t in At(s, s.threads[t]);
  }

  // ----- Who gets the lock from a release -----

  /** When thread `t` was last queued to write. */
  ghost function Since(run: seq<Event>, t: nat): int {
    if run == [] then -1
    else if run[|run| - 1] == Event(t, AddWriter) then |run| - 1
    else Since(run[..|run| - 1], t)
  }

  lemma {:induction false} SinceBound(run: seq<Event>, t: nat)
    ensures -1 <= Since(run, t) < |run|
  {
    if run != [] { SinceBound(run[..|run| - 1], t); }
  }

  ghost predicate InTurn(run: seq<Event>, q: seq<nat>) {
    forall i, j :: 0 <= i < j < |q| ==> Since(run, q[i]) < Since(run, q[j])
  }

  /** The queue of writers after a step: one more at the end, or the first one gone. */
  lemma QueueStep(s: State, e: Event)
    requires Inv(s) && Step(s, e).Some?
    ensures var q := Step(s, e).value.waitingWriters;
            if e.action == AddWriter then q == s.waitingWriters || (q == s.waitingWriters + [e.thread])
            else q == s.waitingWriters || (s.waitingWriters != [] && q == s.waitingWriters[1..])
    ensures e.action == AddWriter ==> e.thread !in s.waitingWriters
  {
    if e.action == AddWriter { assert e.thread !in At(s, WaitWrite); }
  }

  lemma SinceKept(run: seq<Event>, e: Event, t: nat)
    ensures Since(run + [e], t) == if e == Event(t, AddWriter) then |run| else Since(run, t)
  {
    assert (run + [e])[..|run|] == run;
  }

  /** Writers are queued in the order in which they came. */
  lemma {:induction false} WritersInTurn(n: nat, run: seq<Event>, s: State)
    requires Reaches(n, run, s)
    ensures InTurn(run, s.waitingWriters)
    decreases |run|
  {
    hide Step, Inv;
    if run != [] {
      var before, e := run[..|run| - 1], run[|run| - 1];
      var r :| Reaches(n, before, r) && Leads(r, e, s);
      WritersInTurn(n, before, r);
      RunInv(n, before, r);
      QueueStep(r, e);
      assert run == before + [e];
      forall i, j | 0 <= i < j < |s.waitingWriters|
        ensures Since(run, s.waitingWriters[i]) < Since(run, s.waitingWriters[j])
      {
        SinceKept(before, e, s.waitingWriters[i]);
        SinceKept(before, e, s.waitingWriters[j]);
        SinceBound(before, s.waitingWriters[i]);
      }
    }
  }

  /** Nobody but `t` reads. */
  ghost predicate LastReader(s: State, t: nat) {
    forall u :: 0 <= u < |s.threads| && u != t ==> s.threads[u] != Reading
  }

  ghost predicate WriterWaits(s: State) {
    exists u :: 0 <= u < |s.threads| && s.threads[u] == WaitWrite
  }

  /** Thread `w` has been queued longest of all writers. */
  ghost predicate Oldest(s: State, run: seq<Event>, w: nat) {
    && w < |s.threads| && s.threads[w] == WaitWrite
    && forall u :: 0 <= u < |s.threads| && s.threads[u] == WaitWrite && u != w ==> Since(run, w) < Since(run, u)
  }

  lemma OldestIsFirst(n: nat, run: seq<Event>, s: State)
    requires Reaches(n, run, s)
    ensures WriterWaits(s) <==> s.waitingWriters != []
    ensures s.waitingWriters != [] ==> Oldest(s, run, s.waitingWriters[0])
  {
    NobodyLeftWaiting(n, run, s);
    WritersInTurn(n, run, s);
    RunInv(n, run, s);
    var q := s.waitingWriters;
    if q != [] {
      assert q[0] in At(s, WaitWrite);
      forall u | 0 <= u < |s.threads| && s.threads[u] == WaitWrite && u != q[0]
        ensures Since(run, q[0]) < Since(run, u)
      {
        var j :| 0 <= j < |q| && q[j] == u;
      }
    }
  }

  /** The last one out gives the lock to the writer that has been queued longest, and if there is
      none, to all readers that are queued. */
  lemma ReleaseHands(n: nat, run: seq<Event>, s: State, t: nat, a: Action)
    requires Reaches(n, run, s) && t < |s.threads| && Step(s, Event(t, a)).Some?
    requires a == ReleaseRead || a == ReleaseWrite
    ensures var r := Step(s, Event(t, a)).value;
            && |r.threads| == |s.threads|
            && (!LastReader(s, t) ==> r.threads == s.threads[t := Idle])
            && (LastReader(s, t) && WriterWaits(s) ==>
                  exists w: nat :: Oldest(s, run, w) && r.threads == s.threads[t := Idle][w := Writing])
            && (LastReader(s, t) && !WriterWaits(s) ==>
                  forall u :: 0 <= u < |s.threads| ==>
                    r.threads[u] == if u == t then Idle else if s.threads[u] == WaitRead then Reading else s.threads[u])
  {
    RunInv(n, run, s);
    NobodyLeftWaiting(n, run, s);
    OldestIsFirst(n, run, s);
    LastReaderCount(s, t);
    hide Inv, Oldest;
  }

  lemma LastReaderCount(s: State, t: nat)
    requires Inv(s) && t < |s.threads|
    ensures s.threads[t] == Reading ==> (LastReader(s, t) <==> s.readers == 1)
    ensures s.threads[t] == Writing ==> LastReader(s, t)
  {
    var rs := At(s, Reading);
    assert t in At(s, s.threads[t]);
    if s.threads[t] == Reading {
      assert |rs - {t}| == s.readers - 1;
      if LastReader(s, t) {
        assert rs - {t} == {};
      } else {
        var u :| 0 <= u < |s.threads| && u != t && s.threads[u] == Reading;
        assert u in rs - {t};
      }
    }
    if s.threads[t] == Writing {
      forall u | 0 <= u < |s.threads| ensures s.threads[u] != Reading { assert u !in rs; }
    }
  }
}
