/** The CLH queue lock as a machine of single steps.

    A node is a pair of words, `locked` and `saved`.  Every thread and every lock has one.
    To acquire, a thread marks its node, exchanges it for the tail of the lock, and waits
    until the node it got is unmarked; on release it unmarks its own node and keeps the
    other.  Each action below makes at most one access to memory that other threads use,
    and a run is any sequence of actions of any threads.
  */
module ClhLock {
  import opened Words

  const NIL := -1

  datatype Pc =
    | Idle
    | Mark(lock: nat)      // interrupts are off
    | Swap(lock: nat)      // own node is marked
    | Spin(lock: nat)      // own node is in the queue
    | Save(lock: nat)      // the node in front was seen unmarked
    | Critical(lock: nat)
    | Restore(lock: nat)   // own node is unmarked again

  datatype Thread = Thread(pc: Pc, myNode: nat, myPred: int, was: int, mask: int)

  datatype State = State(threads: seq<Thread>, tail: seq<nat>, locked: seq<bool>, saved: seq<int>)

  datatype Action =
    | SetMask(mask: int)               // anything a thread does to its mask outside of locks
    | Begin(lock: nat, mask: int)      // save the mask and disable interrupts
    | MarkOwn(lock: nat)
    | Exchange(lock: nat)
    | Miss(lock: nat)                  // the node in front is still marked
    | Hit(lock: nat)                   // it is not
    | Enter(lock: nat)                 // keep the saved mask in the node in front
    | Leave(lock: nat)                 // unmark the own node
    | Finish(lock: nat, mask: int)     // take over the other node and restore the mask from it

  datatype Event = Event(thread: nat, action: Action)

  /** As many threads as masks, each with a node of its own, and free locks with one each. */
  function Start(masks: seq<int>, locks: nat): State {
    State(seq(|masks|, t requires 0 <= t < |masks| => Thread(Idle, t, NIL, 0, masks[t])),
          seq(locks, l requires 0 <= l => |masks| + l),
          seq(|masks| + locks, _ => false),
          seq(|masks| + locks, _ => 0))
  }

  predicate Sane(s: State) {
    && |s.saved| == |s.locked|
    && (forall t :: 0 <= t < |s.threads| ==>
        s.threads[t].myNode < |s.locked| && NIL <= s.threads[t].myPred < |s.locked|)
  }

  /** One action, if it is the thread's turn to take it.  The assertions of acquire and
      release are not part of this; `AssertionsHold` is about them. */
  function Do(s: State, e: Event): Option<State>
    requires Sane(s)
  {
    var t := e.thread;
    if t >= |s.threads| then None else
    var me := s.threads[t];
    match e.action
    case SetMask(m) =>
      if me.pc != Idle then None else Some(s.(threads := s.threads[t := me.(mask := m)]))
    case Begin(l, m) =>
      if me.pc != Idle || l >= |s.tail| || m != me.mask then None
      else Some(s.(threads := s.threads[t := me.(pc := Mark(l), was := m, mask := 0)]))
    case MarkOwn(l) =>
      if me.pc != Mark(l) then None
      else Some(s.(threads := s.threads[t := me.(pc := Swap(l))], locked := s.locked[me.myNode := true]))
    case Exchange(l) =>
      if me.pc != Swap(l) || l >= |s.tail| then None
      else Some(s.(threads := s.threads[t := me.(pc := Spin(l), myPred := s.tail[l])], tail := s.tail[l := me.myNode]))
    case Miss(l) =>
      if me.pc != Spin(l) || me.myPred == NIL || !s.locked[me.myPred] then None else Some(s)
    case Hit(l) =>
      if me.pc != Spin(l) || me.myPred == NIL || s.locked[me.myPred] then None
      else Some(s.(threads := s.threads[t := me.(pc := Save(l))]))
    case Enter(l) =>
      if me.pc != Save(l) || me.myPred == NIL then None
      else Some(s.(threads := s.threads[t := me.(pc := Critical(l))], saved := s.saved[me.myPred := me.was]))
    case Leave(l) =>
      if me.pc != Critical(l) then None
      else Some(s.(threads := s.threads[t := me.(pc := Restore(l))], locked := s.locked[me.myNode := false]))
    case Finish(l, m) =>
      if me.pc != Restore(l) || me.myPred == NIL || m != s.saved[me.myPred] then None
      else Some(s.(threads := s.threads[t := me.(pc := Idle, myNode := me.myPred, myPred := NIL, mask := m)]))
  }

  // ----- What holds in every reachable state -----

  datatype Role = Private(thread: nat) | Queued(lock: nat, index: nat)

  /** For each lock: the threads that have exchanged into it, in order; how many of them have
      released; and the nodes, `chain[l][e]` in front of exchange `e` and `chain[l][e + 1]`
      put there by it.  For each node its role; for each queued thread its exchange. */
  datatype Books = Books(ex: seq<seq<nat>>, done: seq<nat>, chain: seq<seq<nat>>, role: seq<Role>, ticket: seq<nat>)

  predicate Waits(pc: Pc, l: nat) {
    pc == Spin(l) || pc == Save(l) || pc == Critical(l)
  }

  predicate Holds(pc: Pc, l: nat) {
    pc == Save(l) || pc == Critical(l)
  }

  ghost predicate LockOk(s: State, b: Books, l: nat)
    requires l < |b.ex| && |s.tail| == |b.done| == |b.chain| == |b.ex|
  {
    var ex, chain, done := b.ex[l], b.chain[l], b.done[l];
    && |chain| == |ex| + 1 && done <= |ex| && s.tail[l] == chain[|ex|]
    && (forall e :: done <= e <= |ex| ==>
          chain[e] < |s.locked| && chain[e] < |b.role| && b.role[chain[e]] == Queued(l, e) &&
            s.locked[chain[e]] == (e > done))
    && (forall e :: done <= e < |ex| ==>
          ex[e] < |s.threads| && ex[e] < |b.ticket| && Waits(s.threads[ex[e]].pc, l) && b.ticket[ex[e]] == e)
  }

  ghost predicate Own(s: State, b: Books, t: nat, x: int, marked: bool) {
    0 <= x < |s.locked| && x < |b.role| && b.role[x] == Private(t) && s.locked[x] == marked
  }

  ghost predicate InQueue(b: Books, t: nat, me: Thread, l: nat) {
    && l < |b.ex| && l < |b.chain| && l < |b.done| && t < |b.ticket|
    && var e := b.ticket[t];
       && b.done[l] <= e < |b.ex[l]| && e + 1 < |b.chain[l]| && b.ex[l][e] == t
       && me.myPred == b.chain[l][e] && me.myNode == b.chain[l][e + 1]
       && (Holds(me.pc, l) ==> e == b.done[l])
  }

  ghost predicate ThreadOk(s: State, b: Books, t: nat)
    requires t < |s.threads|
  {
    var me := s.threads[t];
    match me.pc
    case Idle => Own(s, b, t, me.myNode, false) && me.myPred == NIL
    case Mark(l) => Own(s, b, t, me.myNode, false) && me.myPred == NIL && l < |s.tail|
    case Swap(l) => Own(s, b, t, me.myNode, true) && me.myPred == NIL && l < |s.tail|
    case Spin(l) => InQueue(b, t, me, l)
    case Save(l) => InQueue(b, t, me, l)
    case Critical(l) => InQueue(b, t, me, l) && 0 <= me.myPred < |s.saved| && s.saved[me.myPred] == me.was
    case Restore(l) => Own(s, b, t, me.myPred, false) && me.myPred < |s.saved| && s.saved[me.myPred] == me.was
  }

  ghost predicate Inv(s: State, b: Books) {
    && Sane(s) && |s.locked| == |b.role| && |b.ticket| == |s.threads|
    && |s.tail| == |b.ex| == |b.done| == |b.chain|
    && (forall t :: 0 <= t < |s.threads| ==> ThreadOk(s, b, t))
    && (forall l :: 0 <= l < |s.tail| ==> LockOk(s, b, l))
  }

  function After(b: Books, s: State, e: Event): Books
    requires Sane(s) && e.thread < |s.threads|
  {
    var t, me := e.thread, s.threads[e.thread];
    match e.action
    case Exchange(l) =>
      if l < |b.ex| && l < |b.chain| && t < |b.ticket| && me.myNode < |b.role| then
        b.(ex := b.ex[l := b.ex[l] + [t]], chain := b.chain[l := b.chain[l] + [me.myNode]],
           role := b.role[me.myNode := Queued(l, |b.ex[l]| + 1)], ticket := b.ticket[t := |b.ex[l]|])
      else b
    case Leave(l) =>
      if l < |b.done| && 0 <= me.myPred < |b.role| then
        b.(done := b.done[l := b.done[l] + 1], role := b.role[me.myPred := Private(t)])
      else b
    case _ => b
  }

  lemma BeginInv(s: State, b: Books, t: nat, l: nat, m: int)
    requires Inv(s, b) && Do(s, Event(t, Begin(l, m))).Some?
    ensures Inv(Do(s, Event(t, Begin(l, m))).value, b)
  {
    var s' := Do(s, Event(t, Begin(l, m))).value;
    assert ThreadOk(s, b, t);
    forall u | 0 <= u < |s.threads| ensures ThreadOk(s', b, u) { assert ThreadOk(s, b, u); }
    forall k | 0 <= k < |s.tail| ensures LockOk(s', b, k) { assert LockOk(s, b, k); }
  }

  lemma MarkInv(s: State, b: Books, t: nat, l: nat)
    requires Inv(s, b) && Do(s, Event(t, MarkOwn(l))).Some?
    ensures Inv(Do(s, Event(t, MarkOwn(l))).value, b)
  {
    var s' := Do(s, Event(t, MarkOwn(l))).value;
    assert ThreadOk(s, b, t);
    forall u | 0 <= u < |s.threads| ensures ThreadOk(s', b, u) { assert ThreadOk(s, b, u); }
    forall k | 0 <= k < |s.tail| ensures LockOk(s', b, k) { assert LockOk(s, b, k); }
  }

  lemma ExchangeThread(s: State, b: Books, t: nat, l: nat, u: nat)
    requires Inv(s, b) && Do(s, Event(t, Exchange(l))).Some? && u < |s.threads|
    ensures ThreadOk(Do(s, Event(t, Exchange(l))).value, After(b, s, Event(t, Exchange(l))), u)
  {
    assert ThreadOk(s, b, t) && LockOk(s, b, l) && ThreadOk(s, b, u);
  }

  lemma ExchangeLock(s: State, b: Books, t: nat, l: nat, k: nat)
    requires Inv(s, b) && Do(s, Event(t, Exchange(l))).Some? && k < |s.tail|
    ensures LockOk(Do(s, Event(t, Exchange(l))).value, After(b, s, Event(t, Exchange(l))), k)
  {
    if k == l { ExchangeHere(s, b, t, l); } else { ExchangeElsewhere(s, b, t, l, k); }
  }

  lemma ExchangeHere(s: State, b: Books, t: nat, l: nat)
    requires Inv(s, b) && Do(s, Event(t, Exchange(l))).Some?
    ensures LockOk(Do(s, Event(t, Exchange(l))).value, After(b, s, Event(t, Exchange(l))), l)
  {
    assert ThreadOk(s, b, t) && LockOk(s, b, l);
  }

  lemma ExchangeElsewhere(s: State, b: Books, t: nat, l: nat, k: nat)
    requires Inv(s, b) && Do(s, Event(t, Exchange(l))).Some? && k < |s.tail| && k != l
    ensures LockOk(Do(s, Event(t, Exchange(l))).value, After(b, s, Event(t, Exchange(l))), k)
  {
    assert ThreadOk(s, b, t) && LockOk(s, b, k);
  }

  lemma ExchangeInv(s: State, b: Books, t: nat, l: nat)
    requires Inv(s, b) && Do(s, Event(t, Exchange(l))).Some?
    ensures Inv(Do(s, Event(t, Exchange(l))).value, After(b, s, Event(t, Exchange(l))))
  {
    hide LockOk;
    var s', b' := Do(s, Event(t, Exchange(l))).value, After(b, s, Event(t, Exchange(l)));
    assert ThreadOk(s, b, t);
    TailInRange(s, b, l);
    forall u | 0 <= u < |s.threads| ensures ThreadOk(s', b', u) { ExchangeThread(s, b, t, l, u); }
    forall k | 0 <= k < |s.tail| ensures LockOk(s', b', k) { ExchangeLock(s, b, t, l, k); }
  }

  lemma TailInRange(s: State, b: Books, l: nat)
    requires Inv(s, b) && l < |s.tail|
    ensures s.tail[l] < |s.locked|
  {
    assert LockOk(s, b, l);
  }

  /** The node in front of a queued thread has the role its ticket says. */
  lemma PredRole(s: State, b: Books, t: nat, l: nat)
    requires Inv(s, b) && t < |s.threads| && Waits(s.threads[t].pc, l)
    ensures InQueue(b, t, s.threads[t], l) && 0 <= s.threads[t].myPred < |s.locked|
    ensures b.role[s.threads[t].myPred] == Queued(l, b.ticket[t])
    ensures s.locked[s.threads[t].myPred] == (b.ticket[t] > b.done[l])
  {
    assert ThreadOk(s, b, t);
    assert LockOk(s, b, l);
  }

  lemma EnterInv(s: State, b: Books, t: nat, l: nat)
    requires Inv(s, b) && Do(s, Event(t, Enter(l))).Some?
    ensures Inv(Do(s, Event(t, Enter(l))).value, b)
  {
    var s' := Do(s, Event(t, Enter(l))).value;
    PredRole(s, b, t, l);
    forall u | 0 <= u < |s.threads| ensures ThreadOk(s', b, u) {
      assert ThreadOk(s, b, u);
      if s.threads[u].pc.Critical? { PredRole(s, b, u, s.threads[u].pc.lock); }
    }
    forall k | 0 <= k < |s.tail| ensures LockOk(s', b, k) { assert LockOk(s, b, k); }
  }

  lemma HitInv(s: State, b: Books, t: nat, l: nat)
    requires Inv(s, b) && Do(s, Event(t, Hit(l))).Some?
    ensures Inv(Do(s, Event(t, Hit(l))).value, b) && l < |b.done| && b.ticket[t] == b.done[l]
  {
    var s' := Do(s, Event(t, Hit(l))).value;
    PredRole(s, b, t, l);
    forall u | 0 <= u < |s.threads| ensures ThreadOk(s', b, u) { assert ThreadOk(s, b, u); }
    forall k | 0 <= k < |s.tail| ensures LockOk(s', b, k) { assert LockOk(s, b, k); }
  }

  lemma LeaveThread(s: State, b: Books, t: nat, l: nat, u: nat)
    requires Inv(s, b) && Do(s, Event(t, Leave(l))).Some? && u < |s.threads|
    ensures ThreadOk(Do(s, Event(t, Leave(l))).value, After(b, s, Event(t, Leave(l))), u)
  {
    PredRole(s, b, t, l);
    assert ThreadOk(s, b, t) && LockOk(s, b, l) && ThreadOk(s, b, u);
  }

  lemma LeaveLock(s: State, b: Books, t: nat, l: nat, k: nat)
    requires Inv(s, b) && Do(s, Event(t, Leave(l))).Some? && k < |s.tail|
    ensures LockOk(Do(s, Event(t, Leave(l))).value, After(b, s, Event(t, Leave(l))), k)
  {
    PredRole(s, b, t, l);
    assert LockOk(s, b, l) && LockOk(s, b, k);
  }

  lemma LeaveInv(s: State, b: Books, t: nat, l: nat)
    requires Inv(s, b) && Do(s, Event(t, Leave(l))).Some?
    ensures Inv(Do(s, Event(t, Leave(l))).value, After(b, s, Event(t, Leave(l))))
  {
    hide ThreadOk, LockOk;
    var s', b' := Do(s, Event(t, Leave(l))).value, After(b, s, Event(t, Leave(l)));
    forall u | 0 <= u < |s.threads| ensures ThreadOk(s', b', u) { LeaveThread(s, b, t, l, u); }
    forall k | 0 <= k < |s.tail| ensures LockOk(s', b', k) { LeaveLock(s, b, t, l, k); }
  }

  lemma StepInv(s: State, b: Books, e: Event)
    requires Inv(s, b) && Do(s, e).Some?
    ensures e.thread < |s.threads| && Inv(Do(s, e).value, After(b, s, e))
  {
    var s', t := Do(s, e).value, e.thread;
    match e.action
    case Begin(l, m) => BeginInv(s, b, t, l, m);
    case MarkOwn(l) => MarkInv(s, b, t, l);
    case Exchange(l) => ExchangeInv(s, b, t, l);
    case Hit(l) => HitInv(s, b, t, l);
    case Enter(l) => EnterInv(s, b, t, l);
    case Leave(l) => LeaveInv(s, b, t, l);
    case _ =>
      assert ThreadOk(s, b, t);
      forall u | 0 <= u < |s.threads| ensures ThreadOk(s', b, u) { assert ThreadOk(s, b, u); }
      forall k | 0 <= k < |s.tail| ensures LockOk(s', b, k) { assert LockOk(s, b, k); }
  }

  // ----- Runs -----

  lemma StartInv(masks: seq<int>, locks: nat) returns (b: Books)
    ensures Inv(Start(masks, locks), b)
    ensures |b.ex| == locks && forall l :: 0 <= l < locks ==> b.ex[l] == [] && b.done[l] == 0
  {
    var n := |masks|;
    b := Books(seq(locks, _ => []), seq(locks, _ => 0), seq(locks, l requires 0 <= l => [n + l]),
               seq(n + locks, x requires 0 <= x => if x < n then Private(x) else Queued(x - n, 0)),
               seq(n, _ => 0));
    var s := Start(masks, locks);
    forall t | 0 <= t < n ensures ThreadOk(s, b, t) { assert s.threads[t].pc == Idle; }
    forall l | 0 <= l < locks ensures LockOk(s, b, l) { assert b.chain[l][0] == n + l; }
  }

  /** `s` is where the actions of `run` lead from the start, in order. */
  ghost predicate Reaches(masks: seq<int>, locks: nat, run: seq<Event>, s: State)
    decreases run
  {
    if run == [] then s == Start(masks, locks)
    else exists r :: Reaches(masks, locks, run[..|run| - 1], r) && Sane(r) && Do(r, run[|run| - 1]) == Some(s)
  }

  /** The threads that exchange into, are granted, and release lock `l`, in order. */
  function Exchanges(run: seq<Event>, l: nat): seq<nat> {
    if run == [] then [] else
      var e := run[|run| - 1];
      Exchanges(run[..|run| - 1], l) + if e.action == Exchange(l) then [e.thread] else []
  }

  function Grants(run: seq<Event>, l: nat): seq<nat> {
    if run == [] then [] else
      var e := run[|run| - 1];
      Grants(run[..|run| - 1], l) + if e.action == Hit(l) then [e.thread] else []
  }

  function Releases(run: seq<Event>, l: nat): seq<nat> {
    if run == [] then [] else
      var e := run[|run| - 1];
      Releases(run[..|run| - 1], l) + if e.action == Leave(l) then [e.thread] else []
  }

  /** The mask with which thread `t` last began to acquire. */
  function LastBegin(run: seq<Event>, t: nat): Option<int> {
    if run == [] then None else
      var e := run[|run| - 1];
      if e.thread == t && e.action.Begin? then Some(e.action.mask) else LastBegin(run[..|run| - 1], t)
  }

  /** The first thread in the queue has been granted the lock. */
  ghost predicate Granted(s: State, b: Books, l: nat)
    requires l < |b.ex| && |s.tail| == |b.done| == |b.chain| == |b.ex| && LockOk(s, b, l)
  {
    b.done[l] < |b.ex[l]| && Holds(s.threads[b.ex[l][b.done[l]]].pc, l)
  }

  /** The history of a lock as its books tell it. */
  ghost predicate Tells(run: seq<Event>, s: State, b: Books, l: nat) {
    && Inv(s, b) && l < |b.ex| && LockOk(s, b, l)
    && Exchanges(run, l) == b.ex[l] && Releases(run, l) == b.ex[l][..b.done[l]]
    && Grants(run, l) == b.ex[l][..b.done[l] + if Granted(s, b, l) then 1 else 0]
  }

  ghost predicate Remembers(run: seq<Event>, s: State) {
    forall t :: 0 <= t < |s.threads| && s.threads[t].pc != Idle ==> LastBegin(run, t) == Some(s.threads[t].was)
  }

  /** Only its own actions move a thread. */
  lemma LogStep(run: seq<Event>, e: Event, l: nat)
    ensures Exchanges(run + [e], l) == Exchanges(run, l) + if e.action == Exchange(l) then [e.thread] else []
    ensures Grants(run + [e], l) == Grants(run, l) + if e.action == Hit(l) then [e.thread] else []
    ensures Releases(run + [e], l) == Releases(run, l) + if e.action == Leave(l) then [e.thread] else []
  {
    assert (run + [e])[..|run|] == run;
  }

  /** A thread with the first ticket is the only one that can look successfully or leave. */
  lemma FirstActs(s: State, b: Books, l: nat, e: Event)
    requires Inv(s, b) && l < |b.ex| && LockOk(s, b, l) && Do(s, e).Some?
    ensures e.action == Hit(l) ==> !Granted(s, b, l) && b.done[l] < |b.ex[l]| && b.ex[l][b.done[l]] == e.thread
    ensures e.action == Leave(l) ==> Granted(s, b, l) && b.ex[l][b.done[l]] == e.thread
  {
    if e.action == Hit(l) || e.action == Leave(l) {
      PredRole(s, b, e.thread, l);
    }
  }

  /** How the granted thread of lock `l` changes with an action. */
  lemma GrantedStep(s: State, b: Books, l: nat, e: Event)
    requires Inv(s, b) && l < |b.ex| && LockOk(s, b, l) && Do(s, e).Some?
    ensures e.thread < |s.threads|
    ensures var s', b' := Do(s, e).value, After(b, s, e);
            && Inv(s', b') && |b'.ex| == |b.ex| && LockOk(s', b', l)
            && b'.ex[l] == b.ex[l] + (if e.action == Exchange(l) then [e.thread] else [])
            && b'.done[l] == b.done[l] + (if e.action == Leave(l) then 1 else 0)
            && (Granted(s', b', l) <==> (Granted(s, b, l) && e.action != Leave(l)) || e.action == Hit(l))
  {
    StepInv(s, b, e);
    var s', b', t := Do(s, e).value, After(b, s, e), e.thread;
    assert LockOk(s', b', l);
    if e.action == Hit(l) {
      FirstActs(s, b, l, e);
    } else if e.action == Leave(l) {
      FirstActs(s, b, l, e);
      if b.done[l] + 1 < |b.ex[l]| { SecondWaits(s, b, l); }
    } else {
      FirstKeeps(s, b, l, e);
    }
  }

  lemma SecondWaits(s: State, b: Books, l: nat)
    requires Inv(s, b) && l < |b.ex| && LockOk(s, b, l) && b.done[l] + 1 < |b.ex[l]|
    ensures !Holds(s.threads[b.ex[l][b.done[l] + 1]].pc, l)
  {
    PredRole(s, b, b.ex[l][b.done[l] + 1], l);
  }

  lemma FirstKeeps(s: State, b: Books, l: nat, e: Event)
    requires Inv(s, b) && l < |b.ex| && LockOk(s, b, l) && Do(s, e).Some? && e.action != Hit(l) && e.action != Leave(l)
    ensures b.done[l] < |b.ex[l]| ==>
              (Holds(Do(s, e).value.threads[b.ex[l][b.done[l]]].pc, l) <==> Holds(s.threads[b.ex[l][b.done[l]]].pc, l))
    ensures e.action == Exchange(l) ==> !Holds(Do(s, e).value.threads[e.thread].pc, l)
  {
  }

  lemma StepTells(run: seq<Event>, s: State, b: Books, l: nat, e: Event)
    requires Tells(run, s, b, l) && Do(s, e).Some?
    ensures Tells(run + [e], Do(s, e).value, After(b, s, e), l)
  {
    hide Do, After, ThreadOk, Sane, Exchanges, Grants, Releases;
    LogStep(run, e, l);
    FirstActs(s, b, l, e);
    GrantedStep(s, b, l, e);
    var ex, done, ex', done' := b.ex[l], b.done[l], After(b, s, e).ex[l], After(b, s, e).done[l];
    assert ex'[..done] == ex[..done];
    assert done < |ex| ==> ex'[..done + 1] == ex[..done] + [ex[done]];
  }

  lemma StepRemembers(run: seq<Event>, s: State, e: Event)
    requires Sane(s) && Remembers(run, s) && Do(s, e).Some?
    ensures Remembers(run + [e], Do(s, e).value)
  {
    var s' := Do(s, e).value;
    assert (run + [e])[..|run|] == run;
    forall t | 0 <= t < |s'.threads| && s'.threads[t].pc != Idle
           ensures LastBegin(run + [e], t) == Some(s'.threads[t].was) {
      assert t != e.thread ==> s'.threads[t] == s.threads[t];
    }
  }

  /** Books can be kept along every run. */
  lemma {:induction false} RunBooks(masks: seq<int>, locks: nat, run: seq<Event>, s: State) returns (b: Books)
    requires Reaches(masks, locks, run, s)
    ensures Inv(s, b) && |b.ex| == locks && Remembers(run, s) && forall l :: 0 <= l < locks ==> Tells(run, s, b, l)
    decreases |run|
  {
    hide Inv, Do, After, LockOk, Remembers;
    if run == [] {
      b := StartInv(masks, locks);
      FirstBooks(masks, locks, b);
    } else {
      var before, e := run[..|run| - 1], run[|run| - 1];
      var r :| Reaches(masks, locks, before, r) && Sane(r) && Do(r, e) == Some(s);
      var c := RunBooks(masks, locks, before, r);
      assert before + [e] == run;
      StepInv(r, c, e);
      StepRemembers(before, r, e);
      b := After(c, r, e);
      forall l | 0 <= l < locks ensures Tells(run, s, b, l) { StepTells(before, r, c, l, e); }
      SameLocks(c, r, e);
    }
  }

  lemma SameLocks(b: Books, s: State, e: Event)
    requires Sane(s) && e.thread < |s.threads|
    ensures |After(b, s, e).ex| == |b.ex|
  {
  }

  lemma FirstBooks(masks: seq<int>, locks: nat, b: Books)
    requires Inv(Start(masks, locks), b) && |b.ex| == locks
    requires forall l :: 0 <= l < locks ==> b.ex[l] == [] && b.done[l] == 0
    ensures Remembers([], Start(masks, locks)) && forall l :: 0 <= l < locks ==> Tells([], Start(masks, locks), b, l)
  {
    forall l | 0 <= l < locks ensures Tells([], Start(masks, locks), b, l) {
      assert LockOk(Start(masks, locks), b, l);
    }
  }

  // ----- What every run guarantees -----

  /** At most one thread is between the successful look and the release of a lock. */
  lemma MutualExclusion(masks: seq<int>, locks: nat, run: seq<Event>, s: State, l: nat, t: nat, u: nat)
    requires Reaches(masks, locks, run, s) && t < |s.threads| && u < |s.threads|
    requires Holds(s.threads[t].pc, l) && Holds(s.threads[u].pc, l)
    ensures t == u
  {
    var b := RunBooks(masks, locks, run, s);
    PredRole(s, b, t, l);
    PredRole(s, b, u, l);
  }

  /** The lock is granted in the order of the exchanges, and released in that order, each
      grant after the release before it. */
  lemma FirstComeFirstServed(masks: seq<int>, locks: nat, run: seq<Event>, s: State, l: nat)
    requires Reaches(masks, locks, run, s) && l < locks
    ensures Releases(run, l) <= Grants(run, l) <= Exchanges(run, l)
    ensures |Grants(run, l)| <= |Releases(run, l)| + 1
  {
    var b := RunBooks(masks, locks, run, s);
    assert Tells(run, s, b, l);
  }

  lemma FreeForFirst(s: State, b: Books, u: nat, l: nat)
    requires Inv(s, b) && l < |b.ex| && LockOk(s, b, l)
    ensures Do(s, Event(u, Hit(l))).Some? <==> !Granted(s, b, l) && b.done[l] < |b.ex[l]| && u == b.ex[l][b.done[l]]
  {
    if Do(s, Event(u, Hit(l))).Some? {
      HitInv(s, b, u, l);
      PredRole(s, b, u, l);
    }
    if b.done[l] < |b.ex[l]| { PredRole(s, b, b.ex[l][b.done[l]], l); }
  }

  /** A lock that nobody holds can be taken at once by the first thread in its queue, and by
      no other. */
  lemma NextInLine(masks: seq<int>, locks: nat, run: seq<Event>, s: State, l: nat, u: nat)
    requires Reaches(masks, locks, run, s) && l < locks
    ensures Sane(s)
    ensures Do(s, Event(u, Hit(l))).Some? <==>
              |Grants(run, l)| == |Releases(run, l)| < |Exchanges(run, l)| && u == Exchanges(run, l)[|Releases(run, l)|]
  {
    hide Do, ThreadOk, Reaches, Exchanges, Grants, Releases;
    var b := RunBooks(masks, locks, run, s);
    assert Tells(run, s, b, l);
    FreeForFirst(s, b, u, l);
  }

  /** The mask that a release restores is the one its acquire found. */
  lemma MaskRestored(masks: seq<int>, locks: nat, run: seq<Event>, s: State, t: nat, l: nat, m: int)
    requires Reaches(masks, locks, run, s) && Sane(s) && Do(s, Event(t, Finish(l, m))).Some?
    ensures LastBegin(run, t) == Some(m) && Do(s, Event(t, Finish(l, m))).value.threads[t].mask == m
  {
    var b := RunBooks(masks, locks, run, s);
    assert ThreadOk(s, b, t);
  }

  /** The node that belongs to a thread alone, or that it has put into a queue. */
  function OwnNode(me: Thread): int {
    if me.pc.Restore? then me.myPred else me.myNode
  }

  /** No node has two roles, as it moves between threads and locks. */
  lemma NodesApart(masks: seq<int>, locks: nat, run: seq<Event>, s: State, t: nat, u: nat, k: nat, l: nat)
    requires Reaches(masks, locks, run, s)
    requires t < |s.threads| && u < |s.threads| && k < locks && l < locks
    ensures |s.tail| == locks
    ensures t != u ==> OwnNode(s.threads[t]) != OwnNode(s.threads[u])
    ensures k != l ==> s.tail[k] != s.tail[l]
    ensures s.tail[l] == OwnNode(s.threads[t]) ==> Waits(s.threads[t].pc, l)
    ensures t != u && Waits(s.threads[t].pc, k) && Waits(s.threads[u].pc, l) ==>
            s.threads[t].myPred != s.threads[u].myPred
    ensures Waits(s.threads[t].pc, k) && s.threads[t].myPred == OwnNode(s.threads[u]) ==> Waits(s.threads[u].pc, k)
  {
    var b := RunBooks(masks, locks, run, s);
    assert |s.tail| == |b.ex|;
    hide Inv;
    OwnApart(s, b, t, u);
    TailApart(s, b, t, k, l);
    PredApart(s, b, t, u, k, l);
  }

  lemma OwnApart(s: State, b: Books, t: nat, u: nat)
    requires Inv(s, b) && t < |s.threads| && u < |s.threads|
    ensures t != u ==> OwnNode(s.threads[t]) != OwnNode(s.threads[u])
  {
    hide Inv, OwnNode;
    OwnRole(s, b, t);
    OwnRole(s, b, u);
  }

  lemma TailApart(s: State, b: Books, t: nat, k: nat, l: nat)
    requires Inv(s, b) && t < |s.threads| && k < |s.tail| && l < |s.tail|
    ensures k != l ==> s.tail[k] != s.tail[l]
    ensures s.tail[l] == OwnNode(s.threads[t]) ==> Waits(s.threads[t].pc, l)
  {
    hide ThreadOk, OwnNode, InQueue;
    OwnRole(s, b, t);
    assert LockOk(s, b, k) && LockOk(s, b, l);
  }

  lemma PredApart(s: State, b: Books, t: nat, u: nat, k: nat, l: nat)
    requires Inv(s, b) && t < |s.threads| && u < |s.threads|
    ensures t != u && Waits(s.threads[t].pc, k) && Waits(s.threads[u].pc, l) ==>
            s.threads[t].myPred != s.threads[u].myPred
    ensures Waits(s.threads[t].pc, k) && s.threads[t].myPred == OwnNode(s.threads[u]) ==> Waits(s.threads[u].pc, k)
  {
    hide Inv, OwnNode;
    OwnRole(s, b, u);
    if Waits(s.threads[t].pc, k) { PredRole(s, b, t, k); }
    if Waits(s.threads[u].pc, l) { PredRole(s, b, u, l); }
  }

  lemma OwnRole(s: State, b: Books, t: nat)
    requires Inv(s, b) && t < |s.threads|
    ensures 0 <= OwnNode(s.threads[t]) < |b.role|
    ensures b.role[OwnNode(s.threads[t])] == Private(t) ||
            exists l ::
              && Waits(s.threads[t].pc, l) && InQueue(b, t, s.threads[t], l)
              && b.role[OwnNode(s.threads[t])] == Queued(l, b.ticket[t] + 1)
  {
    assert ThreadOk(s, b, t);
    var pc := s.threads[t].pc;
    if pc.Spin? || pc.Save? || pc.Critical? {
      PredRole(s, b, t, pc.lock);
      assert LockOk(s, b, pc.lock);
      assert Waits(pc, pc.lock);
    }
  }

  /** The assertions in acquire and release never fail. */
  lemma AssertionsHold(masks: seq<int>, locks: nat, run: seq<Event>, s: State, t: nat)
    requires Reaches(masks, locks, run, s) && t < |s.threads|
    ensures s.threads[t].myNode < |s.locked|
    ensures s.threads[t].pc == Idle ==> s.threads[t].myPred == NIL && !s.locked[s.threads[t].myNode]
    ensures s.threads[t].pc.Critical? ==> s.threads[t].myPred != NIL && s.locked[s.threads[t].myNode]
  {
    var b := RunBooks(masks, locks, run, s);
    assert ThreadOk(s, b, t);
    if s.threads[t].pc.Critical? {
      PredRole(s, b, t, s.threads[t].pc.lock);
      assert LockOk(s, b, s.threads[t].pc.lock);
    }
  }

  // ----- What a thread can do -----

  /** Action `a` is possible, takes thread `t` to `pc`, and moves no other thread. */
  ghost predicate Goes(s: State, t: nat, a: Action, pc: Pc)
    requires Sane(s) && t < |s.threads|
  {
    var r := Do(s, Event(t, a));
    && r.Some? && |r.value.threads| == |s.threads| && r.value.threads[t].pc == pc
    && forall u :: 0 <= u < |s.threads| && u != t ==> r.value.threads[u] == s.threads[u]
  }

  /** Every thread always has its next step.  One that waits sees the lock free or not; one that
      releases gets back to where it began. */
  lemma NextStep(masks: seq<int>, locks: nat, run: seq<Event>, s: State, t: nat)
    requires Reaches(masks, locks, run, s) && t < |s.threads|
    ensures Sane(s) && |s.tail| == locks
    ensures match s.threads[t].pc
            case Idle => forall l: nat :: l < locks ==> Goes(s, t, Begin(l, s.threads[t].mask), Mark(l))
            case Mark(l) => Goes(s, t, MarkOwn(l), Swap(l))
            case Swap(l) => Goes(s, t, Exchange(l), Spin(l))
            case Spin(l) => Goes(s, t, Hit(l), Save(l)) || Goes(s, t, Miss(l), Spin(l))
            case Save(l) => Goes(s, t, Enter(l), Critical(l))
            case Critical(l) => Goes(s, t, Leave(l), Restore(l))
            case Restore(l) => LastBegin(run, t).Some? && Goes(s, t, Finish(l, LastBegin(run, t).value), Idle)
  {
    hide LockOk, Reaches;
    var b := RunBooks(masks, locks, run, s);
    assert ThreadOk(s, b, t);
    if s.threads[t].pc.Spin? || s.threads[t].pc.Save? { QueuedPred(s, b, t, s.threads[t].pc.lock); }
  }

  lemma QueuedPred(s: State, b: Books, t: nat, l: nat)
    requires Inv(s, b) && t < |s.threads| && InQueue(b, t, s.threads[t], l)
    ensures s.threads[t].myPred != NIL
  {
    assert LockOk(s, b, l);
  }

  lemma OffStep(s: State, e: Event, t: nat)
    requires Sane(s) && Do(s, e).Some? && t < |Do(s, e).value.threads|
    ensures t < |s.threads|
    ensures (s.threads[t].pc != Idle ==> s.threads[t].mask == 0) ==>
            (Do(s, e).value.threads[t].pc != Idle ==> Do(s, e).value.threads[t].mask == 0)
  {
  }

  /** Interrupts are off from the beginning of an acquire to the end of the release. */
  lemma {:induction false} InterruptsOff(masks: seq<int>, locks: nat, run: seq<Event>, s: State, t: nat)
    requires Reaches(masks, locks, run, s) && t < |s.threads|
    ensures s.threads[t].pc != Idle ==> s.threads[t].mask == 0
    decreases |run|
  {
    hide Do;
    if run != [] {
      var before, e := run[..|run| - 1], run[|run| - 1];
      var r :| Reaches(masks, locks, before, r) && Sane(r) && Do(r, e) == Some(s);
      OffStep(r, e, t);
      InterruptsOff(masks, locks, before, r, t);
    }
  }
}
