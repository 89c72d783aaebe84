/** Label resolution: every loop and switch gets a number of its own, every break,
    continue and case is tied to the statement it belongs to, and programs in which
    that is impossible are rejected.
  */
module LabelResolution {
  import opened Sequences
  import opened Words
  import opened CSource

  datatype Inner = Nowhere | InLoop | InSwitch

  /** The innermost loop and switch, and which of the two is innermost. */
  datatype Env = Env(loop: Option<nat>, switch: Option<nat>, inner: Inner)

  const TOP := Env(None, None, Nowhere)

  datatype Resolved = Resolved(s: Stmt, n: nat)

  /** `n` is the unique-name counter.  None: a break, continue or case in no place for it,
      or two equal cases in one switch. */
  function Resolve(s: Stmt, n: nat, env: Env): (r: Option<Resolved>)
    ensures r.Some? ==> n <= r.value.n
  {
    match s
    case Null => Some(Resolved(s, n))
    case ExprStmt(_) => Some(Resolved(s, n))
    case Return(_) => Some(Resolved(s, n))
    case Seq(a, b) =>
      (match Resolve(a, n, env)
       case None => None
       case Some(x) =>
         match Resolve(b, x.n, env)
         case None => None
         case Some(y) => Some(Resolved(Seq(x.s, y.s), y.n)))
    case If(c, a) =>
      (match Resolve(a, n, env)
       case None => None
       case Some(x) => Some(Resolved(If(c, x.s), x.n)))
    case IfElse(c, a, b) =>
      (match Resolve(a, n, env)
       case None => None
       case Some(x) =>
         match Resolve(b, x.n, env)
         case None => None
         case Some(y) => Some(Resolved(IfElse(c, x.s, y.s), y.n)))
    case While(c, a, _) =>
      (match Resolve(a, n + 1, env.(loop := Some(n), inner := InLoop))
       case None => None
       case Some(x) => Some(Resolved(While(c, x.s, n), x.n)))
    case DoWhile(a, c, _) =>
      (match Resolve(a, n + 1, env.(loop := Some(n), inner := InLoop))
       case None => None
       case Some(x) => Some(Resolved(DoWhile(x.s, c, n), x.n)))
    case For(i, c, e, a, _) =>
      (match Resolve(a, n + 1, env.(loop := Some(n), inner := InLoop))
       case None => None
       case Some(x) => Some(Resolved(For(i, c, e, x.s, n), x.n)))
    case Switch(c, a, _) =>
      (match Resolve(a, n + 1, env.(switch := Some(n), inner := InSwitch))
       case None => None
       case Some(x) => if Once(Keys(x.s)) then Some(Resolved(Switch(c, x.s, n), x.n)) else None)
    case Case(k, a, _) =>
      if env.switch.None? then None
      else
        (match Resolve(a, n, env)
         case None => None
         case Some(x) => Some(Resolved(Case(k, x.s, env.switch.value), x.n)))
    case Break(_) =>
      if env.inner == InLoop && env.loop.Some? then Some(Resolved(Break(env.loop.value), n))
      else if env.inner == InSwitch && env.switch.Some? then Some(Resolved(Break(env.switch.value), n))
      else None
    case Continue(_) =>
      if env.loop.None? then None else Some(Resolved(Continue(env.loop.value), n))
  }

  // ----- What is accepted -----

  /** Breaks, continues and cases are where there is something for them, given whether that is so
      around `s`; and no switch has two equal cases. */
  ghost predicate Placed(s: Stmt, canBreak: bool, inLoop: bool, inSwitch: bool) {
    match s
    case Seq(a, b) => Placed(a, canBreak, inLoop, inSwitch) && Placed(b, canBreak, inLoop, inSwitch)
    case If(_, a) => Placed(a, canBreak, inLoop, inSwitch)
    case IfElse(_, a, b) => Placed(a, canBreak, inLoop, inSwitch) && Placed(b, canBreak, inLoop, inSwitch)
    case While(_, a, _) => Placed(a, true, true, inSwitch)
    case DoWhile(a, _, _) => Placed(a, true, true, inSwitch)
    case For(_, _, _, a, _) => Placed(a, true, true, inSwitch)
    case Switch(_, a, _) => Placed(a, true, inLoop, true) && Once(Keys(a))
    case Case(_, a, _) => inSwitch && Placed(a, canBreak, inLoop, inSwitch)
    case Break(_) => canBreak
    case Continue(_) => inLoop
    case _ => true
  }

  /** Resolution accepts exactly the statements in which every jump has its target. */
  lemma {:induction false} ResolveAccepts(s: Stmt, n: nat, env: Env)
    ensures Resolve(s, n, env).Some? <==> Placed(s, BreakTarget(env).Some?, env.loop.Some?, env.switch.Some?)
  {
    match s
    case Seq(a, b) =>
      ResolveAccepts(a, n, env);
      if Resolve(a, n, env).Some? { ResolveAccepts(b, Resolve(a, n, env).value.n, env); }
    case If(_, a) => ResolveAccepts(a, n, env);
    case IfElse(_, a, b) =>
      ResolveAccepts(a, n, env);
      if Resolve(a, n, env).Some? { ResolveAccepts(b, Resolve(a, n, env).value.n, env); }
    case While(_, a, _) => ResolveAccepts(a, n + 1, env.(loop := Some(n), inner := InLoop));
    case DoWhile(a, _, _) => ResolveAccepts(a, n + 1, env.(loop := Some(n), inner := InLoop));
    case For(_, _, _, a, _) => ResolveAccepts(a, n + 1, env.(loop := Some(n), inner := InLoop));
    case Switch(_, a, _) =>
      var env' := env.(switch := Some(n), inner := InSwitch);
      ResolveAccepts(a, n + 1, env');
      if Resolve(a, n + 1, env').Some? { ResolveKeys(a, n + 1, env'); }
    case Case(_, a, _) => ResolveAccepts(a, n, env);
    case _ =>
  }

  /** A function body is accepted if and only if every jump in it has a target in it. */
  lemma BodyAccepted(body: Stmt, n: nat)
    ensures Resolve(body, n, TOP).Some? <==> Placed(body, false, false, false)
  {
    ResolveAccepts(body, n, TOP);
  }

  // ----- What resolution establishes -----

  /** The numbers of the loops and switches in `s`. */
  function Ids(s: Stmt): set<nat> {
    match s
    case Seq(a, b) => Ids(a) + Ids(b)
    case If(_, a) => Ids(a)
    case IfElse(_, a, b) => Ids(a) + Ids(b)
    case While(_, a, id) => Ids(a) + {id}
    case DoWhile(a, _, id) => Ids(a) + {id}
    case For(_, _, _, a, id) => Ids(a) + {id}
    case Switch(_, a, id) => Ids(a) + {id}
    case Case(_, a, _) => Ids(a)
    case _ => {}
  }

  /** `s` inside something to break out of, to continue, and a switch. */
  ghost predicate WellLabelled(s: Stmt, brk: Option<nat>, cont: Option<nat>, sw: Option<nat>) {
    match s
    case Null => true
    case ExprStmt(_) => true
    case Return(_) => true
    case Seq(a, b) => WellLabelled(a, brk, cont, sw) && WellLabelled(b, brk, cont, sw) && Ids(a) !! Ids(b)
    case If(_, a) => WellLabelled(a, brk, cont, sw)
    case IfElse(_, a, b) => WellLabelled(a, brk, cont, sw) && WellLabelled(b, brk, cont, sw) && Ids(a) !! Ids(b)
    case While(_, a, id) => WellLabelled(a, Some(id), Some(id), sw) && id !in Ids(a)
    case DoWhile(a, _, id) => WellLabelled(a, Some(id), Some(id), sw) && id !in Ids(a)
    case For(_, _, _, a, id) => WellLabelled(a, Some(id), Some(id), sw) && id !in Ids(a)
    case Switch(_, a, id) => WellLabelled(a, Some(id), cont, Some(id)) && id !in Ids(a) && Once(Keys(a))
    case Case(_, a, id) => WellLabelled(a, brk, cont, sw) && sw == Some(id)
    case Break(id) => brk == Some(id)
    case Continue(id) => cont == Some(id)
  }

  function BreakTarget(env: Env): Option<nat> {
    match env.inner
    case Nowhere => None
    case InLoop => env.loop
    case InSwitch => env.switch
  }

  lemma {:induction false} ResolveKeys(s: Stmt, n: nat, env: Env)
    requires Resolve(s, n, env).Some?
    ensures Keys(Resolve(s, n, env).value.s) == Keys(s)
  {
    match s
    case Seq(a, b) => ResolveKeys(a, n, env); ResolveKeys(b, Resolve(a, n, env).value.n, env);
    case If(_, a) => ResolveKeys(a, n, env);
    case IfElse(_, a, b) => ResolveKeys(a, n, env); ResolveKeys(b, Resolve(a, n, env).value.n, env);
    case While(_, a, _) => ResolveKeys(a, n + 1, env.(loop := Some(n), inner := InLoop));
    case DoWhile(a, _, _) => ResolveKeys(a, n + 1, env.(loop := Some(n), inner := InLoop));
    case For(_, _, _, a, _) => ResolveKeys(a, n + 1, env.(loop := Some(n), inner := InLoop));
    case Case(_, a, _) => ResolveKeys(a, n, env);
    case _ =>
  }

  /** Numbers are fresh, and every jump is tied to its innermost target. */
  lemma {:induction false} ResolveLabels(s: Stmt, n: nat, env: Env)
    requires Resolve(s, n, env).Some?
    ensures var r := Resolve(s, n, env).value;
            && WellLabelled(r.s, BreakTarget(env), env.loop, env.switch)
            && (forall i :: i in Ids(r.s) ==> n <= i < r.n)
  {
    match s
    case Seq(a, b) => ResolveLabels(a, n, env); ResolveLabels(b, Resolve(a, n, env).value.n, env);
    case If(_, a) => ResolveLabels(a, n, env);
    case IfElse(_, a, b) => ResolveLabels(a, n, env); ResolveLabels(b, Resolve(a, n, env).value.n, env);
    case While(_, a, _) => ResolveLabels(a, n + 1, env.(loop := Some(n), inner := InLoop));
    case DoWhile(a, _, _) => ResolveLabels(a, n + 1, env.(loop := Some(n), inner := InLoop));
    case For(_, _, _, a, _) => ResolveLabels(a, n + 1, env.(loop := Some(n), inner := InLoop));
    case Switch(_, a, _) => ResolveLabels(a, n + 1, env.(switch := Some(n), inner := InSwitch));
    case Case(_, a, _) => ResolveLabels(a, n, env);
    case _ =>
  }

  /** The meaning of a statement does not depend on its labels. */
  lemma {:induction false} ResolveMeaning(fuel: nat, s: Stmt, n: nat, env: Env, at: Option<Key>, st: Store)
    requires Resolve(s, n, env).Some?
    requires at.Some? ==> at.value in Keys(s)
    ensures at.Some? ==> at.value in Keys(Resolve(s, n, env).value.s)
    ensures Run(fuel, Resolve(s, n, env).value.s, at, st) == Run(fuel, s, at, st)
    decreases fuel, s, 1
  {
    ResolveKeys(s, n, env);
    match s
    case Seq(a, b) =>
      var m := Resolve(a, n, env).value.n;
      ResolveKeys(a, n, env);
      if at.Some? && at.value !in Keys(a) {
        ResolveMeaning(fuel, b, m, env, at, st);
      } else {
        ResolveMeaning(fuel, a, n, env, at, st);
        var r := Run(fuel, a, at, st);
        if r.Done? && r.o == Normal { ResolveMeaning(fuel, b, m, env, None, r.st); }
      }
    case If(c, a) =>
      if at.Some? {
        ResolveMeaning(fuel, a, n, env, at, st);
      } else if Eval(c, st).Some? {
        ResolveMeaning(fuel, a, n, env, None, Eval(c, st).value.st);
      }
    case IfElse(c, a, b) =>
      var m := Resolve(a, n, env).value.n;
      ResolveKeys(a, n, env);
      if at.Some? {
        if at.value in Keys(a) { ResolveMeaning(fuel, a, n, env, at, st); }
        else { ResolveMeaning(fuel, b, m, env, at, st); }
      } else if Eval(c, st).Some? {
        ResolveMeaning(fuel, a, n, env, None, Eval(c, st).value.st);
        ResolveMeaning(fuel, b, m, env, None, Eval(c, st).value.st);
      }
    case While(c, a, _) => ResolveWhile(fuel, s, n, env, at, st);
    case DoWhile(a, c, _) => ResolveDo(fuel, s, n, env, at, st);
    case For(i, c, e, a, _) =>
      if at.Some? {
        ResolveFor(fuel, s, n, env, at, st);
      } else if EvalOpt(i, st).Some? {
        ResolveFor(fuel, s, n, env, None, EvalOpt(i, st).value.st);
      }
    case Switch(c, a, _) =>
      var env' := env.(switch := Some(n), inner := InSwitch);
      ResolveKeys(a, n + 1, env');
      if Eval(c, st).Some? {
        var r := Eval(c, st).value;
        var k := Dispatch(Keys(a), TypeOf(c), r.v);
        if k.Some? { ResolveMeaning(fuel, a, n + 1, env', k, r.st); }
      }
    case Case(k, a, _) =>
      if at.Some? && at.value != k { ResolveMeaning(fuel, a, n, env, at, st); }
      else { ResolveMeaning(fuel, a, n, env, None, st); }
    case _ =>
  }

  lemma {:induction false} ResolveWhile(fuel: nat, s: Stmt, n: nat, env: Env, at: Option<Key>, st: Store)
    requires s.While? && Resolve(s, n, env).Some?
    requires at.Some? ==> at.value in Keys(s)
    ensures at.Some? ==> at.value in Keys(Resolve(s, n, env).value.s)
    ensures Run(fuel, Resolve(s, n, env).value.s, at, st) == Run(fuel, s, at, st)
    decreases fuel, s, 0
  {
    ResolveKeys(s, n, env);
    var env' := env.(loop := Some(n), inner := InLoop);
    if at.Some? || Eval(s.c, st).Some? {
      var st1 := if at.Some? then st else Eval(s.c, st).value.st;
      ResolveMeaning(fuel, s.body, n + 1, env', at, st1);
      var r := Run(fuel, s.body, at, st1);
      if r.Done? && (r.o == Normal || r.o == Continued) && fuel > 0 {
        ResolveMeaning(fuel - 1, s, n, env, None, r.st);
      }
    }
  }

  lemma {:induction false} ResolveDo(fuel: nat, s: Stmt, n: nat, env: Env, at: Option<Key>, st: Store)
    requires s.DoWhile? && Resolve(s, n, env).Some?
    requires at.Some? ==> at.value in Keys(s)
    ensures at.Some? ==> at.value in Keys(Resolve(s, n, env).value.s)
    ensures Run(fuel, Resolve(s, n, env).value.s, at, st) == Run(fuel, s, at, st)
    decreases fuel, s, 0
  {
    ResolveKeys(s, n, env);
    ResolveMeaning(fuel, s.body, n + 1, env.(loop := Some(n), inner := InLoop), at, st);
    var r := Run(fuel, s.body, at, st);
    if r.Done? && (r.o == Normal || r.o == Continued) && fuel > 0 && Eval(s.c, r.st).Some? {
      ResolveMeaning(fuel - 1, s, n, env, None, Eval(s.c, r.st).value.st);
    }
  }

  lemma {:induction false} ResolveFor(fuel: nat, s: Stmt, n: nat, env: Env, at: Option<Key>, st: Store)
    requires s.For? && Resolve(s, n, env).Some?
    requires at.Some? ==> at.value in Keys(s)
    ensures at.Some? ==> at.value in Keys(Resolve(s, n, env).value.s)
    ensures ForLoop(fuel, Resolve(s, n, env).value.s, at, st) == ForLoop(fuel, s, at, st)
    decreases fuel, s, 0
  {
    ResolveKeys(s, n, env);
    if at.Some? || EvalOpt(s.fc, st).Some? {
      var st1 := if at.Some? then st else EvalOpt(s.fc, st).value.st;
      ResolveMeaning(fuel, s.body, n + 1, env.(loop := Some(n), inner := InLoop), at, st1);
      var r := Run(fuel, s.body, at, st1);
      if r.Done? && (r.o == Normal || r.o == Continued) && fuel > 0 && EvalOpt(s.end, r.st).Some? {
        ResolveFor(fuel - 1, s, n, env, None, EvalOpt(s.end, r.st).value.st);
      }
    }
  }
}
