/** Correctness of statement lowering, and of the compiler front end as a whole.

    Every run of a statement is followed by its code: from the first instruction, or
    from a case label inside it, to past the last one, or to the label that a break or
    continue names, or to the return.  A source run that goes on for ever is followed
    by a machine run that goes on for ever.
  */
module LoweringStmt {
  import opened Words
  import opened CSource
  import opened Tac
  import opened Lowering
  import opened LoweringExpr
  import opened LabelResolution
  import opened LoweringLabels

  predicate ExprOk(e: Expr) {
    WellTyped(e) && Stable(e)
  }

  predicate OptOk(e: Option<Expr>) {
    e.Some? ==> ExprOk(e.value)
  }

  /** Every expression of `s` is well typed and free of unsequenced conflicts. */
  predicate StmtOk(s: Stmt) {
    match s
    case Null => true
    case ExprStmt(e) => ExprOk(e)
    case Return(oe) => OptOk(oe)
    case Seq(a, b) => StmtOk(a) && StmtOk(b)
    case If(c, a) => ExprOk(c) && StmtOk(a)
    case IfElse(c, a, b) => ExprOk(c) && StmtOk(a) && StmtOk(b)
    case While(c, a, _) => ExprOk(c) && StmtOk(a)
    case DoWhile(a, c, _) => ExprOk(c) && StmtOk(a)
    case For(i, c, e, a, _) => OptOk(i) && OptOk(c) && OptOk(e) && StmtOk(a)
    case Switch(c, a, _) => ExprOk(c) && StmtOk(a)
    case Case(_, a, _) => StmtOk(a)
    case Break(_) => true
    case Continue(_) => true
  }

  // ----- What it means for the machine to follow a source run -----

  ghost predicate At(p: Code, c: Config, n: nat, pc: nat, st: Store) {
    var q := Steps(p, c, n);
    q.Next? && q.c.pc == pc && Agree(st, q.c.st)
  }

  ghost predicate AtLabel(p: Code, c: Config, n: nat, l: Label, st: Store) {
    FindLabel(p, l).Some? && At(p, c, n, FindLabel(p, l).value, st)
  }

  function ReturnWord(v: Option<int>): Word {
    if v.None? then 0 else ToWord(v.value)
  }

  /** After `n` steps from `c` the machine is where the outcome `r` says, with the same
      store; if `r` ran out of `fuel`, the machine is still running after `fuel` steps. */
  ghost predicate Follows(p: Code, c: Config, n: nat, r: Result, end: nat, brk: Option<nat>, cont: Option<nat>,
                          fuel: nat) {
    match r
    case Wrong => true
    case Timeout => Steps(p, c, fuel).Next?
    case Done(Normal, st) => At(p, c, n, end, st)
    case Done(Broke, st) => brk.Some? && AtLabel(p, c, n, BreakOf(brk.value), st)
    case Done(Continued, st) => n > 0 && cont.Some? && AtLabel(p, c, n, ContinueOf(cont.value), st)
    case Done(Returned(v), st) =>
      var q := Steps(p, c, n);
      q.Halt? && q.v == ReturnWord(v) && Agree(st, q.st)
  }

  lemma Prepend(p: Code, c: Config, m: nat, n: nat, r: Result, end: nat, brk: Option<nat>, cont: Option<nat>,
                fuel: nat, fuel': nat)
    requires Steps(p, c, m).Next? && Follows(p, Steps(p, c, m).c, n, r, end, brk, cont, fuel')
    requires fuel <= m + fuel'
    ensures Follows(p, c, m + n, r, end, brk, cont, fuel)
  {
    hide Steps;
    StepsCompose(p, c, m, n);
    if r.Timeout? {
      StepsCompose(p, c, m, fuel');
      StepsPrefix(p, c, fuel, m + fuel');
    }
  }

  /** One label or jump after normal completion. */
  lemma Slide(p: Code, c: Config, n: nat, r: Result, mid: nat, end: nat, brk: Option<nat>, cont: Option<nat>, fuel: nat)
    returns (n': nat)
    requires DistinctLabels(p) && Follows(p, c, n, r, mid, brk, cont, fuel) && mid < |p|
    requires (p[mid].Mark? && end == mid + 1) || (p[mid].Jump? && end < |p| && p[end] == Mark(p[mid].target))
    ensures Follows(p, c, n', r, end, brk, cont, fuel)
    ensures r.Done? && r.o == Normal ==> n' == n + 1
  {
    hide Steps;
    if r.Done? && r.o == Normal {
      OneStep(p, c, n);
      if p[mid].Jump? { LabelFound(p, end); }
      n' := n + 1;
    } else {
      n' := n;
    }
  }

  /** An expression, then `Cmp val, 0` and a conditional jump to the label at `dest`. */
  lemma TestSim(p: Code, c: Config, e: Expr, t: nat, l: nat, st: Store, cond: Condition, target: Label, dest: nat)
    returns (n: nat)
    requires DistinctLabels(p) && ExprOk(e) && Agree(st, c.st) && (cond == CondE || cond == CondNE)
    requires var x := LowerExpr(e, t, l);
             CodeAt(p, c.pc, x.code + [Cmp(x.val, Const(0)), CondJump(cond, target)])
    requires dest < |p| && p[dest] == Mark(target)
    ensures n >= 2
    ensures Eval(e, st).Some? ==>
              var r := Eval(e, st).value;
              var q := Steps(p, c, n);
              && q.Next? && Agree(r.st, q.c.st)
              && q.c.pc == if (r.v == 0) == (cond == CondE) then dest else c.pc + |LowerExpr(e, t, l).code| + 2
  {
    hide Steps, Step, Eval, LowerExpr;
    var x := LowerExpr(e, t, l);
    CodeSplit(p, c.pc, x.code, [Cmp(x.val, Const(0)), CondJump(cond, target)]);
    n := ExprSim(p, c, e, t, l, st);
    if Eval(e, st).Some? {
      EvalInRange(e, st);
      RoundTrip(TypeOf(e), Eval(e, st).value.v);
      Branch(p, c, n, x.val, Const(0), cond, target, dest);
    }
    n := n + 2;
  }

  // ----- Layout of the emitted code -----

  lemma IfLayout(p: Code, pc: nat, c: Code, cv: Val, body: Code, end: Label)
    requires CodeAt(p, pc, IfCode(c, cv, body, end))
    ensures var pb := pc + |c| + 2;
            && |IfCode(c, cv, body, end)| == |c| + |body| + 3
            && CodeAt(p, pc, c + [Cmp(cv, Const(0)), CondJump(CondE, end)])
            && CodeAt(p, pb, body)
            && pb + |body| < |p| && p[pb + |body|] == Mark(end)
  {
    var jump := [Cmp(cv, Const(0)), CondJump(CondE, end)];
    CodeSplit(p, pc, c + jump + body, [Mark(end)]);
    CodeSplit(p, pc, c + jump, body);
    InstrAt(p, pc + |c + jump + body|, [Mark(end)], 0);
  }

  lemma IfElseLayout(p: Code, pc: nat, c: Code, cv: Val, thn: Code, els: Code, elseLabel: Label, end: Label)
    requires CodeAt(p, pc, IfElseCode(c, cv, thn, els, elseLabel, end))
    ensures var pt := pc + |c| + 2;
            var pj := pt + |thn|;
            var pe := pj + 2 + |els|;
            && |IfElseCode(c, cv, thn, els, elseLabel, end)| == |c| + |thn| + |els| + 5
            && CodeAt(p, pc, c + [Cmp(cv, Const(0)), CondJump(CondE, elseLabel)])
            && CodeAt(p, pt, thn) && CodeAt(p, pj + 2, els)
            && pe < |p| && p[pj] == Jump(end) && p[pj + 1] == Mark(elseLabel) && p[pe] == Mark(end)
  {
    var jump := [Cmp(cv, Const(0)), CondJump(CondE, elseLabel)];
    var mid := [Jump(end), Mark(elseLabel)];
    CodeSplit(p, pc, c + jump + thn + mid + els, [Mark(end)]);
    CodeSplit(p, pc, c + jump + thn + mid, els);
    CodeSplit(p, pc, c + jump + thn, mid);
    CodeSplit(p, pc, c + jump, thn);
    InstrAt(p, pc + |c + jump + thn|, mid, 0);
    InstrAt(p, pc + |c + jump + thn|, mid, 1);
    InstrAt(p, pc + |c + jump + thn + mid + els|, [Mark(end)], 0);
  }

  lemma WhileLayout(p: Code, pc: nat, c: Code, cv: Val, body: Code, id: nat)
    requires CodeAt(p, pc, WhileCode(c, cv, body, id))
    ensures var pb := pc + |c| + 3;
            var pj := pb + |body|;
            && |WhileCode(c, cv, body, id)| == |c| + |body| + 5
            && CodeAt(p, pc + 1, c + [Cmp(cv, Const(0)), CondJump(CondE, BreakOf(id))])
            && CodeAt(p, pb, body)
            && pj + 1 < |p| && p[pc] == Mark(ContinueOf(id)) && p[pj] == Jump(ContinueOf(id)) &&
              p[pj + 1] == Mark(BreakOf(id))
  {
    var head := [Mark(ContinueOf(id))];
    var test := c + [Cmp(cv, Const(0)), CondJump(CondE, BreakOf(id))];
    var fin := [Jump(ContinueOf(id)), Mark(BreakOf(id))];
    assert WhileCode(c, cv, body, id) == head + test + body + fin;
    CodeSplit(p, pc, head + test + body, fin);
    CodeSplit(p, pc, head + test, body);
    CodeSplit(p, pc, head, test);
    InstrAt(p, pc, head, 0);
    InstrAt(p, pc + |head + test + body|, fin, 0);
    InstrAt(p, pc + |head + test + body|, fin, 1);
  }

  lemma DoLayout(p: Code, pc: nat, body: Code, c: Code, cv: Val, id: nat)
    requires CodeAt(p, pc, DoCode(body, c, cv, id))
    ensures var pk := pc + 1 + |body|;
            var pe := pk + 1 + |c| + 2;
            && |DoCode(body, c, cv, id)| == |c| + |body| + 5
            && CodeAt(p, pc + 1, body)
            && CodeAt(p, pk + 1, c + [Cmp(cv, Const(0)), CondJump(CondNE, StartOf(id))])
            && pe < |p| && p[pc] == Mark(StartOf(id)) && p[pk] == Mark(ContinueOf(id)) && p[pe] == Mark(BreakOf(id))
  {
    var head, mid := [Mark(StartOf(id))], [Mark(ContinueOf(id))];
    var test := c + [Cmp(cv, Const(0)), CondJump(CondNE, StartOf(id))];
    assert DoCode(body, c, cv, id) == head + body + mid + test + [Mark(BreakOf(id))];
    CodeSplit(p, pc, head + body + mid + test, [Mark(BreakOf(id))]);
    CodeSplit(p, pc, head + body + mid, test);
    CodeSplit(p, pc, head + body, mid);
    CodeSplit(p, pc, head, body);
    InstrAt(p, pc, head, 0);
    InstrAt(p, pc + |head + body|, mid, 0);
    InstrAt(p, pc + |head + body + mid + test|, [Mark(BreakOf(id))], 0);
  }

  lemma ForLayout(p: Code, pc: nat, init: Code, test: Code, body: Code, end: Code, id: nat)
    requires CodeAt(p, pc, ForCode(init, test, body, end, id))
    ensures var ps := pc + |init|;
            var pb := ps + 1 + |test|;
            var pk := pb + |body|;
            var pj := pk + 1 + |end|;
            && |ForCode(init, test, body, end, id)| == |init| + |test| + |body| + |end| + 4
            && CodeAt(p, pc, init) && CodeAt(p, ps + 1, test) && CodeAt(p, pb, body) && CodeAt(p, pk + 1, end)
            && pj + 1 < |p| && p[ps] == Mark(StartOf(id)) && p[pk] == Mark(ContinueOf(id))
            && p[pj] == Jump(StartOf(id)) && p[pj + 1] == Mark(BreakOf(id))
  {
    var s, k, fin := [Mark(StartOf(id))], [Mark(ContinueOf(id))], [Jump(StartOf(id)), Mark(BreakOf(id))];
    CodeSplit(p, pc, init + s + test + body + k + end, fin);
    CodeSplit(p, pc, init + s + test + body + k, end);
    CodeSplit(p, pc, init + s + test + body, k);
    CodeSplit(p, pc, init + s + test, body);
    CodeSplit(p, pc, init + s, test);
    CodeSplit(p, pc, init, s);
    InstrAt(p, pc + |init|, s, 0);
    InstrAt(p, pc + |init + s + test + body|, k, 0);
    InstrAt(p, pc + |init + s + test + body + k + end|, fin, 0);
    InstrAt(p, pc + |init + s + test + body + k + end|, fin, 1);
  }

  lemma SwitchLayout(p: Code, pc: nat, c: Code, cases: Code, body: Code, id: nat)
    requires CodeAt(p, pc, c + cases + body + [Mark(BreakOf(id))])
    ensures var pb := pc + |c| + |cases|;
            && CodeAt(p, pc, c) && CodeAt(p, pc + |c|, cases) && CodeAt(p, pb, body)
            && pb + |body| < |p| && p[pb + |body|] == Mark(BreakOf(id))
  {
    CodeSplit(p, pc, c + cases + body, [Mark(BreakOf(id))]);
    CodeSplit(p, pc, c + cases, body);
    CodeSplit(p, pc, c, cases);
    InstrAt(p, pc + |c + cases + body|, [Mark(BreakOf(id))], 0);
  }

  // ----- Switch dispatch -----

  lemma MarkFound(p: Code, l: Label)
    requires DistinctLabels(p) && Mark(l) in p
    ensures FindLabel(p, l).Some?
  {
    var i :| 0 <= i < |p| && p[i] == Mark(l);
    LabelFound(p, i);
  }

  /** The chain of comparisons goes to the matching case, or falls through past its end. */
  lemma {:induction false} CasesSim(p: Code, c: Config, id: nat, keys: seq<Key>, v: Val, ty: Ty, x: int)
    returns (n: nat)
    requires DistinctLabels(p) && CodeAt(p, c.pc, CaseTests(id, keys, v))
    requires InRange(ty, x) && Read(v, c.st) == Some(ToWord(x))
    requires forall k :: k in keys ==> Mark(LabelOf(id, k)) in p
    ensures var q := Steps(p, c, n);
            && q.Next? && q.c.st == c.st
            && match FindCase(keys, ty, x) {
                 case Some(k) => FindLabel(p, LabelOf(id, k)) == Some(q.c.pc)
                 case None => q.c.pc == c.pc + |CaseTests(id, keys, v)|
               }
    decreases keys
  {
    hide Steps, Step, DistinctLabels, CodeAt;
    NoSteps(p, c);
    n := 0;
    if keys != [] {
      assert keys[0] in keys && forall k :: k in keys[1..] ==> k in keys;
      if keys[0].CaseOf? {
        var k := keys[0].v;
        var test := [Cmp(v, Const(ToWord(k))), CondJump(CondE, LabelOf(id, keys[0]))];
        CodeSplit(p, c.pc, test, CaseTests(id, keys[1..], v));
        MarkFound(p, LabelOf(id, keys[0]));
        Branch(p, c, 0, v, Const(ToWord(k)), CondE, LabelOf(id, keys[0]), FindLabel(p, LabelOf(id, keys[0])).value);
        RoundTrip(ty, x);
        if ToWord(k) == ToWord(x) {
          n := 2;
        } else {
          var m := CasesSim(p, Steps(p, c, 2).c, id, keys[1..], v, ty, x);
          StepsCompose(p, c, 2, m);
          n := 2 + m;
        }
      } else {
        n := CasesSim(p, c, id, keys[1..], v, ty, x);
      }
    }
  }

  /** The whole dispatch: to the case or default that C selects, else to the break label. */
  lemma DispatchSim(p: Code, c: Config, id: nat, keys: seq<Key>, v: Val, ty: Ty, x: int) returns (n: nat)
    requires DistinctLabels(p) && CodeAt(p, c.pc, LowerCases(id, keys, v))
    requires InRange(ty, x) && Read(v, c.st) == Some(ToWord(x))
    requires Mark(BreakOf(id)) in p && forall k :: k in keys ==> Mark(LabelOf(id, k)) in p
    ensures var q := Steps(p, c, n);
            && q.Next? && q.c.st == c.st
            && match Dispatch(keys, ty, x) {
                 case Some(k) => FindLabel(p, LabelOf(id, k)) == Some(q.c.pc)
                 case None => FindLabel(p, BreakOf(id)) == Some(q.c.pc)
               }
  {
    hide Steps;
    var tests := CaseTests(id, keys, v);
    CodeSplit(p, c.pc, tests, [Jump(FallThrough(id, keys))]);
    n := CasesSim(p, c, id, keys, v, ty, x);
    if FindCase(keys, ty, x).None? {
      InstrAt(p, c.pc + |tests|, [Jump(FallThrough(id, keys))], 0);
      OneStep(p, c, n);
      MarkFound(p, BreakOf(id));
      if DefaultCase in keys {
        assert LabelOf(id, DefaultCase) == DefaultLabel(id);
        MarkFound(p, DefaultLabel(id));
      }
      n := n + 1;
    }
  }

  // ----- The simulation -----

  /** The code of `s` stands at `pc` in a program that defines the labels `s` may jump to. */
  ghost predicate Placed(p: Code, pc: nat, s: Stmt, t: nat, l: nat, brk: Option<nat>, cont: Option<nat>,
                         sw: Option<nat>) {
    && DistinctLabels(p) && CodeAt(p, pc, LowerStmt(s, t, l).code)
    && StmtOk(s) && WellLabelled(s, brk, cont, sw)
    && (brk.Some? ==> Mark(BreakOf(brk.value)) in p)
    && (cont.Some? ==> Mark(ContinueOf(cont.value)) in p)
  }

  /** The machine is at the start of `s`, or at the case label of `s` that `at` names. */
  ghost predicate Entered(p: Code, pc: nat, c: Config, s: Stmt, at: Option<Key>, sw: Option<nat>) {
    if at.None? then c.pc == pc
    else sw.Some? && at.value in Keys(s) && FindLabel(p, LabelOf(sw.value, at.value)) == Some(c.pc)
  }

  /** Statement lowering is correct: the machine follows every source run. */
  lemma {:induction false} StmtSim(p: Code, pc: nat, c: Config, fuel: nat, s: Stmt, at: Option<Key>, st: Store, t: nat,
                                   l: nat,
                                   brk: Option<nat>, cont: Option<nat>, sw: Option<nat>)
    returns (n: nat)
    requires Placed(p, pc, s, t, l, brk, cont, sw) && Entered(p, pc, c, s, at, sw) && Agree(st, c.st)
    ensures Follows(p, c, n, Run(fuel, s, at, st), pc + |LowerStmt(s, t, l).code|, brk, cont, fuel)
    decreases fuel, s, 3
  {
    hide Steps, Step, LowerExpr, Eval;
    n := 0;
    match s
    case Null => NoSteps(p, c);
    case ExprStmt(e) => n := ExprSim(p, c, e, t, l, st);
    case Return(oe) => n := ReturnSim(p, pc, c, fuel, s, st, t, l, brk, cont, sw);
    case Seq(_, _) => n := SeqSim(p, pc, c, fuel, s, at, st, t, l, brk, cont, sw);
    case If(_, _) => n := IfSim(p, pc, c, fuel, s, at, st, t, l, brk, cont, sw);
    case IfElse(_, _, _) => n := IfElseSim(p, pc, c, fuel, s, at, st, t, l, brk, cont, sw);
    case While(_, _, _) => n := WhileSim(p, pc, c, fuel, s, at, st, t, l, brk, cont, sw);
    case DoWhile(_, _, _) => n := DoSim(p, pc, c, fuel, s, at, st, t, l, brk, cont, sw);
    case For(_, _, _, _, _) => n := ForSim(p, pc, c, fuel, s, at, st, t, l, brk, cont, sw);
    case Switch(_, _, _) => n := SwitchSim(p, pc, c, fuel, s, st, t, l, brk, cont, sw);
    case Case(_, _, _) => n := CaseSim(p, pc, c, fuel, s, at, st, t, l, brk, cont, sw);
    case Break(id) =>
      InstrAt(p, pc, [Jump(BreakOf(id))], 0);
      MarkFound(p, BreakOf(id));
      JumpSim(p, c, BreakOf(id));
      n := 1;
    case Continue(id) =>
      InstrAt(p, pc, [Jump(ContinueOf(id))], 0);
      MarkFound(p, ContinueOf(id));
      JumpSim(p, c, ContinueOf(id));
      n := 1;
  }

  lemma JumpSim(p: Code, c: Config, l: Label)
    requires c.pc < |p| && p[c.pc] == Jump(l) && FindLabel(p, l).Some?
    ensures Steps(p, c, 1) == Next(c.(pc := FindLabel(p, l).value))
  {
    OneStep(p, c, 0);
  }

  lemma ReturnPlaced(p: Code, pc: nat, s: Stmt, t: nat, l: nat, brk: Option<nat>, cont: Option<nat>, sw: Option<nat>)
    requires s.Return? && Placed(p, pc, s, t, l, brk, cont, sw)
    ensures OptOk(s.result)
    ensures s.result.None? ==> pc < |p| && p[pc] == Tac.Return(None)
    ensures s.result.Some? ==>
              var a := LowerExpr(s.result.value, t, l);
              CodeAt(p, pc, a.code) && pc + |a.code| < |p| && p[pc + |a.code|] == Tac.Return(Some(a.val))
  {
    hide LowerExpr, DistinctLabels, WellLabelled;
    match s.result {
      case None => InstrAt(p, pc, [Tac.Return(None)], 0);
      case Some(e) =>
        var a := LowerExpr(e, t, l);
        CodeSplit(p, pc, a.code, [Tac.Return(Some(a.val))]);
        InstrAt(p, pc + |a.code|, [Tac.Return(Some(a.val))], 0);
    }
  }

  lemma ReturnStep(p: Code, c: Config, n: nat, x: Option<Val>)
    requires Steps(p, c, n).Next? && Steps(p, c, n).c.pc < |p| && p[Steps(p, c, n).c.pc] == Tac.Return(x)
    requires x.Some? ==> Read(x.value, Steps(p, c, n).c.st).Some?
    ensures var st := Steps(p, c, n).c.st;
            Steps(p, c, n + 1) == Halt(if x.None? then 0 else Read(x.value, st).value, st)
  {
    hide Steps, Alu, CondTrue, ApplyUnary, FindLabel;
    OneStep(p, c, n);
  }

  lemma RunReturn(fuel: nat, s: Stmt, st: Store)
    requires s.Return?
    ensures Run(fuel, s, None, st) ==
            if s.result.None? then Done(Returned(None), st)
            else if Eval(s.result.value, st).None? then Wrong
            else Done(Returned(Some(Eval(s.result.value, st).value.v)), Eval(s.result.value, st).value.st)
  {
    hide Eval;
  }

  lemma ReturnSim(p: Code, pc: nat, c: Config, fuel: nat, s: Stmt, st: Store, t: nat, l: nat,
                  brk: Option<nat>, cont: Option<nat>, sw: Option<nat>)
    returns (n: nat)
    requires s.Return? && Placed(p, pc, s, t, l, brk, cont, sw) && c.pc == pc && Agree(st, c.st)
    ensures Follows(p, c, n, Run(fuel, s, None, st), pc + |LowerStmt(s, t, l).code|, brk, cont, fuel)
  {
    hide Steps, Step, Run, LowerExpr, LowerStmt, Eval, DistinctLabels, CodeAt, StmtOk, WellLabelled;
    ReturnPlaced(p, pc, s, t, l, brk, cont, sw);
    RunReturn(fuel, s, st);
    NoSteps(p, c);
    n := 0;
    match s.result {
      case None => ReturnStep(p, c, 0, None);
      case Some(e) =>
        n := ExprSim(p, c, e, t, l, st);
        if Eval(e, st).Some? { ReturnStep(p, c, n, Some(LowerExpr(e, t, l).val)); }
    }
    n := n + 1;
  }

  lemma SeqPlaced(p: Code, pc: nat, s: Stmt, t: nat, l: nat, brk: Option<nat>, cont: Option<nat>, sw: Option<nat>)
    requires s.Seq? && Placed(p, pc, s, t, l, brk, cont, sw)
    ensures var a := LowerStmt(s.first, t, l);
            var b := LowerStmt(s.rest, a.t, a.l);
            && Placed(p, pc, s.first, t, l, brk, cont, sw) && Placed(p, pc + |a.code|, s.rest, a.t, a.l, brk, cont, sw)
            && |LowerStmt(s, t, l).code| == |a.code| + |b.code|
  {
    var a := LowerStmt(s.first, t, l);
    CodeSplit(p, pc, a.code, LowerStmt(s.rest, a.t, a.l).code);
  }

  lemma {:induction false} SeqSim(p: Code, pc: nat, c: Config, fuel: nat, s: Stmt, at: Option<Key>, st: Store, t: nat,
                                  l: nat,
                                  brk: Option<nat>, cont: Option<nat>, sw: Option<nat>)
    returns (n: nat)
    requires s.Seq? && Placed(p, pc, s, t, l, brk, cont, sw) && Entered(p, pc, c, s, at, sw) && Agree(st, c.st)
    ensures Follows(p, c, n, Run(fuel, s, at, st), pc + |LowerStmt(s, t, l).code|, brk, cont, fuel)
    decreases fuel, s, 2
  {
    hide Steps, Step, CodeAt, StmtOk, LowerStmt, WellLabelled, DistinctLabels;
    SeqPlaced(p, pc, s, t, l, brk, cont, sw);
    var a := LowerStmt(s.first, t, l);
    var b := LowerStmt(s.rest, a.t, a.l);
    if at.Some? && at.value !in Keys(s.first) {
      n := StmtSim(p, pc + |a.code|, c, fuel, s.rest, at, st, a.t, a.l, brk, cont, sw);
    } else {
      n := StmtSim(p, pc, c, fuel, s.first, at, st, t, l, brk, cont, sw);
      var r := Run(fuel, s.first, at, st);
      if r.Done? && r.o == Normal {
        var m := StmtSim(p, pc + |a.code|, Steps(p, c, n).c, fuel, s.rest, None, r.st, a.t, a.l, brk, cont, sw);
        Prepend(p, c, n, m, Run(fuel, s.rest, None, r.st), pc + |a.code| + |b.code|, brk, cont, fuel, fuel);
        n := n + m;
      }
    }
  }

  lemma CasePlaced(p: Code, pc: nat, s: Stmt, t: nat, l: nat, brk: Option<nat>, cont: Option<nat>, sw: Option<nat>)
    requires s.Case? && Placed(p, pc, s, t, l, brk, cont, sw)
    ensures var a := LowerStmt(s.body, t, l);
            && Placed(p, pc + 1, s.body, t, l, brk, cont, sw) && sw == Some(s.id)
            && pc < |p| && p[pc].Mark? && FindLabel(p, LabelOf(s.id, s.key)) == Some(pc)
            && |LowerStmt(s, t, l).code| == 1 + |a.code|
  {
    CodeSplit(p, pc, [Mark(LabelOf(s.id, s.key))], LowerStmt(s.body, t, l).code);
    InstrAt(p, pc, [Mark(LabelOf(s.id, s.key))], 0);
    LabelFound(p, pc);
  }

  lemma {:induction false} CaseSim(p: Code, pc: nat, c: Config, fuel: nat, s: Stmt, at: Option<Key>, st: Store, t: nat,
                                   l: nat,
                                   brk: Option<nat>, cont: Option<nat>, sw: Option<nat>)
    returns (n: nat)
    requires s.Case? && Placed(p, pc, s, t, l, brk, cont, sw) && Entered(p, pc, c, s, at, sw) && Agree(st, c.st)
    ensures Follows(p, c, n, Run(fuel, s, at, st), pc + |LowerStmt(s, t, l).code|, brk, cont, fuel)
    decreases fuel, s, 2
  {
    hide Steps, CodeAt, LowerStmt, WellLabelled, DistinctLabels, Alu;
    CasePlaced(p, pc, s, t, l, brk, cont, sw);
    var a := LowerStmt(s.body, t, l);
    if at.Some? && at.value != s.key {
      n := StmtSim(p, pc + 1, c, fuel, s.body, at, st, t, l, brk, cont, sw);
    } else {
      NoSteps(p, c);
      OneStep(p, c, 0);
      n := StmtSim(p, pc + 1, Steps(p, c, 1).c, fuel, s.body, None, st, t, l, brk, cont, sw);
      Prepend(p, c, 1, n, Run(fuel, s.body, None, st), pc + 1 + |a.code|, brk, cont, fuel, fuel);
      n := 1 + n;
    }
  }

  lemma IfPlaced(p: Code, pc: nat, s: Stmt, t: nat, l: nat, brk: Option<nat>, cont: Option<nat>, sw: Option<nat>)
    requires s.If? && Placed(p, pc, s, t, l, brk, cont, sw)
    ensures var x := LowerExpr(s.c, t, l);
            var a := LowerStmt(s.body, x.t, x.l);
            var pb := pc + |x.code| + 2;
            && ExprOk(s.c) && CodeAt(p, pc, x.code + [Cmp(x.val, Const(0)), CondJump(CondE, Gen(EndLabel, a.l))])
            && Placed(p, pb, s.body, x.t, x.l, brk, cont, sw)
            && pb + |a.code| < |p| && p[pb + |a.code|] == Mark(Gen(EndLabel, a.l))
            && pc + |LowerStmt(s, t, l).code| == pb + |a.code| + 1
  {
    hide LowerExpr, IfCode, DistinctLabels, CodeAt;
    var x := LowerExpr(s.c, t, l);
    var a := LowerStmt(s.body, x.t, x.l);
    IfLayout(p, pc, x.code, x.val, a.code, Gen(EndLabel, a.l));
  }

  lemma {:induction false} IfSim(p: Code, pc: nat, c: Config, fuel: nat, s: Stmt, at: Option<Key>, st: Store, t: nat,
                                 l: nat,
                                 brk: Option<nat>, cont: Option<nat>, sw: Option<nat>)
    returns (n: nat)
    requires s.If? && Placed(p, pc, s, t, l, brk, cont, sw) && Entered(p, pc, c, s, at, sw) && Agree(st, c.st)
    ensures Follows(p, c, n, Run(fuel, s, at, st), pc + |LowerStmt(s, t, l).code|, brk, cont, fuel)
    decreases fuel, s, 2
  {
    hide Steps, Step, LowerExpr, LowerStmt, Eval, CodeAt, StmtOk, WellLabelled, DistinctLabels;
    IfPlaced(p, pc, s, t, l, brk, cont, sw);
    var x := LowerExpr(s.c, t, l);
    var a := LowerStmt(s.body, x.t, x.l);
    var end := Gen(EndLabel, a.l);
    var pb := pc + |x.code| + 2;
    if at.Some? {
      n := StmtSim(p, pb, c, fuel, s.body, at, st, x.t, x.l, brk, cont, sw);
      n := Slide(p, c, n, Run(fuel, s.body, at, st), pb + |a.code|, pb + |a.code| + 1, brk, cont, fuel);
    } else {
      var m := TestSim(p, c, s.c, t, l, st, CondE, end, pb + |a.code|);
      n := m;
      if Eval(s.c, st).Some? {
        var r := Eval(s.c, st).value;
        if r.v == 0 {
          n := Slide(p, c, m, Done(Normal, r.st), pb + |a.code|, pb + |a.code| + 1, brk, cont, fuel);
        } else {
          n := StmtSim(p, pb, Steps(p, c, m).c, fuel, s.body, None, r.st, x.t, x.l, brk, cont, sw);
          Prepend(p, c, m, n, Run(fuel, s.body, None, r.st), pb + |a.code|, brk, cont, fuel, fuel);
          n := Slide(p, c, m + n, Run(fuel, s.body, None, r.st), pb + |a.code|, pb + |a.code| + 1, brk, cont, fuel);
        }
      }
    }
  }

  lemma IfElsePlaced(p: Code, pc: nat, s: Stmt, t: nat, l: nat, brk: Option<nat>, cont: Option<nat>, sw: Option<nat>)
    requires s.IfElse? && Placed(p, pc, s, t, l, brk, cont, sw)
    ensures var x := LowerExpr(s.c, t, l);
            var a := LowerStmt(s.thn, x.t, x.l);
            var b := LowerStmt(s.els, a.t, a.l);
            var els, end := Gen(ElseLabel, b.l), Gen(EndLabel, b.l + 1);
            var pt := pc + |x.code| + 2;
            var pj := pt + |a.code|;
            var pe := pj + 2 + |b.code|;
            && ExprOk(s.c) && CodeAt(p, pc, x.code + [Cmp(x.val, Const(0)), CondJump(CondE, els)])
            && Placed(p, pt, s.thn, x.t, x.l, brk, cont, sw) && Placed(p, pj + 2, s.els, a.t, a.l, brk, cont, sw)
            && pe < |p| && p[pj] == Jump(end) && p[pj + 1] == Mark(els) && p[pe] == Mark(end)
            && pc + |LowerStmt(s, t, l).code| == pe + 1
  {
    hide LowerExpr, IfElseCode, DistinctLabels, CodeAt;
    var x := LowerExpr(s.c, t, l);
    var a := LowerStmt(s.thn, x.t, x.l);
    var b := LowerStmt(s.els, a.t, a.l);
    IfElseLayout(p, pc, x.code, x.val, a.code, b.code, Gen(ElseLabel, b.l), Gen(EndLabel, b.l + 1));
  }

  /** The two ways into an `if`-`else`: at a case label of one of its branches, or at its start. */
  lemma {:induction false} IfElseAt(p: Code, pc: nat, c: Config, fuel: nat, s: Stmt, at: Option<Key>, st: Store, t: nat,
                                    l: nat,
                                    brk: Option<nat>, cont: Option<nat>, sw: Option<nat>)
    returns (n: nat)
    requires s.IfElse? && Placed(p, pc, s, t, l, brk, cont, sw) && Entered(p, pc, c, s, at, sw) && Agree(st, c.st) &&
             at.Some?
    ensures Follows(p, c, n, Run(fuel, s, at, st), pc + |LowerStmt(s, t, l).code|, brk, cont, fuel)
    decreases fuel, s, 1
  {
    hide Steps, Step, LowerExpr, LowerStmt, Eval, CodeAt, StmtOk, WellLabelled, DistinctLabels, Follows;
    IfElsePlaced(p, pc, s, t, l, brk, cont, sw);
    var x := LowerExpr(s.c, t, l);
    var a := LowerStmt(s.thn, x.t, x.l);
    var b := LowerStmt(s.els, a.t, a.l);
    var pt := pc + |x.code| + 2;
    var pj := pt + |a.code|;
    var pe := pj + 2 + |b.code|;
    if at.value in Keys(s.thn) {
      n := StmtSim(p, pt, c, fuel, s.thn, at, st, x.t, x.l, brk, cont, sw);
      n := Slide(p, c, n, Run(fuel, s.thn, at, st), pj, pe, brk, cont, fuel);
      n := Slide(p, c, n, Run(fuel, s.thn, at, st), pe, pe + 1, brk, cont, fuel);
    } else {
      n := StmtSim(p, pj + 2, c, fuel, s.els, at, st, a.t, a.l, brk, cont, sw);
      n := Slide(p, c, n, Run(fuel, s.els, at, st), pe, pe + 1, brk, cont, fuel);
    }
  }

  lemma {:induction false} IfElseFresh(p: Code, pc: nat, c: Config, fuel: nat, s: Stmt, st: Store, t: nat, l: nat,
                                       brk: Option<nat>, cont: Option<nat>, sw: Option<nat>)
    returns (n: nat)
    requires s.IfElse? && Placed(p, pc, s, t, l, brk, cont, sw) && c.pc == pc && Agree(st, c.st)
    ensures Follows(p, c, n, Run(fuel, s, None, st), pc + |LowerStmt(s, t, l).code|, brk, cont, fuel)
    decreases fuel, s, 1
  {
    hide Steps, Step, LowerExpr, LowerStmt, Eval, CodeAt, StmtOk, WellLabelled, DistinctLabels;
    IfElsePlaced(p, pc, s, t, l, brk, cont, sw);
    var x := LowerExpr(s.c, t, l);
    var a := LowerStmt(s.thn, x.t, x.l);
    var b := LowerStmt(s.els, a.t, a.l);
    var pt := pc + |x.code| + 2;
    var pj := pt + |a.code|;
    var pe := pj + 2 + |b.code|;
    var m := TestSim(p, c, s.c, t, l, st, CondE, Gen(ElseLabel, b.l), pj + 1);
    n := m;
    if Eval(s.c, st).Some? {
      var r := Eval(s.c, st).value;
      if r.v != 0 {
        n := StmtSim(p, pt, Steps(p, c, m).c, fuel, s.thn, None, r.st, x.t, x.l, brk, cont, sw);
        Prepend(p, c, m, n, Run(fuel, s.thn, None, r.st), pj, brk, cont, fuel, fuel);
        n := Slide(p, c, m + n, Run(fuel, s.thn, None, r.st), pj, pe, brk, cont, fuel);
        n := Slide(p, c, n, Run(fuel, s.thn, None, r.st), pe, pe + 1, brk, cont, fuel);
      } else {
        m := Slide(p, c, m, Done(Normal, r.st), pj + 1, pj + 2, brk, cont, fuel);
        n := StmtSim(p, pj + 2, Steps(p, c, m).c, fuel, s.els, None, r.st, a.t, a.l, brk, cont, sw);
        Prepend(p, c, m, n, Run(fuel, s.els, None, r.st), pe, brk, cont, fuel, fuel);
        n := Slide(p, c, m + n, Run(fuel, s.els, None, r.st), pe, pe + 1, brk, cont, fuel);
      }
    }
  }

  lemma {:induction false} IfElseSim(p: Code, pc: nat, c: Config, fuel: nat, s: Stmt, at: Option<Key>, st: Store,
                                     t: nat, l: nat,
                                     brk: Option<nat>, cont: Option<nat>, sw: Option<nat>)
    returns (n: nat)
    requires s.IfElse? && Placed(p, pc, s, t, l, brk, cont, sw) && Entered(p, pc, c, s, at, sw) && Agree(st, c.st)
    ensures Follows(p, c, n, Run(fuel, s, at, st), pc + |LowerStmt(s, t, l).code|, brk, cont, fuel)
    decreases fuel, s, 2
  {
    hide Run, LowerStmt, Placed, Follows;
    if at.Some? {
      n := IfElseAt(p, pc, c, fuel, s, at, st, t, l, brk, cont, sw);
    } else {
      n := IfElseFresh(p, pc, c, fuel, s, st, t, l, brk, cont, sw);
    }
  }

  lemma WhilePlaced(p: Code, pc: nat, s: Stmt, t: nat, l: nat, brk: Option<nat>, cont: Option<nat>, sw: Option<nat>)
    requires s.While? && Placed(p, pc, s, t, l, brk, cont, sw)
    ensures var a := LowerStmt(s.body, t, l);
            var x := LowerExpr(s.c, a.t, a.l);
            var pb := pc + |x.code| + 3;
            var pj := pb + |a.code|;
            && CodeAt(p, pc + 1, x.code + [Cmp(x.val, Const(0)), CondJump(CondE, BreakOf(s.id))])
            && Placed(p, pb, s.body, t, l, Some(s.id), Some(s.id), sw)
            && pj + 1 < |p| && p[pc] == Mark(ContinueOf(s.id)) && p[pj] == Jump(ContinueOf(s.id)) &&
              p[pj + 1] == Mark(BreakOf(s.id))
            && FindLabel(p, ContinueOf(s.id)) == Some(pc) && FindLabel(p, BreakOf(s.id)) == Some(pj + 1)
            && pc + |LowerStmt(s, t, l).code| == pj + 2
  {
    hide LowerExpr, WhileCode;
    var a := LowerStmt(s.body, t, l);
    var x := LowerExpr(s.c, a.t, a.l);
    WhileLayout(p, pc, x.code, x.val, a.code, s.id);
    LabelFound(p, pc);
    LabelFound(p, pc + |x.code| + 4 + |a.code|);
  }

  lemma {:induction false} WhileSim(p: Code, pc: nat, c: Config, fuel: nat, s: Stmt, at: Option<Key>, st: Store, t: nat,
                                    l: nat,
                                    brk: Option<nat>, cont: Option<nat>, sw: Option<nat>)
    returns (n: nat)
    requires s.While? && Placed(p, pc, s, t, l, brk, cont, sw) && Entered(p, pc, c, s, at, sw) && Agree(st, c.st)
    ensures Follows(p, c, n, Run(fuel, s, at, st), pc + |LowerStmt(s, t, l).code|, brk, cont, fuel)
    decreases fuel, s, 2
  {
    hide Steps, LowerExpr, LowerStmt, Eval, CodeAt, WellLabelled, DistinctLabels, Alu;
    WhilePlaced(p, pc, s, t, l, brk, cont, sw);
    var a := LowerStmt(s.body, t, l);
    var x := LowerExpr(s.c, a.t, a.l);
    var pb := pc + |x.code| + 3;
    var pj := pb + |a.code|;
    var me := Some(s.id);
    if at.Some? {
      n := StmtSim(p, pb, c, fuel, s.body, at, st, t, l, me, me, sw);
      n := WhileBack(p, pc, c, n, fuel, s, Run(fuel, s.body, at, st), t, l, brk, cont, sw);
    } else {
      NoSteps(p, c);
      OneStep(p, c, 0);
      var c1 := Steps(p, c, 1).c;
      var m := TestSim(p, c1, s.c, a.t, a.l, st, CondE, BreakOf(s.id), pj + 1);
      StepsCompose(p, c, 1, m);
      n := m;
      if Eval(s.c, st).Some? {
        var r := Eval(s.c, st).value;
        if r.v == 0 {
          n := Slide(p, c, 1 + m, Done(Normal, r.st), pj + 1, pj + 2, brk, cont, fuel);
        } else {
          n := StmtSim(p, pb, Steps(p, c, 1 + m).c, fuel, s.body, None, r.st, t, l, me, me, sw);
          Prepend(p, c, 1 + m, n, Run(fuel, s.body, None, r.st), pj, me, me, fuel, fuel);
          n := WhileBack(p, pc, c, 1 + m + n, fuel, s, Run(fuel, s.body, None, r.st), t, l, brk, cont, sw);
        }
      }
    }
  }

  /** What happens after the body of a while loop has run with result `r`. */
  lemma {:induction false} WhileBack(p: Code, pc: nat, c: Config, n: nat, fuel: nat, s: Stmt, r: Result, t: nat, l: nat,
                                     brk: Option<nat>, cont: Option<nat>, sw: Option<nat>)
    returns (n': nat)
    requires s.While? && Placed(p, pc, s, t, l, brk, cont, sw)
    requires Follows(p, c, n, r, pc + |LowerStmt(s, t, l).code| - 2, Some(s.id), Some(s.id), fuel)
    ensures Follows(p, c, n', AfterWhile(fuel, s, r), pc + |LowerStmt(s, t, l).code|, brk, cont, fuel)
    decreases fuel, s, 1
  {
    hide Steps, Step, LowerExpr, LowerStmt, Eval, CodeAt, WellLabelled, DistinctLabels, Run;
    WhilePlaced(p, pc, s, t, l, brk, cont, sw);
    var a := LowerStmt(s.body, t, l);
    var x := LowerExpr(s.c, a.t, a.l);
    var pj := pc + |x.code| + 3 + |a.code|;
    n' := n;
    if r.Done? && (r.o == Normal || r.o == Continued) {
      if r.o == Normal {
        n' := Slide(p, c, n, r, pj, pc, Some(s.id), Some(s.id), fuel);
      }
      NoSteps(p, c);
      if fuel > 0 {
        var m := StmtSim(p, pc, Steps(p, c, n').c, fuel - 1, s, None, r.st, t, l, brk, cont, sw);
        Prepend(p, c, n', m, Run(fuel - 1, s, None, r.st), pj + 2, brk, cont, fuel, fuel - 1);
        n' := n' + m;
      }
    } else if r.Done? && r.o == Broke {
      n' := Slide(p, c, n, Done(Normal, r.st), pj + 1, pj + 2, brk, cont, fuel);
    }
  }

  lemma DoPlaced(p: Code, pc: nat, s: Stmt, t: nat, l: nat, brk: Option<nat>, cont: Option<nat>, sw: Option<nat>)
    requires s.DoWhile? && Placed(p, pc, s, t, l, brk, cont, sw)
    ensures var a := LowerStmt(s.body, t, l);
            var x := LowerExpr(s.c, a.t, a.l);
            var pk := pc + 1 + |a.code|;
            var pe := pk + 3 + |x.code|;
            && CodeAt(p, pk + 1, x.code + [Cmp(x.val, Const(0)), CondJump(CondNE, StartOf(s.id))])
            && Placed(p, pc + 1, s.body, t, l, Some(s.id), Some(s.id), sw)
            && pe < |p| && p[pc] == Mark(StartOf(s.id)) && p[pk] == Mark(ContinueOf(s.id)) &&
              p[pe] == Mark(BreakOf(s.id))
            && FindLabel(p, ContinueOf(s.id)) == Some(pk) && FindLabel(p, BreakOf(s.id)) == Some(pe)
            && pc + |LowerStmt(s, t, l).code| == pe + 1
  {
    hide LowerExpr, DoCode;
    var a := LowerStmt(s.body, t, l);
    var x := LowerExpr(s.c, a.t, a.l);
    DoLayout(p, pc, a.code, x.code, x.val, s.id);
    LabelFound(p, pc + 1 + |a.code|);
    LabelFound(p, pc + 4 + |a.code| + |x.code|);
  }

  lemma {:induction false} DoSim(p: Code, pc: nat, c: Config, fuel: nat, s: Stmt, at: Option<Key>, st: Store, t: nat,
                                 l: nat,
                                 brk: Option<nat>, cont: Option<nat>, sw: Option<nat>)
    returns (n: nat)
    requires s.DoWhile? && Placed(p, pc, s, t, l, brk, cont, sw) && Entered(p, pc, c, s, at, sw) && Agree(st, c.st)
    ensures Follows(p, c, n, Run(fuel, s, at, st), pc + |LowerStmt(s, t, l).code|, brk, cont, fuel)
    decreases fuel, s, 2
  {
    hide Steps, LowerExpr, LowerStmt, Eval, CodeAt, WellLabelled, DistinctLabels, Alu;
    DoPlaced(p, pc, s, t, l, brk, cont, sw);
    var a := LowerStmt(s.body, t, l);
    var pk := pc + 1 + |a.code|;
    var me := Some(s.id);
    if at.Some? {
      n := StmtSim(p, pc + 1, c, fuel, s.body, at, st, t, l, me, me, sw);
    } else {
      NoSteps(p, c);
      OneStep(p, c, 0);
      n := StmtSim(p, pc + 1, Steps(p, c, 1).c, fuel, s.body, None, st, t, l, me, me, sw);
      Prepend(p, c, 1, n, Run(fuel, s.body, None, st), pk, me, me, fuel, fuel);
      n := 1 + n;
    }
    n := DoBack(p, pc, c, n, fuel, s, Run(fuel, s.body, at, st), t, l, brk, cont, sw);
  }

  /** What happens after the body of a do loop has run with result `r`. */
  lemma {:induction false} DoBack(p: Code, pc: nat, c: Config, n: nat, fuel: nat, s: Stmt, r: Result, t: nat, l: nat,
                                  brk: Option<nat>, cont: Option<nat>, sw: Option<nat>)
    returns (n': nat)
    requires s.DoWhile? && Placed(p, pc, s, t, l, brk, cont, sw)
    requires Follows(p, c, n, r, pc + 1 + |LowerStmt(s.body, t, l).code|, Some(s.id), Some(s.id), fuel)
    ensures Follows(p, c, n', AfterDo(fuel, s, r), pc + |LowerStmt(s, t, l).code|, brk, cont, fuel)
    decreases fuel, s, 1
  {
    hide Steps, Step, LowerExpr, LowerStmt, Eval, CodeAt, WellLabelled, DistinctLabels, Run;
    DoPlaced(p, pc, s, t, l, brk, cont, sw);
    var a := LowerStmt(s.body, t, l);
    var x := LowerExpr(s.c, a.t, a.l);
    var pk := pc + 1 + |a.code|;
    var pe := pk + 3 + |x.code|;
    n' := n;
    if r.Done? && (r.o == Normal || r.o == Continued) {
      n' := Slide(p, c, n, Done(Normal, r.st), pk, pk + 1, brk, cont, fuel);
      var m := TestSim(p, Steps(p, c, n').c, s.c, a.t, a.l, r.st, CondNE, StartOf(s.id), pc);
      StepsCompose(p, c, n', m);
      n' := n' + m;
      NoSteps(p, c);
      if Eval(s.c, r.st).Some? {
        var y := Eval(s.c, r.st).value;
        if y.v == 0 {
          n' := Slide(p, c, n', Done(Normal, y.st), pe, pe + 1, brk, cont, fuel);
        } else if fuel > 0 {
          var k := StmtSim(p, pc, Steps(p, c, n').c, fuel - 1, s, None, y.st, t, l, brk, cont, sw);
          Prepend(p, c, n', k, Run(fuel - 1, s, None, y.st), pe + 1, brk, cont, fuel, fuel - 1);
          n' := n' + k;
        }
      }
    } else if r.Done? && r.o == Broke {
      n' := Slide(p, c, n, Done(Normal, r.st), pe, pe + 1, brk, cont, fuel);
    }
  }

  lemma OptSim(p: Code, c: Config, e: Option<Expr>, t: nat, l: nat, st: Store) returns (n: nat)
    requires DistinctLabels(p) && OptOk(e) && Agree(st, c.st) && CodeAt(p, c.pc, LowerOpt(e, t, l).code)
    ensures EvalOpt(e, st).Some? ==> At(p, c, n, c.pc + |LowerOpt(e, t, l).code|, EvalOpt(e, st).value.st)
  {
    hide Steps, LowerExpr, Eval;
    n := 0;
    match e {
      case None => NoSteps(p, c);
      case Some(e1) => n := ExprSim(p, c, e1, t, l, st);
    }
  }

  /** Positions inside the code of a for loop. */
  datatype ForMap = ForMap(init: Lowered, body: LoweredStmt, test: Lowered, step: Lowered, ps: nat, pb: nat, pk: nat,
                           pj: nat)

  ghost function MapFor(s: Stmt, pc: nat, t: nat, l: nat): ForMap
    requires s.For?
  {
    var i := LowerOpt(s.init, t, l);
    var a := LowerStmt(s.body, i.t, i.l);
    var x := LowerOpt(s.fc, a.t, a.l);
    var y := LowerOpt(s.end, x.t, x.l);
    var ps := pc + |i.code|;
    var pb := ps + 1 + |ForTest(s.fc.Some?, x.code, x.val, s.id)|;
    var pk := pb + |a.code|;
    ForMap(i, a, x, y, ps, pb, pk, pk + 1 + |y.code|)
  }

  lemma ForPlaced(p: Code, pc: nat, s: Stmt, t: nat, l: nat, brk: Option<nat>, cont: Option<nat>, sw: Option<nat>)
    requires s.For? && Placed(p, pc, s, t, l, brk, cont, sw)
    ensures var f := MapFor(s, pc, t, l);
            && CodeAt(p, pc, f.init.code)
            && CodeAt(p, f.ps + 1, ForTest(s.fc.Some?, f.test.code, f.test.val, s.id))
            && CodeAt(p, f.pk + 1, f.step.code)
            && Placed(p, f.pb, s.body, f.init.t, f.init.l, Some(s.id), Some(s.id), sw)
            && f.pj + 1 < |p| && p[f.ps] == Mark(StartOf(s.id)) && p[f.pk] == Mark(ContinueOf(s.id))
            && p[f.pj] == Jump(StartOf(s.id)) && p[f.pj + 1] == Mark(BreakOf(s.id))
            && FindLabel(p, ContinueOf(s.id)) == Some(f.pk) && FindLabel(p, BreakOf(s.id)) == Some(f.pj + 1)
            && pc + |LowerStmt(s, t, l).code| == f.pj + 2
  {
    hide ForTest, LowerOpt, ForCode, CodeAt, DistinctLabels, FindLabel;
    var f := MapFor(s, pc, t, l);
    ForLayout(p, pc, f.init.code, ForTest(s.fc.Some?, f.test.code, f.test.val, s.id), f.body.code, f.step.code, s.id);
    LabelFound(p, f.pk);
    LabelFound(p, f.pj + 1);
  }

  lemma {:induction false} ForSim(p: Code, pc: nat, c: Config, fuel: nat, s: Stmt, at: Option<Key>, st: Store, t: nat,
                                  l: nat,
                                  brk: Option<nat>, cont: Option<nat>, sw: Option<nat>)
    returns (n: nat)
    requires s.For? && Placed(p, pc, s, t, l, brk, cont, sw) && Entered(p, pc, c, s, at, sw) && Agree(st, c.st)
    ensures Follows(p, c, n, Run(fuel, s, at, st), pc + |LowerStmt(s, t, l).code|, brk, cont, fuel)
    decreases fuel, s, 2
  {
    hide Steps, LowerOpt, EvalOpt, CodeAt, ForLoop, LowerStmt;
    ForPlaced(p, pc, s, t, l, brk, cont, sw);
    if at.Some? {
      n := ForLoopSim(p, pc, c, fuel, s, at, st, t, l, brk, cont, sw);
    } else {
      var m := OptSim(p, c, s.init, t, l, st);
      n := m;
      if EvalOpt(s.init, st).Some? {
        var st1 := EvalOpt(s.init, st).value.st;
        n := ForLoopSim(p, pc, Steps(p, c, m).c, fuel, s, None, st1, t, l, brk, cont, sw);
        Prepend(p, c, m, n, ForLoop(fuel, s, None, st1), pc + |LowerStmt(s, t, l).code|, brk, cont, fuel, fuel);
        n := m + n;
      }
    }
  }

  /** A for loop from the test, or from a case label inside its body. */
  lemma {:induction false} ForLoopSim(p: Code, pc: nat, c: Config, fuel: nat, s: Stmt, at: Option<Key>, st: Store,
                                      t: nat, l: nat,
                                      brk: Option<nat>, cont: Option<nat>, sw: Option<nat>)
    returns (n: nat)
    requires s.For? && Placed(p, pc, s, t, l, brk, cont, sw) && Agree(st, c.st)
    requires at.Some? ==> Entered(p, pc, c, s, at, sw)
    requires at.None? ==> c.pc == MapFor(s, pc, t, l).ps
    ensures Follows(p, c, n, ForLoop(fuel, s, at, st), pc + |LowerStmt(s, t, l).code|, brk, cont, fuel)
    decreases fuel, s, 1
  {
    hide Steps, EvalOpt, CodeAt, LowerStmt, MapFor, Run, AfterFor;
    ForPlaced(p, pc, s, t, l, brk, cont, sw);
    var f := MapFor(s, pc, t, l);
    var me := Some(s.id);
    if at.Some? {
      n := StmtSim(p, f.pb, c, fuel, s.body, at, st, f.init.t, f.init.l, me, me, sw);
      ForBodyEnd(s, pc, t, l);
      n := ForBack(p, pc, c, n, fuel, s, Run(fuel, s.body, at, st), t, l, brk, cont, sw);
    } else {
      var m := ForTestSim(p, pc, c, s, st, t, l, brk, cont, sw);
      n := m;
      if EvalOpt(s.fc, st).Some? {
        var r := EvalOpt(s.fc, st).value;
        if r.v == 0 {
          n := Slide(p, c, m, Done(Normal, r.st), f.pj + 1, f.pj + 2, brk, cont, fuel);
        } else {
          n := StmtSim(p, f.pb, Steps(p, c, m).c, fuel, s.body, None, r.st, f.init.t, f.init.l, me, me, sw);
          ForBodyEnd(s, pc, t, l);
          Prepend(p, c, m, n, Run(fuel, s.body, None, r.st), f.pk, me, me, fuel, fuel);
          n := ForBack(p, pc, c, m + n, fuel, s, Run(fuel, s.body, None, r.st), t, l, brk, cont, sw);
        }
      }
    }
  }

  lemma ForBodyEnd(s: Stmt, pc: nat, t: nat, l: nat)
    requires s.For?
    ensures var f := MapFor(s, pc, t, l);
            f.pk == f.pb + |LowerStmt(s.body, f.init.t, f.init.l).code|
  {
    hide LowerOpt, LowerStmt, ForTest;
  }

  /** The label and test at the head of a for loop; a missing condition counts as true. */
  lemma ForTestSim(p: Code, pc: nat, c: Config, s: Stmt, st: Store, t: nat, l: nat,
                   brk: Option<nat>, cont: Option<nat>, sw: Option<nat>)
    returns (n: nat)
    requires s.For? && Placed(p, pc, s, t, l, brk, cont, sw) && Agree(st, c.st) && c.pc == MapFor(s, pc, t, l).ps
    ensures n > 0
    ensures EvalOpt(s.fc, st).Some? ==>
              var r := EvalOpt(s.fc, st).value;
              var f := MapFor(s, pc, t, l);
              At(p, c, n, if r.v == 0 then f.pj + 1 else f.pb, r.st)
  {
    hide Steps, CodeAt, LowerStmt, LowerExpr, Eval;
    ForPlaced(p, pc, s, t, l, brk, cont, sw);
    var f := MapFor(s, pc, t, l);
    NoSteps(p, c);
    OneStep(p, c, 0);
    n := 1;
    if s.fc.Some? {
      var a := LowerStmt(s.body, f.init.t, f.init.l);
      n := TestSim(p, Steps(p, c, 1).c, s.fc.value, a.t, a.l, st, CondE, BreakOf(s.id), f.pj + 1);
      StepsCompose(p, c, 1, n);
      n := 1 + n;
    }
  }

  /** What happens after the body of a for loop has run with result `r`. */
  lemma {:induction false} ForBack(p: Code, pc: nat, c: Config, n: nat, fuel: nat, s: Stmt, r: Result, t: nat, l: nat,
                                   brk: Option<nat>, cont: Option<nat>, sw: Option<nat>)
    returns (n': nat)
    requires s.For? && Placed(p, pc, s, t, l, brk, cont, sw)
    requires Follows(p, c, n, r, MapFor(s, pc, t, l).pk, Some(s.id), Some(s.id), fuel)
    ensures Follows(p, c, n', AfterFor(fuel, s, r), pc + |LowerStmt(s, t, l).code|, brk, cont, fuel)
    decreases fuel, s, 0
  {
    hide Steps, Step, EvalOpt, CodeAt, LowerStmt, Run, ForLoop;
    ForPlaced(p, pc, s, t, l, brk, cont, sw);
    var f := MapFor(s, pc, t, l);
    n' := n;
    NoSteps(p, c);
    if r.Done? && (r.o == Normal || r.o == Continued) {
      n' := Slide(p, c, n, Done(Normal, r.st), f.pk, f.pk + 1, brk, cont, fuel);
      var a := LowerStmt(s.body, f.init.t, f.init.l);
      var m := OptSim(p, Steps(p, c, n').c, s.end, f.test.t, f.test.l, r.st);
      StepsCompose(p, c, n', m);
      if EvalOpt(s.end, r.st).Some? && fuel > 0 {
        var st1 := EvalOpt(s.end, r.st).value.st;
        n' := Slide(p, c, n' + m, Done(Normal, st1), f.pj, f.ps, brk, cont, fuel);
        var k := ForLoopSim(p, pc, Steps(p, c, n').c, fuel - 1, s, None, st1, t, l, brk, cont, sw);
        Prepend(p, c, n', k, ForLoop(fuel - 1, s, None, st1), f.pj + 2, brk, cont, fuel, fuel - 1);
        n' := n' + k;
      }
    } else if r.Done? && r.o == Broke {
      n' := Slide(p, c, n, Done(Normal, r.st), f.pj + 1, f.pj + 2, brk, cont, fuel);
    }
  }

  lemma SwitchPlaced(p: Code, pc: nat, s: Stmt, t: nat, l: nat, brk: Option<nat>, cont: Option<nat>, sw: Option<nat>)
    requires s.Switch? && Placed(p, pc, s, t, l, brk, cont, sw)
    ensures var x := LowerExpr(s.c, t, l);
            var cases := LowerCases(s.id, Keys(s.body), x.val);
            var a := LowerStmt(s.body, x.t, x.l);
            var pb := pc + |x.code| + |cases|;
            && CodeAt(p, pc, x.code) && CodeAt(p, pc + |x.code|, cases)
            && Placed(p, pb, s.body, x.t, x.l, Some(s.id), cont, Some(s.id))
            && pb + |a.code| < |p| && p[pb + |a.code|] == Mark(BreakOf(s.id))
            && FindLabel(p, BreakOf(s.id)) == Some(pb + |a.code|)
            && (forall k :: k in Keys(s.body) ==> Mark(LabelOf(s.id, k)) in p)
            && pc + |LowerStmt(s, t, l).code| == pb + |a.code| + 1
  {
    hide LowerExpr, LowerCases, LabelOf;
    var x := LowerExpr(s.c, t, l);
    var cases := LowerCases(s.id, Keys(s.body), x.val);
    var a := LowerStmt(s.body, x.t, x.l);
    SwitchLayout(p, pc, x.code, cases, a.code, s.id);
    var pb := pc + |x.code| + |cases|;
    LabelFound(p, pb + |a.code|);
    KeysDefined(p, pb, s.body, x.t, x.l, Some(s.id), cont, s.id);
  }

  lemma KeysDefined(p: Code, pc: nat, s: Stmt, t: nat, l: nat, brk: Option<nat>, cont: Option<nat>, id: nat)
    requires CodeAt(p, pc, LowerStmt(s, t, l).code) && WellLabelled(s, brk, cont, Some(id))
    ensures forall k :: k in Keys(s) ==> Mark(LabelOf(id, k)) in p
  {
    hide LowerStmt, WellLabelled;
    var code := LowerStmt(s, t, l).code;
    forall k | k in Keys(s)
      ensures Mark(LabelOf(id, k)) in p
    {
      KeyDefined(s, t, l, brk, cont, Some(id), k);
      var i :| 0 <= i < |code| && code[i] == Mark(LabelOf(id, k));
      InstrAt(p, pc, code, i);
    }
  }

  lemma {:induction false} SwitchSim(p: Code, pc: nat, c: Config, fuel: nat, s: Stmt, st: Store, t: nat, l: nat,
                                     brk: Option<nat>, cont: Option<nat>, sw: Option<nat>)
    returns (n: nat)
    requires s.Switch? && Placed(p, pc, s, t, l, brk, cont, sw) && c.pc == pc && Agree(st, c.st)
    ensures Follows(p, c, n, Run(fuel, s, None, st), pc + |LowerStmt(s, t, l).code|, brk, cont, fuel)
    decreases fuel, s, 2
  {
    hide Steps, Step, LowerExpr, Eval, CodeAt, LowerStmt, LowerCases, Dispatch;
    SwitchPlaced(p, pc, s, t, l, brk, cont, sw);
    var x := LowerExpr(s.c, t, l);
    var a := LowerStmt(s.body, x.t, x.l);
    var pb := pc + |x.code| + |LowerCases(s.id, Keys(s.body), x.val)|;
    var pe := pb + |a.code|;
    n := ExprSim(p, c, s.c, t, l, st);
    if Eval(s.c, st).Some? {
      var r := Eval(s.c, st).value;
      EvalInRange(s.c, st);
      var m := DispatchSim(p, Steps(p, c, n).c, s.id, Keys(s.body), x.val, TypeOf(s.c), r.v);
      StepsCompose(p, c, n, m);
      n := n + m;
      var k := Dispatch(Keys(s.body), TypeOf(s.c), r.v);
      if k.None? {
        n := Slide(p, c, n, Done(Normal, r.st), pe, pe + 1, brk, cont, fuel);
      } else {
        m := StmtSim(p, pb, Steps(p, c, n).c, fuel, s.body, k, r.st, x.t, x.l, Some(s.id), cont, Some(s.id));
        var q := Run(fuel, s.body, k, r.st);
        Prepend(p, c, n, m, q, pe, Some(s.id), cont, fuel, fuel);
        n := SwitchEnd(p, c, n + m, q, pe, s.id, brk, cont, fuel);
      }
    }
  }

  lemma SwitchEnd(p: Code, c: Config, n: nat, r: Result, pe: nat, id: nat, brk: Option<nat>, cont: Option<nat>,
                  fuel: nat)
    returns (n': nat)
    requires DistinctLabels(p) && pe < |p| && p[pe] == Mark(BreakOf(id)) && FindLabel(p, BreakOf(id)) == Some(pe)
    requires Follows(p, c, n, r, pe, Some(id), cont, fuel)
    ensures Follows(p, c, n', AfterSwitch(r), pe + 1, brk, cont, fuel)
  {
    hide Steps, Step;
    n' := n;
    if r.Done? && (r.o == Normal || r.o == Broke) {
      n' := Slide(p, c, n, Done(Normal, r.st), pe, pe + 1, brk, cont, fuel);
    }
  }

  // ----- The function -----

  ghost predicate Starts(p: Code, c: Config, st: Store) {
    c.pc == 0 && Agree(st, c.st)
  }

  /** The machine follows the body of a function up to its return, the one written in the
      source or the one that is appended. */
  lemma FunctionSim(body: Stmt, t: nat, l: nat, fuel: nat, st: Store, c: Config) returns (n: nat)
    requires StmtOk(body) && WellLabelled(body, None, None, None) && Starts(LowerFunction(body, t, l), c, st)
    ensures var p := LowerFunction(body, t, l);
            match Run(fuel, body, None, st) {
              case Wrong => true
              case Timeout => Steps(p, c, fuel).Next?
              case Done(o, st') =>
                var q := Steps(p, c, n);
                && (o.Normal? || o.Returned?)
                && q.Halt? && Agree(st', q.st)
                && q.v == if o.Returned? then ReturnWord(o.v) else 0
            }
  {
    hide Steps, LowerStmt, Run, DistinctLabels;
    var p := LowerFunction(body, t, l);
    var code := LowerStmt(body, t, l).code;
    FunctionLabels(body, t, l);
    assert p == code + [Tac.Return(Some(Const(0)))];
    assert CodeAt(p, 0, p) by { assert p[0..|p|] == p; }
    CodeSplit(p, 0, code, [Tac.Return(Some(Const(0)))]);
    InstrAt(p, |code|, [Tac.Return(Some(Const(0)))], 0);
    n := StmtSim(p, 0, c, fuel, body, None, st, t, l, None, None, None);
    var r := Run(fuel, body, None, st);
    if r.Done? && r.o == Normal {
      OneStep(p, c, n);
      n := n + 1;
    }
  }

  /** The result of a source function as the machine shows it. */
  ghost predicate Returns(body: Stmt, st: Store, w: Word, st': Store) {
    exists fuel :: ReturnsIn(fuel, body, st, w, st')
  }

  ghost predicate ReturnsIn(fuel: nat, body: Stmt, st: Store, w: Word, st': Store) {
    var r := Run(fuel, body, None, st);
    && r.Done? && r.st == st'
    && (r.o == Normal ==> w == 0) && (r.o.Returned? ==> w == ReturnWord(r.o.v))
    && (r.o == Normal || r.o.Returned?)
  }

  ghost predicate GoesWrong(body: Stmt, st: Store) {
    exists fuel: nat :: Run(fuel, body, None, st) == Wrong
  }

  /** A body straight from the parser, through label resolution and lowering. */
  ghost predicate Compiled(body: Stmt, n: nat, t: nat, l: nat, p: Code) {
    && Resolve(body, n, TOP).Some?
    && StmtOk(body)
    && p == LowerFunction(Resolve(body, n, TOP).value.s, t, l)
  }

  lemma {:induction false} ResolveOk(s: Stmt, n: nat, env: Env)
    requires Resolve(s, n, env).Some? && StmtOk(s)
    ensures StmtOk(Resolve(s, n, env).value.s)
  {
    match s
    case Seq(a, b) => ResolveOk(a, n, env); ResolveOk(b, Resolve(a, n, env).value.n, env);
    case If(_, a) => ResolveOk(a, n, env);
    case IfElse(_, a, b) => ResolveOk(a, n, env); ResolveOk(b, Resolve(a, n, env).value.n, env);
    case While(_, a, _) => ResolveOk(a, n + 1, env.(loop := Some(n), inner := InLoop));
    case DoWhile(a, _, _) => ResolveOk(a, n + 1, env.(loop := Some(n), inner := InLoop));
    case For(_, _, _, a, _) => ResolveOk(a, n + 1, env.(loop := Some(n), inner := InLoop));
    case Switch(_, a, _) => ResolveOk(a, n + 1, env.(switch := Some(n), inner := InSwitch));
    case Case(_, a, _) => ResolveOk(a, n, env);
    case _ =>
  }

  /** Forward: a function that returns in the source returns the same word, with the same
      variables, from its three-address code. */
  lemma CompilerForward(body: Stmt, n: nat, t: nat, l: nat, p: Code, st: Store, c: Config, w: Word, st': Store)
    returns (k: nat)
    requires Compiled(body, n, t, l, p) && Starts(p, c, st) && Returns(body, st, w, st')
    ensures Steps(p, c, k).Halt? && Steps(p, c, k).v == w && Agree(st', Steps(p, c, k).st)
  {
    hide Steps, Run, LowerFunction, Resolve;
    var fuel: nat :| ReturnsIn(fuel, body, st, w, st');
    var s := Resolve(body, n, TOP).value.s;
    ResolveLabels(body, n, TOP);
    ResolveOk(body, n, TOP);
    ResolveMeaning(fuel, body, n, TOP, None, st);
    k := FunctionSim(s, t, l, fuel, st, c);
  }

  /** Backward: if the code stops, the source function stops in the same way, or has
      undefined behaviour. */
  lemma CompilerBackward(body: Stmt, n: nat, t: nat, l: nat, p: Code, st: Store, c: Config, k: nat)
    requires Compiled(body, n, t, l, p) && Starts(p, c, st) && !Steps(p, c, k).Next?
    ensures GoesWrong(body, st) ||
            (Steps(p, c, k).Halt? &&
             exists st' :: Returns(body, st, Steps(p, c, k).v, st') && Agree(st', Steps(p, c, k).st))
  {
    hide Steps, Run, LowerFunction, Resolve;
    var s := Resolve(body, n, TOP).value.s;
    ResolveLabels(body, n, TOP);
    ResolveOk(body, n, TOP);
    ResolveMeaning(k, body, n, TOP, None, st);
    var m := FunctionSim(s, t, l, k, st, c);
    var r := Run(k, body, None, st);
    if r.Done? {
      if m <= k { StepsFinal(p, c, m, k); } else { StepsFinal(p, c, k, m); }
      assert ReturnsIn(k, body, st, Steps(p, c, k).v, r.st);
    }
  }
}
