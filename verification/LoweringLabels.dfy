/** Every label of the emitted code is defined once.

    This is the condition that the interpreter checks before running a function;
    jumps have a single meaning because of it.
  */
module LoweringLabels {
  import opened Sequences
  import opened Words
  import opened CSource
  import opened Tac
  import opened Lowering
  import opened LabelResolution

  lemma DistinctConcat(a: Code, b: Code)
    requires DistinctLabels(a) && DistinctLabels(b)
    requires forall x :: !(Mark(x) in a && Mark(x) in b)
    ensures DistinctLabels(a + b)
  {
    var c := a + b;
    forall i, j | 0 <= i < j < |c| && c[i].Mark? && c[j].Mark?
      ensures c[i] != c[j]
    {
      if i < |a| <= j {
        assert c[i] == a[i] && c[j] == b[j - |a|];
        assert Mark(c[i].name) in a && Mark(c[j].name) in b;
      }
    }
  }

  // ----- Expressions -----

  /** All labels of `code` were made by the lowering pass, numbered in `lo..hi`. */
  ghost predicate GenOnly(code: Code, lo: nat, hi: nat) {
    DistinctLabels(code) && forall x :: Mark(x) in code ==> x.Gen? && lo <= x.n < hi
  }

  lemma GenConcat(a: Code, b: Code, lo: nat, mid: nat, hi: nat)
    requires GenOnly(a, lo, mid) && GenOnly(b, mid, hi) && lo <= mid <= hi
    ensures GenOnly(a + b, lo, hi)
  {
    DistinctConcat(a, b);
  }

  lemma TestLabels(dst: Name, code: Code, a: Val, b: Val, cond: Condition, lo: nat, hi: nat)
    requires GenOnly(code, lo, hi) && lo <= hi
    ensures GenOnly(SetUnless(dst, code, a, b, cond, Gen(EndLabel, hi)), lo, hi + 1)
  {
    var end := Gen(EndLabel, hi);
    GenConcat([Copy(dst, Const(1))], code, lo, lo, hi);
    GenConcat([Copy(dst, Const(1))] + code,
              [Cmp(a, b), CondJump(cond, end), Copy(dst, Const(0)), Mark(end)], lo, hi, hi + 1);
  }

  lemma ShortLabels(dst: Name, isAnd: bool, a: Code, av: Val, b: Code, bv: Val, lo: nat, mid: nat, hi: nat)
    requires GenOnly(a, lo, mid) && GenOnly(b, mid, hi) && lo <= mid <= hi
    ensures GenOnly(ShortCircuit(dst, isAnd, a, av, b, bv, Gen(EndLabel, hi)), lo, hi + 1)
  {
    var end := Gen(EndLabel, hi);
    var cond := if isAnd then CondE else CondNE;
    var h := [Copy(dst, Const(if isAnd then 0 else 1))];
    var j := [Cmp(av, Const(0)), CondJump(cond, end)];
    GenConcat(h, a, lo, lo, mid);
    GenConcat(h + a, j, lo, mid, mid);
    GenConcat(h + a + j, b, lo, mid, hi);
    GenConcat(h + a + j + b,
              [Cmp(bv, Const(0)), CondJump(cond, end), Copy(dst, Const(if isAnd then 1 else 0)), Mark(end)],
              lo, hi, hi + 1);
  }

  lemma ChooseLabels(dst: Name, c: Code, cv: Val, a: Code, av: Val, b: Code, bv: Val,
                     lo: nat, i: nat, j: nat, hi: nat)
    requires GenOnly(c, lo, i) && GenOnly(a, i, j) && GenOnly(b, j, hi) && lo <= i <= j <= hi
    ensures GenOnly(Choose(dst, c, cv, a, av, b, bv, Gen(ElseLabel, hi), Gen(EndLabel, hi + 1)), lo, hi + 2)
  {
    var els, end := Gen(ElseLabel, hi), Gen(EndLabel, hi + 1);
    var jump := [Cmp(cv, Const(0)), CondJump(CondE, els)];
    var mid := [Copy(dst, av), Jump(end), Mark(els)];
    GenConcat(c, jump, lo, i, i);
    GenConcat(c + jump, a, lo, i, j);
    DistinctConcat(c + jump + a, mid);
    DistinctConcat(c + jump + a + mid, b);
    DistinctConcat(c + jump + a + mid + b, [Copy(dst, bv), Mark(end)]);
  }

  lemma {:induction false} ExprLabels(e: Expr, t: nat, l: nat)
    ensures GenOnly(LowerExpr(e, t, l).code, l, LowerExpr(e, t, l).l)
  {
    hide GenOnly, LowerExpr;
    match e
    case Lit(_, _) => LeafLabels(e, t, l);
    case Var(_, _) => LeafLabels(e, t, l);
    case PostStep(_, _, _) => LeafLabels(e, t, l);
    case Cast(_, e1) => ExprLabels(e1, t, l); OneLabels(e, t, l);
    case Unary(_, e1) => ExprLabels(e1, t, l); OneLabels(e, t, l);
    case Assign(_, _, e1) => ExprLabels(e1, t, l); OneLabels(e, t, l);
    case Compound(_, _, _, e1) => ExprLabels(e1, t, l); OneLabels(e, t, l);
    case Not(e1) => ExprLabels(e1, t, l); OneLabels(e, t, l);
    case Binary(op, e1, e2) =>
      ExprLabels(e1, t, l);
      ExprLabels(e2, LowerExpr(e1, t, l).t, LowerExpr(e1, t, l).l);
      BinaryLabels(op, e1, e2, t, l);
    case Rel(rel, e1, e2) =>
      ExprLabels(e1, t, l);
      ExprLabels(e2, LowerExpr(e1, t, l).t, LowerExpr(e1, t, l).l);
      RelLabels(rel, e1, e2, t, l);
    case AndAlso(e1, e2) =>
      ExprLabels(e1, t, l);
      ExprLabels(e2, LowerExpr(e1, t, l).t, LowerExpr(e1, t, l).l);
      AndLabels(e1, e2, t, l);
    case OrElse(e1, e2) =>
      ExprLabels(e1, t, l);
      ExprLabels(e2, LowerExpr(e1, t, l).t, LowerExpr(e1, t, l).l);
      OrLabels(e1, e2, t, l);
    case Cond(e0, e1, e2) =>
      var c := LowerExpr(e0, t, l);
      var a := LowerExpr(e1, c.t, c.l);
      ExprLabels(e0, t, l);
      ExprLabels(e1, c.t, c.l);
      ExprLabels(e2, a.t, a.l);
      CondLabels(e0, e1, e2, t, l);
  }

  ghost predicate Gens(e: Expr, t: nat, l: nat) {
    GenOnly(LowerExpr(e, t, l).code, l, LowerExpr(e, t, l).l)
  }

  ghost predicate BothGen(e1: Expr, e2: Expr, t: nat, l: nat) {
    Gens(e1, t, l) && Gens(e2, LowerExpr(e1, t, l).t, LowerExpr(e1, t, l).l)
  }

  lemma LeafLabels(e: Expr, t: nat, l: nat)
    requires e.Lit? || e.Var? || e.PostStep?
    ensures Gens(e, t, l)
  {
    hide GenOnly;
    NoLabels(LowerExpr(e, t, l).code, l);
  }

  lemma OneLabels(e: Expr, t: nat, l: nat)
    requires e.Cast? || e.Unary? || e.Assign? || e.Compound? || e.Not?
    requires Gens(e.e, t, l)
    ensures Gens(e, t, l)
  {
    hide GenOnly, SetUnless;
    var a := LowerExpr(e.e, t, l);
    match e
    case Cast(_, _) =>
    case Unary(op, _) => AppendNoLabel(a.code, Tac.Unary(UnaryFor(op), Temp(a.t), a.val), l, a.l);
    case Assign(x, _, _) => AppendNoLabel(a.code, Copy(User(x), a.val), l, a.l);
    case Compound(op, x, ty, e1) =>
      AppendNoLabel(a.code, Tac.Binary(AluFor(op, CompoundType(op, ty, TypeOf(e1))), User(x), Slot(User(x)), a.val), l,
                    a.l);
    case Not(_) => TestLabels(Temp(a.t), a.code, a.val, Const(0), CondE, l, a.l);
  }

  lemma CondLabels(e0: Expr, e1: Expr, e2: Expr, t: nat, l: nat)
    requires var c := LowerExpr(e0, t, l); Gens(e0, t, l) && BothGen(e1, e2, c.t, c.l)
    ensures Gens(Cond(e0, e1, e2), t, l)
  {
    hide GenOnly, SetUnless, ShortCircuit, Choose;
    var c := LowerExpr(e0, t, l);
    var a := LowerExpr(e1, c.t, c.l);
    var b := LowerExpr(e2, a.t, a.l);
    ChooseLabels(Temp(b.t), c.code, c.val, a.code, a.val, b.code, b.val, l, c.l, a.l, b.l);
  }

  lemma BinaryLabels(op: BinOp, e1: Expr, e2: Expr, t: nat, l: nat)
    requires BothGen(e1, e2, t, l)
    ensures Gens(Expr.Binary(op, e1, e2), t, l)
  {
    hide GenOnly, SetUnless, ShortCircuit, Choose;
    var a := LowerExpr(e1, t, l);
    var b := LowerExpr(e2, a.t, a.l);
    GenConcat(a.code, b.code, l, a.l, b.l);
    var ty := if op == Comma then TypeOf(e2) else TypeOf(e1);
    AppendNoLabel(a.code + b.code, Tac.Binary(AluFor(op, ty), Temp(b.t), a.val, b.val), l, b.l);
  }

  lemma RelLabels(rel: RelOp, e1: Expr, e2: Expr, t: nat, l: nat)
    requires BothGen(e1, e2, t, l)
    ensures Gens(Rel(rel, e1, e2), t, l)
  {
    hide GenOnly, SetUnless, ShortCircuit, Choose;
    var a := LowerExpr(e1, t, l);
    var b := LowerExpr(e2, a.t, a.l);
    GenConcat(a.code, b.code, l, a.l, b.l);
    TestLabels(Temp(b.t), a.code + b.code, a.val, b.val, CondFor(rel, TypeOf(e1)), l, b.l);
  }

  lemma AndLabels(e1: Expr, e2: Expr, t: nat, l: nat)
    requires BothGen(e1, e2, t, l)
    ensures Gens(AndAlso(e1, e2), t, l)
  {
    hide GenOnly, SetUnless, ShortCircuit, Choose;
    var a := LowerExpr(e1, t, l);
    var b := LowerExpr(e2, a.t, a.l);
    ShortLabels(Temp(b.t), true, a.code, a.val, b.code, b.val, l, a.l, b.l);
  }

  lemma OrLabels(e1: Expr, e2: Expr, t: nat, l: nat)
    requires BothGen(e1, e2, t, l)
    ensures Gens(OrElse(e1, e2), t, l)
  {
    hide GenOnly, SetUnless, ShortCircuit, Choose;
    var a := LowerExpr(e1, t, l);
    var b := LowerExpr(e2, a.t, a.l);
    ShortLabels(Temp(b.t), false, a.code, a.val, b.code, b.val, l, a.l, b.l);
  }

  lemma NoLabels(code: Code, l: nat)
    requires forall i :: 0 <= i < |code| ==> !code[i].Mark?
    ensures GenOnly(code, l, l)
  {
  }

  lemma AppendNoLabel(code: Code, i: Instr, lo: nat, hi: nat)
    requires GenOnly(code, lo, hi) && !i.Mark? && lo <= hi
    ensures GenOnly(code + [i], lo, hi)
  {
    NoLabels([i], hi);
    GenConcat(code, [i], lo, hi, hi);
  }

  // ----- Statements -----

  /** `x` belongs to a statement whose loops and switches are `ids`, which contains the
      cases `keys` of the switch `sw`, and for which the label counter went from `lo` to `hi`. */
  ghost predicate Mine(x: Label, ids: set<nat>, keys: seq<Key>, sw: Option<nat>, lo: nat, hi: nat) {
    match x
    case Gen(_, n) => lo <= n < hi
    case StartOf(id) => id in ids
    case ContinueOf(id) => id in ids
    case BreakOf(id) => id in ids
    case CaseLabel(id, _) => id in ids || (sw == Some(id) && exists k :: k in keys && LabelOf(id, k) == x)
    case DefaultLabel(id) => id in ids || (sw == Some(id) && DefaultCase in keys)
  }

  ghost predicate Owns(code: Code, ids: set<nat>, keys: seq<Key>, sw: Option<nat>, lo: nat, hi: nat) {
    DistinctLabels(code) && forall x :: Mark(x) in code ==> Mine(x, ids, keys, sw, lo, hi)
  }

  predicate NoSharedKey(a: seq<Key>, b: seq<Key>) {
    forall k :: k in a ==> k !in b
  }

  lemma MineOnce(x: Label, ids: set<nat>, ids': set<nat>, keys: seq<Key>, keys': seq<Key>, sw: Option<nat>,
                 lo: nat, mid: nat, hi: nat)
    requires ids !! ids' && NoSharedKey(keys, keys') && (sw.Some? ==> sw.value !in ids + ids')
    requires Mine(x, ids, keys, sw, lo, mid)
    ensures !Mine(x, ids', keys', sw, mid, hi)
  {
  }

  /** Two pieces of code that own different things share no label. */
  lemma OwnsConcat(a: Code, b: Code, ids: set<nat>, ids': set<nat>, keys: seq<Key>, keys': seq<Key>, sw: Option<nat>,
                   lo: nat, mid: nat, hi: nat)
    requires lo <= mid <= hi
    requires Owns(a, ids, keys, sw, lo, mid) && Owns(b, ids', keys', sw, mid, hi)
    requires ids !! ids' && NoSharedKey(keys, keys') && (sw.Some? ==> sw.value !in ids + ids')
    ensures Owns(a + b, ids + ids', keys' + keys, sw, lo, hi)
  {
    forall x | Mark(x) in a ensures Mark(x) !in b {
      MineOnce(x, ids, ids', keys, keys', sw, lo, mid, hi);
    }
    DistinctConcat(a, b);
  }

  lemma GenOwns(code: Code, keys: seq<Key>, sw: Option<nat>, ids: set<nat>, lo: nat, hi: nat)
    requires GenOnly(code, lo, hi)
    ensures Owns(code, ids, keys, sw, lo, hi)
  {
  }

  /** `a` and `b` own different label numbers; `m` adds labels of neither. */
  lemma Insert(a: Code, m: Code, b: Code)
    requires DistinctLabels(a) && DistinctLabels(m) && DistinctLabels(b)
    requires forall x :: !(Mark(x) in a && Mark(x) in b)
    requires forall x :: Mark(x) in m ==> Mark(x) !in a && Mark(x) !in b
    ensures DistinctLabels(a + m + b)
  {
    DistinctConcat(a, m);
    DistinctConcat(a + m, b);
  }

  lemma IfLabels(c: Code, cv: Val, body: Code, ids: set<nat>, keys: seq<Key>, sw: Option<nat>, lo: nat, mid: nat,
                 hi: nat)
    requires GenOnly(c, lo, mid) && Owns(body, ids, keys, sw, mid, hi) && lo <= mid <= hi
    ensures Owns(IfCode(c, cv, body, Gen(EndLabel, hi)), ids, keys, sw, lo, hi + 1)
  {
    var end := Gen(EndLabel, hi);
    var jump := [Cmp(cv, Const(0)), CondJump(CondE, end)];
    Insert(c, jump, body);
    DistinctConcat(c + jump + body, [Mark(end)]);
  }

  lemma IfElseLabels(c: Code, cv: Val, a: Code, b: Code, ids: set<nat>, ids': set<nat>,
                     keys: seq<Key>, keys': seq<Key>, sw: Option<nat>, lo: nat, i: nat, j: nat, hi: nat)
    requires GenOnly(c, lo, i) && Owns(a, ids, keys, sw, i, j) && Owns(b, ids', keys', sw, j, hi)
    requires lo <= i <= j <= hi && ids !! ids' && NoSharedKey(keys, keys') && (sw.Some? ==> sw.value !in ids + ids')
    ensures Owns(IfElseCode(c, cv, a, b, Gen(ElseLabel, hi), Gen(EndLabel, hi + 1)), ids + ids', keys' + keys, sw, lo,
                 hi + 2)
  {
    var els, end := Gen(ElseLabel, hi), Gen(EndLabel, hi + 1);
    var jump := [Cmp(cv, Const(0)), CondJump(CondE, els)];
    var mid := [Jump(end), Mark(els)];
    OwnsConcat(a, b, ids, ids', keys, keys', sw, i, j, hi);
    Insert(c, jump, a);
    DistinctSides(a, b);
    Insert(c + jump + a, mid, b);
    DistinctConcat(c + jump + a + mid + b, [Mark(end)]);
  }

  lemma DistinctSides(a: Code, b: Code)
    requires DistinctLabels(a + b)
    ensures forall x :: !(Mark(x) in a && Mark(x) in b)
  {
    forall x | Mark(x) in a ensures Mark(x) !in b {
      var i :| 0 <= i < |a| && a[i] == Mark(x);
      forall j | 0 <= j < |b| ensures b[j] != Mark(x) {
        assert (a + b)[i] == a[i] && (a + b)[|a| + j] == b[j];
      }
    }
  }

  lemma WhileLabels(c: Code, cv: Val, body: Code, id: nat, ids: set<nat>, keys: seq<Key>, sw: Option<nat>,
                    lo: nat, mid: nat, hi: nat)
    requires Owns(body, ids, keys, sw, lo, mid) && GenOnly(c, mid, hi) && lo <= mid <= hi
    requires id !in ids && (sw.Some? ==> sw.value != id)
    ensures Owns(WhileCode(c, cv, body, id), ids + {id}, keys, sw, lo, hi)
  {
    var head := [Mark(ContinueOf(id))];
    var jump := [Cmp(cv, Const(0)), CondJump(CondE, BreakOf(id))];
    DistinctConcat(head, c);
    Insert(head + c, jump, body);
    DistinctConcat(head + c + jump + body, [Jump(ContinueOf(id)), Mark(BreakOf(id))]);
  }

  lemma DoLabels(body: Code, c: Code, cv: Val, id: nat, ids: set<nat>, keys: seq<Key>, sw: Option<nat>,
                 lo: nat, mid: nat, hi: nat)
    requires Owns(body, ids, keys, sw, lo, mid) && GenOnly(c, mid, hi) && lo <= mid <= hi
    requires id !in ids && (sw.Some? ==> sw.value != id)
    ensures Owns(DoCode(body, c, cv, id), ids + {id}, keys, sw, lo, hi)
  {
    DistinctConcat([Mark(StartOf(id))], body);
    Insert([Mark(StartOf(id))] + body, [Mark(ContinueOf(id))], c);
    DistinctConcat([Mark(StartOf(id))] + body + [Mark(ContinueOf(id))] + c,
                   [Cmp(cv, Const(0)), CondJump(CondNE, StartOf(id)), Mark(BreakOf(id))]);
  }

  lemma ForLabels(init: Code, test: Code, body: Code, end: Code, id: nat, ids: set<nat>, keys: seq<Key>,
                  sw: Option<nat>,
                  lo: nat, i: nat, j: nat, k: nat, hi: nat)
    requires GenOnly(init, lo, i) && Owns(body, ids, keys, sw, i, j) && GenOnly(test, j, k) && GenOnly(end, k, hi)
    requires lo <= i <= j <= k <= hi
    requires id !in ids && (sw.Some? ==> sw.value != id)
    ensures Owns(ForCode(init, test, body, end, id), ids + {id}, keys, sw, lo, hi)
  {
    var s, c := [Mark(StartOf(id))], [Mark(ContinueOf(id))];
    Insert(init, s, test);
    DistinctConcat(init + s + test, body);
    Insert(init + s + test + body, c, end);
    DistinctConcat(init + s + test + body + c + end, [Jump(StartOf(id)), Mark(BreakOf(id))]);
  }

  ghost predicate Unlabelled(code: Code) {
    forall i :: 0 <= i < |code| ==> !code[i].Mark?
  }

  lemma {:induction false} CaseTestsUnlabelled(id: nat, keys: seq<Key>, v: Val)
    ensures Unlabelled(CaseTests(id, keys, v))
  {
    if keys != [] { CaseTestsUnlabelled(id, keys[1..], v); }
  }

  lemma SwitchLabels(c: Code, cases: Code, body: Code, id: nat, ids: set<nat>, keys: seq<Key>, lo: nat, mid: nat,
                     hi: nat,
                     keys': seq<Key>, sw: Option<nat>)
    requires GenOnly(c, lo, mid) && Owns(body, ids, keys, Some(id), mid, hi) && lo <= mid <= hi && id !in ids
    requires Unlabelled(cases)
    ensures Owns(c + cases + body + [Mark(BreakOf(id))], ids + {id}, keys', sw, lo, hi)
  {
    Insert(c, cases, body);
    DistinctConcat(c + cases + body, [Mark(BreakOf(id))]);
  }

  lemma CaseMarkLabels(k: Key, id: nat, body: Code, ids: set<nat>, keys: seq<Key>, lo: nat, hi: nat)
    requires Owns(body, ids, keys, Some(id), lo, hi) && k !in keys && id !in ids
    ensures Owns([Mark(LabelOf(id, k))] + body, ids, keys + [k], Some(id), lo, hi)
  {
    assert !Mine(LabelOf(id, k), ids, keys, Some(id), lo, hi);
    DistinctConcat([Mark(LabelOf(id, k))], body);
  }

  lemma OptLabels(e: Option<Expr>, t: nat, l: nat)
    ensures l <= LowerOpt(e, t, l).l && GenOnly(LowerOpt(e, t, l).code, l, LowerOpt(e, t, l).l)
  {
    match e
    case None => NoLabels([], l);
    case Some(e1) => ExprLabels(e1, t, l);
  }

  lemma ForTestLabels(fc: Option<Expr>, t: nat, l: nat, id: nat)
    ensures var c := LowerOpt(fc, t, l);
            GenOnly(ForTest(fc.Some?, c.code, c.val, id), l, c.l)
  {
    OptLabels(fc, t, l);
    var c := LowerOpt(fc, t, l);
    if fc.Some? {
      var jump := [Cmp(c.val, Const(0)), CondJump(CondE, BreakOf(id))];
      NoLabels(jump, c.l);
      GenConcat(c.code, jump, l, c.l, c.l);
    }
  }

  lemma SplitKeys(a: seq<Key>, b: seq<Key>)
    requires Once(a + b)
    ensures Once(a) && Once(b) && NoSharedKey(a, b) && NoSharedKey(b, a)
  {
    assert forall i :: 0 <= i < |a| ==> (a + b)[i] == a[i];
    assert forall i :: 0 <= i < |b| ==> (a + b)[|a| + i] == b[i];
  }

  /** The labels of a lowered statement are distinct and its own. */
  lemma {:induction false} StmtLabels(s: Stmt, t: nat, l: nat, brk: Option<nat>, cont: Option<nat>, sw: Option<nat>)
    requires WellLabelled(s, brk, cont, sw) && Once(Keys(s)) && (sw.Some? ==> sw.value !in Ids(s))
    ensures Owns(LowerStmt(s, t, l).code, Ids(s), Keys(s), sw, l, LowerStmt(s, t, l).l)
  {
    hide LowerExpr, Owns, GenOnly, IfCode, IfElseCode, WhileCode, DoCode, ForCode, Once, LowerOpt, ForTest,
         DistinctLabels;
    match s
    case Null => PlainOwns([], {}, [], sw, l);
    case ExprStmt(e) => ExprLabels(e, t, l); GenOwns(LowerExpr(e, t, l).code, [], sw, {}, l, LowerExpr(e, t, l).l);
    case Return(oe) => ReturnLabels(oe, t, l, sw);
    case Seq(s1, s2) =>
      SplitKeys(Keys(s2), Keys(s1));
      StmtLabels(s1, t, l, brk, cont, sw);
      var a := LowerStmt(s1, t, l);
      StmtLabels(s2, a.t, a.l, brk, cont, sw);
      var b := LowerStmt(s2, a.t, a.l);
      OwnsConcat(a.code, b.code, Ids(s1), Ids(s2), Keys(s1), Keys(s2), sw, l, a.l, b.l);
    case If(e, s1) =>
      ExprLabels(e, t, l);
      var c := LowerExpr(e, t, l);
      StmtLabels(s1, c.t, c.l, brk, cont, sw);
      var a := LowerStmt(s1, c.t, c.l);
      IfLabels(c.code, c.val, a.code, Ids(s1), Keys(s1), sw, l, c.l, a.l);
    case IfElse(e, s1, s2) =>
      SplitKeys(Keys(s2), Keys(s1));
      ExprLabels(e, t, l);
      var c := LowerExpr(e, t, l);
      StmtLabels(s1, c.t, c.l, brk, cont, sw);
      var a := LowerStmt(s1, c.t, c.l);
      StmtLabels(s2, a.t, a.l, brk, cont, sw);
      var b := LowerStmt(s2, a.t, a.l);
      IfElseLabels(c.code, c.val, a.code, b.code, Ids(s1), Ids(s2), Keys(s1), Keys(s2), sw, l, c.l, a.l, b.l);
    case While(e, s1, id) =>
      StmtLabels(s1, t, l, Some(id), Some(id), sw);
      var a := LowerStmt(s1, t, l);
      ExprLabels(e, a.t, a.l);
      var c := LowerExpr(e, a.t, a.l);
      WhileLabels(c.code, c.val, a.code, id, Ids(s1), Keys(s1), sw, l, a.l, c.l);
    case DoWhile(s1, e, id) =>
      StmtLabels(s1, t, l, Some(id), Some(id), sw);
      var a := LowerStmt(s1, t, l);
      ExprLabels(e, a.t, a.l);
      var c := LowerExpr(e, a.t, a.l);
      DoLabels(a.code, c.code, c.val, id, Ids(s1), Keys(s1), sw, l, a.l, c.l);
    case For(init, fc, end, s1, id) =>
      OptLabels(init, t, l);
      var i := LowerOpt(init, t, l);
      StmtLabels(s1, i.t, i.l, Some(id), Some(id), sw);
      var a := LowerStmt(s1, i.t, i.l);
      OptLabels(fc, a.t, a.l);
      ForTestLabels(fc, a.t, a.l, id);
      var c := LowerOpt(fc, a.t, a.l);
      OptLabels(end, c.t, c.l);
      var n := LowerOpt(end, c.t, c.l);
      ForLabels(i.code, ForTest(fc.Some?, c.code, c.val, id), a.code, n.code, id, Ids(s1), Keys(s1), sw, l, i.l, a.l,
                c.l, n.l);
    case Switch(e, s1, id) =>
      ExprLabels(e, t, l);
      var c := LowerExpr(e, t, l);
      StmtLabels(s1, c.t, c.l, Some(id), cont, Some(id));
      var a := LowerStmt(s1, c.t, c.l);
      CaseTestsUnlabelled(id, Keys(s1), c.val);
      SwitchLabels(c.code, LowerCases(id, Keys(s1), c.val), a.code, id, Ids(s1), Keys(s1), l, c.l, a.l, [], sw);
    case Case(k, s1, id) =>
      SplitKeys(Keys(s1), [k]);
      assert k in [k];
      StmtLabels(s1, t, l, brk, cont, sw);
      var a := LowerStmt(s1, t, l);
      CaseMarkLabels(k, id, a.code, Ids(s1), Keys(s1), l, a.l);
    case Break(id) => PlainOwns([Jump(BreakOf(id))], {}, [], sw, l);
    case Continue(id) => PlainOwns([Jump(ContinueOf(id))], {}, [], sw, l);
  }

  lemma PlainOwns(code: Code, ids: set<nat>, keys: seq<Key>, sw: Option<nat>, l: nat)
    requires Unlabelled(code)
    ensures Owns(code, ids, keys, sw, l, l)
  {
  }

  lemma ReturnLabels(oe: Option<Expr>, t: nat, l: nat, sw: Option<nat>)
    ensures var r := LowerStmt(Stmt.Return(oe), t, l);
            Owns(r.code, {}, [], sw, l, r.l)
  {
    match oe
    case None => PlainOwns([Tac.Return(None)], {}, [], sw, l);
    case Some(e) =>
      ExprLabels(e, t, l);
      var a := LowerExpr(e, t, l);
      AppendNoLabel(a.code, Tac.Return(Some(a.val)), l, a.l);
      GenOwns(a.code + [Tac.Return(Some(a.val))], [], sw, {}, l, a.l);
  }

  lemma {:induction false} NoKeysOutside(s: Stmt, brk: Option<nat>, cont: Option<nat>)
    requires WellLabelled(s, brk, cont, None)
    ensures Keys(s) == []
  {
    match s
    case Seq(a, b) => NoKeysOutside(a, brk, cont); NoKeysOutside(b, brk, cont);
    case If(_, a) => NoKeysOutside(a, brk, cont);
    case IfElse(_, a, b) => NoKeysOutside(a, brk, cont); NoKeysOutside(b, brk, cont);
    case While(_, a, id) => NoKeysOutside(a, Some(id), Some(id));
    case DoWhile(a, _, id) => NoKeysOutside(a, Some(id), Some(id));
    case For(_, _, _, a, id) => NoKeysOutside(a, Some(id), Some(id));
    case _ =>
  }

  /** A lowered function never trips the interpreter's duplicate-label check. */
  lemma FunctionLabels(body: Stmt, t: nat, l: nat)
    requires WellLabelled(body, None, None, None)
    ensures DistinctLabels(LowerFunction(body, t, l))
  {
    NoKeysOutside(body, None, None);
    StmtLabels(body, t, l, None, None, None);
    DistinctConcat(LowerStmt(body, t, l).code, [Tac.Return(Some(Const(0)))]);
  }

  /** Every case label that a switch dispatches to is defined in its body. */
  lemma {:induction false} KeyDefined(s: Stmt, t: nat, l: nat, brk: Option<nat>, cont: Option<nat>, sw: Option<nat>,
                                      k: Key)
    requires WellLabelled(s, brk, cont, sw) && k in Keys(s)
    ensures sw.Some? && Mark(LabelOf(sw.value, k)) in LowerStmt(s, t, l).code
  {
    hide LowerExpr, LowerOpt, ForTest;
    match s
    case Seq(s1, s2) =>
      var a := LowerStmt(s1, t, l);
      if k in Keys(s1) { KeyDefined(s1, t, l, brk, cont, sw, k); }
      else { KeyDefined(s2, a.t, a.l, brk, cont, sw, k); }
    case If(e, s1) => KeyDefined(s1, LowerExpr(e, t, l).t, LowerExpr(e, t, l).l, brk, cont, sw, k);
    case IfElse(e, s1, s2) =>
      var c := LowerExpr(e, t, l);
      var a := LowerStmt(s1, c.t, c.l);
      if k in Keys(s1) { KeyDefined(s1, c.t, c.l, brk, cont, sw, k); }
      else { KeyDefined(s2, a.t, a.l, brk, cont, sw, k); }
    case While(_, s1, id) => KeyDefined(s1, t, l, Some(id), Some(id), sw, k);
    case DoWhile(s1, _, id) => KeyDefined(s1, t, l, Some(id), Some(id), sw, k);
    case For(init, _, _, s1, id) =>
      var i := LowerOpt(init, t, l);
      KeyDefined(s1, i.t, i.l, Some(id), Some(id), sw, k);
    case Case(k', s1, id) => if k in Keys(s1) { KeyDefined(s1, t, l, brk, cont, sw, k); }
  }
}
