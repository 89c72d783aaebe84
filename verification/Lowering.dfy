/** The lowering pass: typed syntax trees to three-address code.

    Temporaries and labels are numbered by two counters that the pass threads
    through the tree in exactly the order in which the compiler advances them;
    a sub-expression's result is handed on as an operand, so a variable is read
    where it is used and not where it is written.
  */
module Lowering {
  import opened Words
  import opened CSource
  import opened Tac

  datatype Lowered = Lowered(code: Code, val: Val, t: nat, l: nat)

  datatype LoweredStmt = LoweredStmt(code: Code, t: nat, l: nat)

  function AluFor(op: BinOp, ty: Ty): AluOp {
    match op
    case Add => AluAdd
    case Sub => AluSub
    case Mul => if ty == Int then AluSMul else AluUMul
    case Div => if ty == Int then AluSDiv else AluUDiv
    case Mod => if ty == Int then AluSMod else AluUMod
    case And => AluAnd
    case Or => AluOr
    case Xor => AluXor
    case Shl => if ty == Int then AluAsl else AluLsl
    case Shr => if ty == Int then AluAsr else AluLsr
    case Comma => AluMov
  }

  function CondFor(rel: RelOp, ty: Ty): Condition {
    match rel
    case Eq => CondE
    case Neq => CondNE
    case Gt => if ty == Int then CondG else CondA
    case Geq => if ty == Int then CondGE else CondAE
    case Lt => if ty == Int then CondL else CondB
    case Leq => if ty == Int then CondLE else CondBE
  }

  function UnaryFor(op: CSource.UnOp): UnaryOp {
    match op
    case Complement => Tac.Complement
    case Negate => Tac.Negate
    case Plus => Tac.Plus
  }

  /** `dst := test`, decided by the comparison of `a` and `b` after `code` has run. */
  function SetUnless(dst: Name, code: Code, a: Val, b: Val, cond: Condition, end: Label): Code {
    [Copy(dst, Const(1))] + code + [Cmp(a, b), CondJump(cond, end), Copy(dst, Const(0)), Mark(end)]
  }

  function ShortCircuit(dst: Name, isAnd: bool, a: Code, av: Val, b: Code, bv: Val, end: Label): Code {
    var cond := if isAnd then CondE else CondNE;
    [Copy(dst, Const(if isAnd then 0 else 1))] + a + [Cmp(av, Const(0)), CondJump(cond, end)]
    + b + [Cmp(bv, Const(0)), CondJump(cond, end), Copy(dst, Const(if isAnd then 1 else 0)), Mark(end)]
  }

  function Choose(dst: Name, c: Code, cv: Val, a: Code, av: Val, b: Code, bv: Val,
                  els: Label, end: Label): Code {
    c + [Cmp(cv, Const(0)), CondJump(CondE, els)]
    + a + [Copy(dst, av), Jump(end), Mark(els)]
    + b + [Copy(dst, bv), Mark(end)]
  }

  /** `t` and `l` are the values of the temporary and label counters on entry. */
  function LowerExpr(e: Expr, t: nat, l: nat): (r: Lowered)
    ensures t <= r.t && l <= r.l
    ensures r.val.Slot? && r.val.name.Temp? ==> t <= r.val.name.n < r.t
  {
    match e
    case Lit(w, _) => Lowered([], Const(w), t, l)
    case Var(x, _) => Lowered([], Slot(User(x)), t, l)
    case Cast(_, e1) => LowerExpr(e1, t, l)
    case Unary(op, e1) =>
      var a := LowerExpr(e1, t, l);
      var dst := Temp(a.t);
      Lowered(a.code + [Tac.Unary(UnaryFor(op), dst, a.val)], Slot(dst), a.t + 1, a.l)
    case Not(e1) =>
      var a := LowerExpr(e1, t, l);
      var dst := Temp(a.t);
      Lowered(SetUnless(dst, a.code, a.val, Const(0), CondE, Gen(EndLabel, a.l)), Slot(dst), a.t + 1, a.l + 1)
    case Binary(op, e1, e2) =>
      var a := LowerExpr(e1, t, l);
      var b := LowerExpr(e2, a.t, a.l);
      var dst := Temp(b.t);
      var ty := if op == Comma then TypeOf(e2) else TypeOf(e1);
      Lowered(a.code + b.code + [Tac.Binary(AluFor(op, ty), dst, a.val, b.val)], Slot(dst), b.t + 1, b.l)
    case Rel(rel, e1, e2) =>
      var a := LowerExpr(e1, t, l);
      var b := LowerExpr(e2, a.t, a.l);
      var dst := Temp(b.t);
      Lowered(SetUnless(dst, a.code + b.code, a.val, b.val, CondFor(rel, TypeOf(e1)), Gen(EndLabel, b.l)),
              Slot(dst), b.t + 1, b.l + 1)
    case AndAlso(e1, e2) =>
      var a := LowerExpr(e1, t, l);
      var b := LowerExpr(e2, a.t, a.l);
      var dst := Temp(b.t);
      Lowered(ShortCircuit(dst, true, a.code, a.val, b.code, b.val, Gen(EndLabel, b.l)), Slot(dst), b.t + 1, b.l + 1)
    case OrElse(e1, e2) =>
      var a := LowerExpr(e1, t, l);
      var b := LowerExpr(e2, a.t, a.l);
      var dst := Temp(b.t);
      Lowered(ShortCircuit(dst, false, a.code, a.val, b.code, b.val, Gen(EndLabel, b.l)), Slot(dst), b.t + 1, b.l + 1)
    case Cond(e0, e1, e2) =>
      var c := LowerExpr(e0, t, l);
      var a := LowerExpr(e1, c.t, c.l);
      var b := LowerExpr(e2, a.t, a.l);
      var dst := Temp(b.t);
      Lowered(Choose(dst, c.code, c.val, a.code, a.val, b.code, b.val, Gen(ElseLabel, b.l), Gen(EndLabel, b.l + 1)),
              Slot(dst), b.t + 1, b.l + 2)
    case Assign(x, _, e1) =>
      var a := LowerExpr(e1, t, l);
      Lowered(a.code + [Copy(User(x), a.val)], Slot(User(x)), a.t, a.l)
    case Compound(op, x, ty, e1) =>
      var a := LowerExpr(e1, t, l);
      var alu := AluFor(op, CompoundType(op, ty, TypeOf(e1)));
      Lowered(a.code + [Tac.Binary(alu, User(x), Slot(User(x)), a.val)], Slot(User(x)), a.t, a.l)
    case PostStep(inc, x, ty) =>
      var prev := Temp(t);
      var alu := AluFor(if inc then Add else Sub, ty);
      Lowered([Copy(prev, Slot(User(x))), Tac.Binary(alu, User(x), Slot(User(x)), Const(1))], Slot(prev), t + 1, l)
  }

  function LowerOpt(e: Option<Expr>, t: nat, l: nat): Lowered {
    match e
    case None => Lowered([], Const(1), t, l)
    case Some(e1) => LowerExpr(e1, t, l)
  }

  // ----- Statements -----

  function LabelOf(id: nat, k: Key): Label {
    match k
    case CaseOf(v) => CaseLabel(id, ToWord(v))
    case DefaultCase => DefaultLabel(id)
  }

  /** The comparisons of a switch, one per integer case, in the order of the list. */
  function CaseTests(id: nat, keys: seq<Key>, v: Val): Code {
    if keys == [] then []
    else if keys[0].CaseOf? then
      [Cmp(v, Const(ToWord(keys[0].v))), CondJump(CondE, LabelOf(id, keys[0]))] + CaseTests(id, keys[1..], v)
    else CaseTests(id, keys[1..], v)
  }

  function FallThrough(id: nat, keys: seq<Key>): Label {
    if DefaultCase in keys then DefaultLabel(id) else BreakOf(id)
  }

  function LowerCases(id: nat, keys: seq<Key>, v: Val): Code {
    CaseTests(id, keys, v) + [Jump(FallThrough(id, keys))]
  }

  function IfCode(c: Code, cv: Val, body: Code, end: Label): Code {
    c + [Cmp(cv, Const(0)), CondJump(CondE, end)] + body + [Mark(end)]
  }

  function IfElseCode(c: Code, cv: Val, thn: Code, els: Code, elseLabel: Label, end: Label): Code {
    c + [Cmp(cv, Const(0)), CondJump(CondE, elseLabel)] + thn + [Jump(end), Mark(elseLabel)] + els + [Mark(end)]
  }

  function WhileCode(c: Code, cv: Val, body: Code, id: nat): Code {
    [Mark(ContinueOf(id))] + c + [Cmp(cv, Const(0)), CondJump(CondE, BreakOf(id))]
    + body + [Jump(ContinueOf(id)), Mark(BreakOf(id))]
  }

  function DoCode(body: Code, c: Code, cv: Val, id: nat): Code {
    [Mark(StartOf(id))] + body + [Mark(ContinueOf(id))]
    + c + [Cmp(cv, Const(0)), CondJump(CondNE, StartOf(id)), Mark(BreakOf(id))]
  }

  /** The test of a for loop is absent when it has no condition. */
  function ForTest(has: bool, c: Code, cv: Val, id: nat): Code {
    if has then c + [Cmp(cv, Const(0)), CondJump(CondE, BreakOf(id))] else []
  }

  function ForCode(init: Code, test: Code, body: Code, end: Code, id: nat): Code {
    init + [Mark(StartOf(id))] + test + body + [Mark(ContinueOf(id))]
    + end + [Jump(StartOf(id)), Mark(BreakOf(id))]
  }

  function LowerStmt(s: Stmt, t: nat, l: nat): (r: LoweredStmt)
    ensures t <= r.t && l <= r.l
  {
    match s
    case Null => LoweredStmt([], t, l)
    case ExprStmt(e) =>
      var a := LowerExpr(e, t, l);
      LoweredStmt(a.code, a.t, a.l)
    case Return(oe) =>
      (match oe
       case None => LoweredStmt([Tac.Return(None)], t, l)
       case Some(e) =>
         var a := LowerExpr(e, t, l);
         LoweredStmt(a.code + [Tac.Return(Some(a.val))], a.t, a.l))
    case Seq(s1, s2) =>
      var a := LowerStmt(s1, t, l);
      var b := LowerStmt(s2, a.t, a.l);
      LoweredStmt(a.code + b.code, b.t, b.l)
    case If(e, s1) =>
      var c := LowerExpr(e, t, l);
      var a := LowerStmt(s1, c.t, c.l);
      LoweredStmt(IfCode(c.code, c.val, a.code, Gen(EndLabel, a.l)), a.t, a.l + 1)
    case IfElse(e, s1, s2) =>
      var c := LowerExpr(e, t, l);
      var a := LowerStmt(s1, c.t, c.l);
      var b := LowerStmt(s2, a.t, a.l);
      LoweredStmt(IfElseCode(c.code, c.val, a.code, b.code, Gen(ElseLabel, b.l), Gen(EndLabel, b.l + 1)), b.t, b.l + 2)
    case While(e, s1, id) =>
      var a := LowerStmt(s1, t, l);
      var c := LowerExpr(e, a.t, a.l);
      LoweredStmt(WhileCode(c.code, c.val, a.code, id), c.t, c.l)
    case DoWhile(s1, e, id) =>
      var a := LowerStmt(s1, t, l);
      var c := LowerExpr(e, a.t, a.l);
      LoweredStmt(DoCode(a.code, c.code, c.val, id), c.t, c.l)
    case For(init, fc, end, s1, id) =>
      var i := LowerOpt(init, t, l);
      var a := LowerStmt(s1, i.t, i.l);
      var c := LowerOpt(fc, a.t, a.l);
      var n := LowerOpt(end, c.t, c.l);
      LoweredStmt(ForCode(i.code, ForTest(fc.Some?, c.code, c.val, id), a.code, n.code, id), n.t, n.l)
    case Switch(e, s1, id) =>
      var c := LowerExpr(e, t, l);
      var a := LowerStmt(s1, c.t, c.l);
      LoweredStmt(c.code + LowerCases(id, Keys(s1), c.val) + a.code + [Mark(BreakOf(id))], a.t, a.l)
    case Case(k, s1, id) =>
      var a := LowerStmt(s1, t, l);
      LoweredStmt([Mark(LabelOf(id, k))] + a.code, a.t, a.l)
    case Break(id) => LoweredStmt([Jump(BreakOf(id))], t, l)
    case Continue(id) => LoweredStmt([Jump(ContinueOf(id))], t, l)
  }

  /** A function body, with the return that is appended in case it does not end in one. */
  function LowerFunction(body: Stmt, t: nat, l: nat): Code {
    LowerStmt(body, t, l).code + [Tac.Return(Some(Const(0)))]
  }
}
