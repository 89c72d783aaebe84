/** The C subset that the lowering pass is proved for, and its meaning.

    Values are 32-bit `int`s and `unsigned`s; there are no pointers and no calls.
    The abstract syntax is the compiler's own, after type checking: conversions
    are explicit `Cast` nodes and loops, switches, breaks and continues carry the
    label that label resolution gives them.  The meaning below ignores those
    labels; it is the structured meaning of ISO C11.
  */
module CSource {
  import opened Words

  datatype UnOp = Complement | Negate | Plus

  datatype BinOp = Add | Sub | Mul | Div | Mod | And | Or | Xor | Shl | Shr | Comma

  datatype RelOp = Eq | Neq | Lt | Gt | Leq | Geq

  datatype Expr =
    | Lit(w: Word, lty: Ty)
    | Var(x: string, vty: Ty)
    | Cast(target: Ty, e: Expr)
    | Unary(uop: UnOp, e: Expr)
    | Not(e: Expr)
    | Binary(op: BinOp, left: Expr, right: Expr)
    | Rel(rel: RelOp, left: Expr, right: Expr)
    | AndAlso(left: Expr, right: Expr)
    | OrElse(left: Expr, right: Expr)
    | Cond(cond: Expr, left: Expr, right: Expr)
    | Assign(x: string, aty: Ty, e: Expr)
    | Compound(op: BinOp, x: string, aty: Ty, e: Expr)
    | PostStep(inc: bool, x: string, aty: Ty)

  function TypeOf(e: Expr): Ty {
    match e
    case Lit(_, ty) => ty
    case Var(_, ty) => ty
    case Cast(ty, _) => ty
    case Unary(_, e1) => TypeOf(e1)
    case Not(_) => Int
    case Binary(op, l, r) => if op == Comma then TypeOf(r) else TypeOf(l)
    case Rel(_, _, _) => Int
    case AndAlso(_, _) => Int
    case OrElse(_, _) => Int
    case Cond(_, l, _) => TypeOf(l)
    case Assign(_, ty, _) => ty
    case Compound(_, _, ty, _) => ty
    case PostStep(_, _, ty) => ty
  }

  function CompoundType(op: BinOp, lhs: Ty, rhs: Ty): Ty {
    if op == Shl || op == Shr then lhs else Common(lhs, rhs)
  }

  /** What type checking leaves behind: operands already converted to a common type. */
  predicate WellTyped(e: Expr) {
    match e
    case Lit(_, _) => true
    case Var(_, _) => true
    case Cast(_, e1) => WellTyped(e1)
    case Unary(_, e1) => WellTyped(e1)
    case Not(e1) => WellTyped(e1)
    case Binary(op, l, r) => WellTyped(l) && WellTyped(r) && (op != Comma ==> TypeOf(l) == TypeOf(r))
    case Rel(_, l, r) => WellTyped(l) && WellTyped(r) && TypeOf(l) == TypeOf(r)
    case AndAlso(l, r) => WellTyped(l) && WellTyped(r)
    case OrElse(l, r) => WellTyped(l) && WellTyped(r)
    case Cond(c, l, r) => WellTyped(c) && WellTyped(l) && WellTyped(r) && TypeOf(l) == TypeOf(r)
    case Assign(_, ty, e1) => WellTyped(e1) && TypeOf(e1) == ty
    case Compound(op, _, ty, e1) =>
      op != Comma && WellTyped(e1) && TypeOf(e1) == CompoundType(op, ty, TypeOf(e1))
    case PostStep(_, _, _) => true
  }

  // ----- Meaning of expressions -----

  /** The variables in scope, by representation; an uninitialised one is absent. */
  type Store = map<string, Word>

  function BoolValue(b: bool): int {
    if b then 1 else 0
  }

  /** Arithmetic of type `ty`.  Division by zero and a shift count outside 0..31
      are undefined; overflow wraps modulo 2^32. */
  function Arith(op: BinOp, ty: Ty, a: int, b: int): (r: Option<int>)
    ensures r.Some? && op != Comma ==> InRange(ty, r.value)
  {
    match op
    case Add => Some(Wrap(ty, a + b))
    case Sub => Some(Wrap(ty, a - b))
    case Mul => Some(Wrap(ty, a * b))
    case Div => if b == 0 then None else Some(Wrap(ty, TruncDiv(a, b)))
    case Mod => if b == 0 then None else Some(Wrap(ty, TruncMod(a, b)))
    case And => Some(Interpret(ty, BitsWord(BAnd, ToWord(a), ToWord(b))))
    case Or => Some(Interpret(ty, BitsWord(BOr, ToWord(a), ToWord(b))))
    case Xor => Some(Interpret(ty, BitsWord(BXor, ToWord(a), ToWord(b))))
    case Shl => if 0 <= b < 32 then Some(Wrap(ty, a * Pow2(b))) else None
    case Shr => if 0 <= b < 32 then Some(Wrap(ty, a / Pow2(b))) else None
    case Comma => Some(b)
  }

  function UnaryValue(op: UnOp, ty: Ty, a: int): (r: int)
    ensures InRange(ty, r)
  {
    match op
    case Complement => Wrap(ty, -a - 1)
    case Negate => Wrap(ty, -a)
    case Plus => Wrap(ty, a)
  }

  predicate Holds(rel: RelOp, a: int, b: int) {
    match rel
    case Eq => a == b
    case Neq => a != b
    case Lt => a < b
    case Gt => a > b
    case Leq => a <= b
    case Geq => a >= b
  }

  datatype Value = Value(v: int, st: Store)

  /** Left-to-right evaluation; None is undefined behaviour. */
  function Eval(e: Expr, s: Store): Option<Value> {
    match e
    case Lit(w, ty) => Some(Value(Interpret(ty, w), s))
    case Var(x, ty) => if x in s then Some(Value(Interpret(ty, s[x]), s)) else None
    case Cast(ty, e1) =>
      (match Eval(e1, s)
       case None => None
       case Some(r) => Some(Value(Wrap(ty, r.v), r.st)))
    case Unary(op, e1) =>
      (match Eval(e1, s)
       case None => None
       case Some(r) => Some(Value(UnaryValue(op, TypeOf(e1), r.v), r.st)))
    case Not(e1) =>
      (match Eval(e1, s)
       case None => None
       case Some(r) => Some(Value(BoolValue(r.v == 0), r.st)))
    case Binary(op, l, r) =>
      (match Eval(l, s)
       case None => None
       case Some(a) =>
         match Eval(r, a.st)
         case None => None
         case Some(b) =>
           match Arith(op, TypeOf(l), a.v, b.v)
           case None => None
           case Some(v) => Some(Value(v, b.st)))
    case Rel(rel, l, r) =>
      (match Eval(l, s)
       case None => None
       case Some(a) =>
         match Eval(r, a.st)
         case None => None
         case Some(b) => Some(Value(BoolValue(Holds(rel, a.v, b.v)), b.st)))
    case AndAlso(l, r) =>
      (match Eval(l, s)
       case None => None
       case Some(a) =>
         if a.v == 0 then Some(Value(0, a.st)) else
         match Eval(r, a.st)
         case None => None
         case Some(b) => Some(Value(BoolValue(b.v != 0), b.st)))
    case OrElse(l, r) =>
      (match Eval(l, s)
       case None => None
       case Some(a) =>
         if a.v != 0 then Some(Value(1, a.st)) else
         match Eval(r, a.st)
         case None => None
         case Some(b) => Some(Value(BoolValue(b.v != 0), b.st)))
    case Cond(c, l, r) =>
      (match Eval(c, s)
       case None => None
       case Some(a) => if a.v != 0 then Eval(l, a.st) else Eval(r, a.st))
    case Assign(x, ty, e1) =>
      (match Eval(e1, s)
       case None => None
       case Some(r) => Some(Value(Wrap(ty, r.v), r.st[x := ToWord(r.v)])))
    case Compound(op, x, ty, e1) =>
      if x !in s then None else
      (match Eval(e1, s)
       case None => None
       case Some(r) =>
         var opTy := CompoundType(op, ty, TypeOf(e1));
         match Arith(op, opTy, Wrap(opTy, Interpret(ty, s[x])), r.v)
         case None => None
         case Some(v) => Some(Value(Wrap(ty, v), r.st[x := ToWord(v)])))
    case PostStep(inc, x, ty) =>
      if x !in s then None else
      var prev := Interpret(ty, s[x]);
      Some(Value(prev, s[x := ToWord(if inc then prev + 1 else prev - 1)]))
  }

  /** Values stay in the range of their type. */
  lemma {:induction false} EvalInRange(e: Expr, s: Store)
    requires WellTyped(e)
    ensures Eval(e, s).Some? ==> InRange(TypeOf(e), Eval(e, s).value.v)
  {
    match e
    case Binary(op, l, r) =>
      EvalInRange(l, s);
      if Eval(l, s).Some? { EvalInRange(r, Eval(l, s).value.st); }
    case Cond(c, l, r) =>
      if Eval(c, s).Some? {
        EvalInRange(l, Eval(c, s).value.st);
        EvalInRange(r, Eval(c, s).value.st);
      }
    case _ =>
  }

  /** Section 6.5.16.2 of ISO C11: a compound assignment is the assignment of the operation, which is
      done in the left operand's type for shifts, and else in `unsigned` if either is. */
  lemma CompoundIsAssign(op: BinOp, x: string, ty: Ty, e1: Expr, s: Store)
    requires WellTyped(Compound(op, x, ty, e1))
    ensures var opTy := if op == Shl || op == Shr || (ty == Int && TypeOf(e1) == Int) then ty else UInt;
            Eval(Compound(op, x, ty, e1), s) ==
            Eval(Assign(x, ty, Cast(ty, Binary(op, Cast(opTy, Var(x, ty)), e1))), s)
  {
    var opTy := if op == Shl || op == Shr || (ty == Int && TypeOf(e1) == Int) then ty else UInt;
    assert opTy == CompoundType(op, ty, TypeOf(e1));
    var left := Cast(opTy, Var(x, ty));
    var both := Binary(op, left, e1);
    hide Eval, Arith, Wrap, ToWord, Interpret;
    CastParts(opTy, Var(x, ty), s);
    CastParts(ty, both, s);
    BinaryParts(op, left, e1, s);
    AssignParts(op, x, ty, e1, Cast(ty, both), s);
  }

  lemma CastParts(ty: Ty, e: Expr, s: Store)
    ensures Eval(Cast(ty, e), s) ==
            if Eval(e, s).None? then None else Some(Value(Wrap(ty, Eval(e, s).value.v), Eval(e, s).value.st))
    ensures e.Var? ==> Eval(e, s) == if e.x in s then Some(Value(Interpret(e.vty, s[e.x]), s)) else None
  {
  }

  lemma BinaryParts(op: BinOp, l: Expr, r: Expr, s: Store)
    ensures Eval(Binary(op, l, r), s) ==
            if Eval(l, s).None? || Eval(r, Eval(l, s).value.st).None? then None else
            var a, b := Eval(l, s).value, Eval(r, Eval(l, s).value.st).value;
            var v := Arith(op, TypeOf(l), a.v, b.v);
            if v.None? then None else Some(Value(v.value, b.st))
  {
    hide Arith;
  }

  lemma AssignParts(op: BinOp, x: string, ty: Ty, e1: Expr, e2: Expr, s: Store)
    ensures Eval(Assign(x, ty, e2), s) ==
            if Eval(e2, s).None? then None
            else Some(Value(Wrap(ty, Eval(e2, s).value.v), Eval(e2, s).value.st[x := ToWord(Eval(e2, s).value.v)]))
    ensures Eval(Compound(op, x, ty, e1), s) ==
            if x !in s || Eval(e1, s).None? then None else
            var opTy, r := CompoundType(op, ty, TypeOf(e1)), Eval(e1, s).value;
            var v := Arith(op, opTy, Wrap(opTy, Interpret(ty, s[x])), r.v);
            if v.None? then None else Some(Value(Wrap(ty, v.value), r.st[x := ToWord(v.value)]))
  {
    hide Arith;
  }

  /** Comparisons and logical operations have type `int` and value 0 or 1. */
  lemma TruthValues(e: Expr, s: Store)
    requires e.Not? || e.Rel? || e.AndAlso? || e.OrElse?
    ensures TypeOf(e) == Int
    ensures Eval(e, s).Some? ==> Eval(e, s).value.v == 0 || Eval(e, s).value.v == 1
  {
  }

  /** `t` keeps every variable of `s`, and the value of those outside `written`. */
  predicate Extends(s: Store, t: Store, written: set<string>) {
    s.Keys <= t.Keys && forall y :: y in s && y !in written ==> t[y] == s[y]
  }

  /** Evaluation changes only what the expression assigns. */
  lemma {:induction false} EvalFrame(e: Expr, s: Store)
    ensures Eval(e, s).Some? ==> Extends(s, Eval(e, s).value.st, Writes(e))
    decreases e, 0
  {
    match e
    case Lit(_, _) =>
    case Var(_, _) =>
    case PostStep(_, _, _) =>
    case Cast(_, e1) => EvalFrame(e1, s);
    case Unary(_, e1) => EvalFrame(e1, s);
    case Not(e1) => EvalFrame(e1, s);
    case Assign(_, _, e1) => EvalFrame(e1, s);
    case Compound(_, _, _, e1) => EvalFrame(e1, s);
    case Binary(_, l, r) => EvalFrame(l, s); EvalFrameNext(l, r, s);
    case Rel(_, l, r) => EvalFrame(l, s); EvalFrameNext(l, r, s);
    case AndAlso(l, r) => EvalFrame(l, s); EvalFrameNext(l, r, s);
    case OrElse(l, r) => EvalFrame(l, s); EvalFrameNext(l, r, s);
    case Cond(c, l, r) => EvalFrame(c, s); EvalFrameNext(c, l, s); EvalFrameNext(c, r, s);
  }

  lemma {:induction false} EvalFrameNext(l: Expr, r: Expr, s: Store)
    requires Eval(l, s).Some? ==> Extends(s, Eval(l, s).value.st, Writes(l))
    ensures Eval(l, s).Some? && Eval(r, Eval(l, s).value.st).Some? ==>
              Extends(s, Eval(r, Eval(l, s).value.st).value.st, Writes(l) + Writes(r))
    decreases r, 1
  {
    if Eval(l, s).Some? { EvalFrame(r, Eval(l, s).value.st); }
  }

  // ----- Sequencing -----

  function Writes(e: Expr): set<string> {
    match e
    case Lit(_, _) => {}
    case Var(_, _) => {}
    case Cast(_, e1) => Writes(e1)
    case Unary(_, e1) => Writes(e1)
    case Not(e1) => Writes(e1)
    case Binary(_, l, r) => Writes(l) + Writes(r)
    case Rel(_, l, r) => Writes(l) + Writes(r)
    case AndAlso(l, r) => Writes(l) + Writes(r)
    case OrElse(l, r) => Writes(l) + Writes(r)
    case Cond(c, l, r) => Writes(c) + Writes(l) + Writes(r)
    case Assign(x, _, e1) => Writes(e1) + {x}
    case Compound(_, x, _, e1) => Writes(e1) + {x}
    case PostStep(_, x, _) => {x}
  }

  function Reads(e: Expr): set<string> {
    match e
    case Lit(_, _) => {}
    case Var(x, _) => {x}
    case Cast(_, e1) => Reads(e1)
    case Unary(_, e1) => Reads(e1)
    case Not(e1) => Reads(e1)
    case Binary(_, l, r) => Reads(l) + Reads(r)
    case Rel(_, l, r) => Reads(l) + Reads(r)
    case AndAlso(l, r) => Reads(l) + Reads(r)
    case OrElse(l, r) => Reads(l) + Reads(r)
    case Cond(c, l, r) => Reads(c) + Reads(l) + Reads(r)
    case Assign(_, _, e1) => Reads(e1)
    case Compound(_, x, _, e1) => Reads(e1) + {x}
    case PostStep(_, x, _) => {x}
  }

  /** Section 6.5 paragraph 2 of ISO C11, read off the syntax: operands without a
      sequence point between them do not modify what the other one touches. */
  predicate RaceFree(e: Expr) {
    match e
    case Lit(_, _) => true
    case Var(_, _) => true
    case Cast(_, e1) => RaceFree(e1)
    case Unary(_, e1) => RaceFree(e1)
    case Not(e1) => RaceFree(e1)
    case Binary(op, l, r) => RaceFree(l) && RaceFree(r) && (op != Comma ==> Unrelated(l, r))
    case Rel(_, l, r) => RaceFree(l) && RaceFree(r) && Unrelated(l, r)
    case AndAlso(l, r) => RaceFree(l) && RaceFree(r)
    case OrElse(l, r) => RaceFree(l) && RaceFree(r)
    case Cond(c, l, r) => RaceFree(c) && RaceFree(l) && RaceFree(r)
    case Assign(x, _, e1) => RaceFree(e1) && x !in Writes(e1)
    case Compound(_, x, _, e1) => RaceFree(e1) && x !in Writes(e1)
    case PostStep(_, _, _) => true
  }

  /** The variable through which the value of `e` is handed on, if it is not copied. */
  function ByName(e: Expr): Option<string> {
    match e
    case Var(x, _) => Some(x)
    case Cast(_, e1) => ByName(e1)
    case Assign(x, _, _) => Some(x)
    case Compound(_, x, _, _) => Some(x)
    case _ => None
  }

  predicate Undisturbed(l: Expr, r: Expr) {
    ByName(l).Some? ==> ByName(l).value !in Writes(r)
  }

  /** No operand that is handed on by name is assigned before it is used. */
  predicate Stable(e: Expr) {
    match e
    case Lit(_, _) => true
    case Var(_, _) => true
    case Cast(_, e1) => Stable(e1)
    case Unary(_, e1) => Stable(e1)
    case Not(e1) => Stable(e1)
    case Binary(op, l, r) => Stable(l) && Stable(r) && (op != Comma ==> Undisturbed(l, r))
    case Rel(_, l, r) => Stable(l) && Stable(r) && Undisturbed(l, r)
    case AndAlso(l, r) => Stable(l) && Stable(r)
    case OrElse(l, r) => Stable(l) && Stable(r)
    case Cond(c, l, r) => Stable(c) && Stable(l) && Stable(r)
    case Assign(_, _, e1) => Stable(e1)
    case Compound(_, x, _, e1) => Stable(e1) && x !in Writes(e1)
    case PostStep(_, _, _) => true
  }

  lemma {:induction false} ByNameTouches(e: Expr)
    ensures ByName(e).Some? ==> ByName(e).value in Reads(e) + Writes(e)
  {
    match e
    case Cast(_, e1) => ByNameTouches(e1);
    case _ =>
  }

  /** Every expression that ISO C11 leaves defined by its syntax is stable. */
  lemma {:induction false} RaceFreeIsStable(e: Expr)
    requires RaceFree(e)
    ensures Stable(e)
  {
    match e
    case Lit(_, _) =>
    case Var(_, _) =>
    case PostStep(_, _, _) =>
    case Cast(_, e1) => RaceFreeIsStable(e1);
    case Unary(_, e1) => RaceFreeIsStable(e1);
    case Not(e1) => RaceFreeIsStable(e1);
    case Assign(_, _, e1) => RaceFreeIsStable(e1);
    case Compound(_, _, _, e1) => RaceFreeIsStable(e1);
    case Binary(_, l, r) => RaceFreeIsStable(l); RaceFreeIsStable(r); ByNameTouches(l);
    case Rel(_, l, r) => RaceFreeIsStable(l); RaceFreeIsStable(r); ByNameTouches(l);
    case AndAlso(l, r) => RaceFreeIsStable(l); RaceFreeIsStable(r);
    case OrElse(l, r) => RaceFreeIsStable(l); RaceFreeIsStable(r);
    case Cond(c, l, r) => RaceFreeIsStable(c); RaceFreeIsStable(l); RaceFreeIsStable(r);
  }

  predicate Unrelated(l: Expr, r: Expr) {
    Writes(l) !! Reads(r) + Writes(r) && Writes(r) !! Reads(l) + Writes(l)
  }

  // ----- Statements -----

  datatype Key = CaseOf(v: Int32) | DefaultCase

  datatype Stmt =
    | Null
    | ExprStmt(e: Expr)
    | Return(result: Option<Expr>)
    | Seq(first: Stmt, rest: Stmt)
    | If(c: Expr, body: Stmt)
    | IfElse(c: Expr, thn: Stmt, els: Stmt)
    | While(c: Expr, body: Stmt, id: nat)
    | DoWhile(body: Stmt, c: Expr, id: nat)
    | For(init: Option<Expr>, fc: Option<Expr>, end: Option<Expr>, body: Stmt, id: nat)
    | Switch(c: Expr, body: Stmt, id: nat)
    | Case(key: Key, body: Stmt, id: nat)
    | Break(id: nat)
    | Continue(id: nat)

  /** The case labels of the enclosing switch that occur in `s`, most recent first:
      the order in which they are collected on the switch statement. */
  function Keys(s: Stmt): seq<Key> {
    match s
    case Seq(a, b) => Keys(b) + Keys(a)
    case If(_, a) => Keys(a)
    case IfElse(_, a, b) => Keys(b) + Keys(a)
    case While(_, a, _) => Keys(a)
    case DoWhile(a, _, _) => Keys(a)
    case For(_, _, _, a, _) => Keys(a)
    case Case(k, a, _) => Keys(a) + [k]
    case _ => []
  }

  datatype Outcome = Normal | Broke | Continued | Returned(v: Option<int>)

  datatype Result = Done(o: Outcome, st: Store) | Timeout | Wrong

  /** Where a switch on value `v` of type `ty` goes: the case whose constant, converted
      to the type of the controlling expression, equals `v`; else the default; else
      past the body. */
  function Dispatch(keys: seq<Key>, ty: Ty, v: int): (k: Option<Key>)
    ensures k.Some? ==> k.value in keys
  {
    match FindCase(keys, ty, v)
    case Some(k) => Some(k)
    case None => if DefaultCase in keys then Some(DefaultCase) else None
  }

  function FindCase(keys: seq<Key>, ty: Ty, v: int): (k: Option<Key>)
    ensures k.Some? ==> k.value in keys && k.value.CaseOf? && Wrap(ty, k.value.v) == v
  {
    if keys == [] then None
    else if keys[0].CaseOf? && Wrap(ty, keys[0].v) == v then Some(keys[0])
    else FindCase(keys[1..], ty, v)
  }

  function EvalOpt(e: Option<Expr>, s: Store): Option<Value> {
    match e
    case None => Some(Value(1, s))
    case Some(e1) => Eval(e1, s)
  }

  /** The meaning of a statement.  `at` is None for ordinary execution from the top;
      Some(k) enters the statement at the case label `k` inside it, as a switch does,
      however deeply the label is nested in blocks, branches and loops.  Every
      jump back to the head of a loop spends one unit of `fuel`. */
  function Run(fuel: nat, s: Stmt, at: Option<Key>, st: Store): Result
    requires at.Some? ==> at.value in Keys(s)
    decreases fuel, s, 1
  {
    match s
    case Null => Done(Normal, st)
    case ExprStmt(e) =>
      (match Eval(e, st)
       case None => Wrong
       case Some(r) => Done(Normal, r.st))
    case Return(oe) =>
      (match oe
       case None => Done(Returned(None), st)
       case Some(e) =>
         match Eval(e, st)
         case None => Wrong
         case Some(r) => Done(Returned(Some(r.v)), r.st))
    case Seq(a, b) =>
      if at.Some? && at.value !in Keys(a) then Run(fuel, b, at, st)
      else
        (match Run(fuel, a, at, st)
         case Done(Normal, st1) => Run(fuel, b, None, st1)
         case r => r)
    case If(c, a) =>
      if at.Some? then Run(fuel, a, at, st)
      else
        (match Eval(c, st)
         case None => Wrong
         case Some(r) => if r.v != 0 then Run(fuel, a, None, r.st) else Done(Normal, r.st))
    case IfElse(c, a, b) =>
      if at.Some? then
        if at.value in Keys(a) then Run(fuel, a, at, st) else Run(fuel, b, at, st)
      else
        (match Eval(c, st)
         case None => Wrong
         case Some(r) => if r.v != 0 then Run(fuel, a, None, r.st) else Run(fuel, b, None, r.st))
    case While(c, a, _) =>
      if at.Some? then AfterWhile(fuel, s, Run(fuel, a, at, st))
      else
        (match Eval(c, st)
         case None => Wrong
         case Some(r) =>
           if r.v == 0 then Done(Normal, r.st)
           else AfterWhile(fuel, s, Run(fuel, a, None, r.st)))
    case DoWhile(a, c, _) => AfterDo(fuel, s, Run(fuel, a, at, st))
    case For(init, _, _, _, _) =>
      if at.Some? then ForLoop(fuel, s, at, st)
      else
        (match EvalOpt(init, st)
         case None => Wrong
         case Some(r) => ForLoop(fuel, s, None, r.st))
    case Switch(c, a, _) =>
      (match Eval(c, st)
       case None => Wrong
       case Some(r) =>
         match Dispatch(Keys(a), TypeOf(c), r.v)
         case None => Done(Normal, r.st)
         case Some(k) => AfterSwitch(Run(fuel, a, Some(k), r.st)))
    case Case(k, a, _) =>
      if at.Some? && at.value != k then Run(fuel, a, at, st) else Run(fuel, a, None, st)
    case Break(_) => Done(Broke, st)
    case Continue(_) => Done(Continued, st)
  }

  function AfterWhile(fuel: nat, s: Stmt, r: Result): Result
    requires s.While?
    decreases fuel, s, 0
  {
    match r
    case Done(Normal, st) => if fuel == 0 then Timeout else Run(fuel - 1, s, None, st)
    case Done(Continued, st) => if fuel == 0 then Timeout else Run(fuel - 1, s, None, st)
    case Done(Broke, st) => Done(Normal, st)
    case _ => r
  }

  function AfterDo(fuel: nat, s: Stmt, r: Result): Result
    requires s.DoWhile?
    decreases fuel, s, 0
  {
    if r.Done? && (r.o == Normal || r.o == Continued) then
      match Eval(s.c, r.st)
      case None => Wrong
      case Some(x) =>
        if x.v == 0 then Done(Normal, x.st)
        else if fuel == 0 then Timeout
        else Run(fuel - 1, s, None, x.st)
    else if r.Done? && r.o == Broke then Done(Normal, r.st)
    else r
  }

  function ForLoop(fuel: nat, s: Stmt, at: Option<Key>, st: Store): Result
    requires s.For?
    requires at.Some? ==> at.value in Keys(s)
    decreases fuel, s, 0
  {
    if at.Some? then AfterFor(fuel, s, Run(fuel, s.body, at, st))
    else
      match EvalOpt(s.fc, st)
      case None => Wrong
      case Some(r) =>
        if r.v == 0 then Done(Normal, r.st) else AfterFor(fuel, s, Run(fuel, s.body, None, r.st))
  }

  function AfterFor(fuel: nat, s: Stmt, r: Result): Result
    requires s.For?
    decreases fuel, s.body, 2
  {
    if r.Done? && (r.o == Normal || r.o == Continued) then
      match EvalOpt(s.end, r.st)
      case None => Wrong
      case Some(x) => if fuel == 0 then Timeout else ForLoop(fuel - 1, s, None, x.st)
    else if r.Done? && r.o == Broke then Done(Normal, r.st)
    else r
  }

  function AfterSwitch(r: Result): Result {
    if r.Done? && r.o == Broke then Done(Normal, r.st) else r
  }
}
