/** The conversions that type checking writes into expressions.

    The parser leaves operands of mixed `int` and `unsigned` type; type checking makes every
    conversion that ISO C11 has in section 6.3.1.8 and in section 6.5 an explicit cast, and
    that is what lowering relies on.
  */
module TypeConversion {
  import opened Words
  import opened CSource
  import Tac
  import opened LabelResolution
  import opened Lowering
  import opened LoweringStmt

  /** A cast, unless the type is right already. */
  function To(e: Expr, ty: Ty): Expr {
    if TypeOf(e) == ty then e else Cast(ty, e)
  }

  function Converted(e: Expr): Expr {
    match e
    case Lit(_, _) => e
    case Var(_, _) => e
    case PostStep(_, _, _) => e
    case Cast(ty, e1) => Cast(ty, Converted(e1))
    case Unary(op, e1) => Unary(op, Converted(e1))
    case Not(e1) => Not(Converted(e1))
    case Binary(op, l, r) =>
      var a, b := Converted(l), Converted(r);
      if op == Comma then Binary(op, a, b)
      else if op == Shl || op == Shr then Binary(op, a, To(b, TypeOf(a)))
      else var ty := Common(TypeOf(a), TypeOf(b)); Binary(op, To(a, ty), To(b, ty))
    case Rel(rel, l, r) =>
      var a, b := Converted(l), Converted(r);
      var ty := Common(TypeOf(a), TypeOf(b));
      Rel(rel, To(a, ty), To(b, ty))
    case AndAlso(l, r) => AndAlso(Converted(l), Converted(r))
    case OrElse(l, r) => OrElse(Converted(l), Converted(r))
    case Cond(c, l, r) =>
      var a, b := Converted(l), Converted(r);
      var ty := Common(TypeOf(a), TypeOf(b));
      Cond(Converted(c), To(a, ty), To(b, ty))
    case Assign(x, ty, e1) => Assign(x, ty, To(Converted(e1), ty))
    case Compound(op, x, ty, e1) =>
      var a := Converted(e1);
      Compound(op, x, ty, To(a, CompoundType(op, ty, TypeOf(a))))
  }

  /** There is no compound assignment with a comma. */
  predicate Parsed(e: Expr) {
    match e
    case Lit(_, _) => true
    case Var(_, _) => true
    case PostStep(_, _, _) => true
    case Cast(_, e1) => Parsed(e1)
    case Unary(_, e1) => Parsed(e1)
    case Not(e1) => Parsed(e1)
    case Binary(_, l, r) => Parsed(l) && Parsed(r)
    case Rel(_, l, r) => Parsed(l) && Parsed(r)
    case AndAlso(l, r) => Parsed(l) && Parsed(r)
    case OrElse(l, r) => Parsed(l) && Parsed(r)
    case Cond(c, l, r) => Parsed(c) && Parsed(l) && Parsed(r)
    case Assign(_, _, e1) => Parsed(e1)
    case Compound(op, _, _, e1) => op != Comma && Parsed(e1)
  }

  // ----- The meaning before type checking -----

  /** The type of an expression whose operands may differ in type. */
  function SourceType(e: Expr): Ty {
    match e
    case Lit(_, ty) => ty
    case Var(_, ty) => ty
    case Cast(ty, _) => ty
    case Unary(_, e1) => SourceType(e1)
    case Not(_) => Int
    case Binary(op, l, r) =>
      if op == Comma then SourceType(r)
      else if op == Shl || op == Shr || SourceType(r) == Int then SourceType(l)
      else UInt
    case Rel(_, _, _) => Int
    case AndAlso(_, _) => Int
    case OrElse(_, _) => Int
    case Cond(_, l, r) => if SourceType(r) == Int then SourceType(l) else UInt
    case Assign(_, ty, _) => ty
    case Compound(_, _, ty, _) => ty
    case PostStep(_, _, ty) => ty
  }

  function Balanced(l: Expr, r: Expr): Ty {
    if SourceType(l) == Int && SourceType(r) == Int then Int else UInt
  }

  /** Evaluation with the conversions of ISO C11 made on values. */
  function Meaning(e: Expr, s: Store): Option<Value> {
    match e
    case Lit(w, ty) => Some(Value(Interpret(ty, w), s))
    case Var(x, ty) => if x in s then Some(Value(Interpret(ty, s[x]), s)) else None
    case Cast(ty, e1) =>
      (match Meaning(e1, s)
       case None => None
       case Some(r) => Some(Value(Wrap(ty, r.v), r.st)))
    case Unary(op, e1) =>
      (match Meaning(e1, s)
       case None => None
       case Some(r) => Some(Value(UnaryValue(op, SourceType(e1), r.v), r.st)))
    case Not(e1) =>
      (match Meaning(e1, s)
       case None => None
       case Some(r) => Some(Value(BoolValue(r.v == 0), r.st)))
    case Binary(op, l, r) =>
      (match Meaning(l, s)
       case None => None
       case Some(a) =>
         match Meaning(r, a.st)
         case None => None
         case Some(b) =>
           if op == Comma then Some(b) else
           var ty := if op == Shl || op == Shr then SourceType(l) else Balanced(l, r);
           match Arith(op, ty, Wrap(ty, a.v), Wrap(ty, b.v))
           case None => None
           case Some(v) => Some(Value(v, b.st)))
    case Rel(rel, l, r) =>
      (match Meaning(l, s)
       case None => None
       case Some(a) =>
         match Meaning(r, a.st)
         case None => None
         case Some(b) =>
           var ty := Balanced(l, r);
           Some(Value(BoolValue(Holds(rel, Wrap(ty, a.v), Wrap(ty, b.v))), b.st)))
    case AndAlso(l, r) =>
      (match Meaning(l, s)
       case None => None
       case Some(a) =>
         if a.v == 0 then Some(Value(0, a.st)) else
         match Meaning(r, a.st)
         case None => None
         case Some(b) => Some(Value(BoolValue(b.v != 0), b.st)))
    case OrElse(l, r) =>
      (match Meaning(l, s)
       case None => None
       case Some(a) =>
         if a.v != 0 then Some(Value(1, a.st)) else
         match Meaning(r, a.st)
         case None => None
         case Some(b) => Some(Value(BoolValue(b.v != 0), b.st)))
    case Cond(c, l, r) =>
      (match Meaning(c, s)
       case None => None
       case Some(a) =>
         match Meaning(if a.v != 0 then l else r, a.st)
         case None => None
         case Some(b) => Some(Value(Wrap(Balanced(l, r), b.v), b.st)))
    case Assign(x, ty, e1) =>
      (match Meaning(e1, s)
       case None => None
       case Some(r) => Some(Value(Wrap(ty, r.v), r.st[x := ToWord(Wrap(ty, r.v))])))
    case Compound(op, x, ty, e1) =>
      if x !in s then None else
      (match Meaning(e1, s)
       case None => None
       case Some(r) =>
         var opTy := if op == Shl || op == Shr || (ty == Int && SourceType(e1) == Int) then ty else UInt;
         match Arith(op, opTy, Wrap(opTy, Interpret(ty, s[x])), Wrap(opTy, r.v))
         case None => None
         case Some(v) => Some(Value(Wrap(ty, v), r.st[x := ToWord(v)])))
    case PostStep(inc, x, ty) =>
      if x !in s then None else
      var prev := Interpret(ty, s[x]);
      Some(Value(prev, s[x := ToWord(if inc then prev + 1 else prev - 1)]))
  }

  // ----- What conversion establishes -----

  lemma ToTyped(e: Expr, ty: Ty)
    ensures TypeOf(To(e, ty)) == ty && (WellTyped(To(e, ty)) <==> WellTyped(e))
    ensures Reads(To(e, ty)) == Reads(e) && Writes(To(e, ty)) == Writes(e)
    ensures RaceFree(To(e, ty)) <==> RaceFree(e)
  {
  }

  /** After type checking the operands of every operator have one type, and no type has changed. */
  lemma {:induction false} ConvertedTyped(e: Expr)
    requires Parsed(e)
    ensures WellTyped(Converted(e)) && TypeOf(Converted(e)) == SourceType(e)
  {
    match e
    case Lit(_, _) =>
    case Var(_, _) =>
    case PostStep(_, _, _) =>
    case Cast(_, e1) => ConvertedTyped(e1);
    case Unary(_, e1) => ConvertedTyped(e1);
    case Not(e1) => ConvertedTyped(e1);
    case Assign(_, _, e1) => ConvertedTyped(e1);
    case Compound(_, _, _, e1) => ConvertedTyped(e1);
    case Binary(_, l, r) => ConvertedTyped(l); ConvertedTyped(r);
    case Rel(_, l, r) => ConvertedTyped(l); ConvertedTyped(r);
    case AndAlso(l, r) => ConvertedTyped(l); ConvertedTyped(r);
    case OrElse(l, r) => ConvertedTyped(l); ConvertedTyped(r);
    case Cond(c, l, r) => ConvertedTyped(c); ConvertedTyped(l); ConvertedTyped(r);
  }

  /** Type checking leaves an expression alone exactly if it needs no conversion. */
  lemma {:induction false} ConvertedFixed(e: Expr)
    requires Parsed(e)
    ensures Converted(e) == e <==> WellTyped(e)
  {
    if Converted(e) == e { ConvertedTyped(e); }
    if WellTyped(e) { TypedFixed(e); }
  }

  lemma {:induction false} TypedFixed(e: Expr)
    requires WellTyped(e)
    ensures Converted(e) == e
  {
    match e
    case Lit(_, _) =>
    case Var(_, _) =>
    case PostStep(_, _, _) =>
    case Cast(_, e1) => TypedFixed(e1);
    case Unary(_, e1) => TypedFixed(e1);
    case Not(e1) => TypedFixed(e1);
    case Assign(_, _, e1) => TypedFixed(e1);
    case Compound(_, _, _, e1) => TypedFixed(e1);
    case Binary(_, l, r) => TypedFixed(l); TypedFixed(r);
    case Rel(_, l, r) => TypedFixed(l); TypedFixed(r);
    case AndAlso(l, r) => TypedFixed(l); TypedFixed(r);
    case OrElse(l, r) => TypedFixed(l); TypedFixed(r);
    case Cond(c, l, r) => TypedFixed(c); TypedFixed(l); TypedFixed(r);
  }

  /** Conversion adds no access. */
  lemma {:induction false} ConvertedTouches(e: Expr)
    ensures Reads(Converted(e)) == Reads(e) && Writes(Converted(e)) == Writes(e)
    decreases e, 0
  {
    hide TypeOf, To;
    match e
    case Lit(_, _) =>
    case Var(_, _) =>
    case PostStep(_, _, _) =>
    case Cast(_, e1) => TouchesKept(e1);
    case Unary(_, e1) => TouchesKept(e1);
    case Not(e1) => TouchesKept(e1);
    case Assign(_, _, e1) => TouchesKept(e1);
    case Compound(_, _, _, e1) => TouchesKept(e1);
    case Binary(_, l, r) => TouchesKept(l); TouchesKept(r);
    case Rel(_, l, r) => TouchesKept(l); TouchesKept(r);
    case AndAlso(l, r) => TouchesKept(l); TouchesKept(r);
    case OrElse(l, r) => TouchesKept(l); TouchesKept(r);
    case Cond(c, l, r) => TouchesKept(c); TouchesKept(l); TouchesKept(r);
  }

  lemma {:induction false} TouchesKept(e: Expr)
    ensures Reads(Converted(e)) == Reads(e) && Writes(Converted(e)) == Writes(e)
    ensures forall ty :: Reads(To(Converted(e), ty)) == Reads(e) && Writes(To(Converted(e), ty)) == Writes(e)
    decreases e, 1
  {
    ConvertedTouches(e);
    hide Reads, Writes, To, Converted;
    forall ty ensures Reads(To(Converted(e), ty)) == Reads(e) && Writes(To(Converted(e), ty)) == Writes(e) {
      ToTyped(Converted(e), ty);
    }
  }

  /** Conversion adds and removes no unsequenced conflict. */
  lemma {:induction false} ConvertedRaces(e: Expr)
    ensures RaceFree(Converted(e)) <==> RaceFree(e)
    decreases e, 0
  {
    hide TypeOf, Reads, Writes, To;
    match e
    case Lit(_, _) =>
    case Var(_, _) =>
    case PostStep(_, _, _) =>
    case Cast(_, e1) => RacesKept(e1);
    case Unary(_, e1) => RacesKept(e1);
    case Not(e1) => RacesKept(e1);
    case Assign(_, _, e1) => RacesKept(e1);
    case Compound(_, _, _, e1) => RacesKept(e1);
    case Binary(_, l, r) => RacesKept(l); RacesKept(r);
    case Rel(_, l, r) => RacesKept(l); RacesKept(r);
    case AndAlso(l, r) => RacesKept(l); RacesKept(r);
    case OrElse(l, r) => RacesKept(l); RacesKept(r);
    case Cond(c, l, r) => RacesKept(c); RacesKept(l); RacesKept(r);
  }

  lemma {:induction false} RacesKept(e: Expr)
    ensures RaceFree(Converted(e)) <==> RaceFree(e)
    ensures Reads(Converted(e)) == Reads(e) && Writes(Converted(e)) == Writes(e)
    ensures forall ty :: Reads(To(Converted(e), ty)) == Reads(e) && Writes(To(Converted(e), ty)) == Writes(e)
    ensures forall ty :: RaceFree(To(Converted(e), ty)) <==> RaceFree(e)
    decreases e, 1
  {
    ConvertedRaces(e);
    TouchesKept(e);
    hide RaceFree, Reads, Writes, To, Converted;
    forall ty ensures RaceFree(To(Converted(e), ty)) <==> RaceFree(e) {
      ToTyped(Converted(e), ty);
    }
  }

  // ----- What conversion preserves -----

  function Into(ty: Ty, v: Option<Value>): Option<Value> {
    match v
    case None => None
    case Some(r) => Some(Value(Wrap(ty, r.v), r.st))
  }

  lemma ToMeaning(e: Expr, ty: Ty, s: Store)
    requires WellTyped(e)
    ensures Eval(To(e, ty), s) == Into(ty, Eval(e, s))
  {
    EvalInRange(e, s);
    hide Wrap, WellTyped;
  }

  /** `e` has been shown to keep its meaning from `s` on. */
  ghost predicate Kept(e: Expr, s: Store) {
    Parsed(e) && Eval(Converted(e), s) == Meaning(e, s)
  }

  ghost predicate KeptAfter(l: Expr, r: Expr, s: Store) {
    Meaning(l, s).Some? ==> Kept(r, Meaning(l, s).value.st)
  }

  lemma KeptInto(e: Expr, ty: Ty, s: Store)
    requires Kept(e, s)
    ensures Eval(To(Converted(e), ty), s) == Into(ty, Meaning(e, s))
    ensures TypeOf(Converted(e)) == SourceType(e)
  {
    hide Eval, Meaning, WellTyped, Converted, To;
    ConvertedTyped(e);
    ToMeaning(Converted(e), ty, s);
  }

  lemma MeaningParts(op: BinOp, l: Expr, r: Expr, s: Store)
    ensures Meaning(Binary(op, l, r), s) ==
            if Meaning(l, s).None? || Meaning(r, Meaning(l, s).value.st).None? then None else
            var a, b := Meaning(l, s).value, Meaning(r, Meaning(l, s).value.st).value;
            if op == Comma then Some(b) else
            var ty := OperandType(op, l, r);
            var v := Arith(op, ty, Wrap(ty, a.v), Wrap(ty, b.v));
            if v.None? then None else Some(Value(v.value, b.st))
  {
    hide Arith, Wrap, Balanced, SourceType;
  }

  /** The type in which an operator works. */
  function OperandType(op: BinOp, l: Expr, r: Expr): Ty {
    if op == Shl || op == Shr then SourceType(l) else Balanced(l, r)
  }

  lemma BinaryShape(op: BinOp, l: Expr, r: Expr)
    requires Parsed(l) && Parsed(r)
    ensures var ty := OperandType(op, l, r);
            var l', r' := To(Converted(l), ty), To(Converted(r), ty);
            && TypeOf(l') == ty
            && Converted(Binary(op, l, r)) ==
               if op == Comma then Binary(op, Converted(l), Converted(r)) else Binary(op, l', r')
  {
    ConvertedTyped(l);
    ConvertedTyped(r);
    hide WellTyped, Parsed;
  }

  /** Two operands one after the other, each converted to `ty`. */
  lemma PairKept(l: Expr, r: Expr, ty: Ty, s: Store)
    requires Kept(l, s) && KeptAfter(l, r, s)
    ensures Eval(To(Converted(l), ty), s) == Into(ty, Meaning(l, s))
    ensures Meaning(l, s).Some? ==>
              var st := Meaning(l, s).value.st;
              Eval(To(Converted(r), ty), st) == Into(ty, Meaning(r, st))
  {
    hide Wrap, Eval, Meaning, Converted, To, Parsed;
    KeptInto(l, ty, s);
    if Meaning(l, s).Some? { KeptInto(r, ty, Meaning(l, s).value.st); }
  }

  lemma CommaKept(l: Expr, r: Expr, s: Store)
    requires Kept(l, s) && Parsed(r) && KeptAfter(l, r, s)
    ensures Kept(Binary(Comma, l, r), s)
  {
    hide Eval, Meaning, Converted, To, OperandType, TypeOf, SourceType;
    BinaryShape(Comma, l, r);
    MeaningParts(Comma, l, r, s);
    BinaryParts(Comma, Converted(l), Converted(r), s);
  }

  lemma BinaryKept(op: BinOp, l: Expr, r: Expr, s: Store)
    requires op != Comma && Kept(l, s) && Parsed(r) && KeptAfter(l, r, s)
    ensures Kept(Binary(op, l, r), s)
  {
    hide Wrap, Eval, Meaning, Arith, Converted, To, OperandType, TypeOf, SourceType;
    var ty := OperandType(op, l, r);
    BinaryShape(op, l, r);
    PairKept(l, r, ty, s);
    MeaningParts(op, l, r, s);
    BinaryParts(op, To(Converted(l), ty), To(Converted(r), ty), s);
  }

  lemma RelKept(rel: RelOp, l: Expr, r: Expr, s: Store)
    requires Kept(l, s) && Parsed(r) && KeptAfter(l, r, s)
    ensures Kept(Rel(rel, l, r), s)
  {
    hide Wrap, Eval, Meaning, Converted, To, Balanced, TypeOf, SourceType, Holds;
    var ty := Balanced(l, r);
    RelShape(rel, l, r);
    PairKept(l, r, ty, s);
    RelParts(rel, To(Converted(l), ty), To(Converted(r), ty), s);
    RelMeaning(rel, l, r, s);
  }

  lemma RelShape(rel: RelOp, l: Expr, r: Expr)
    requires Parsed(l) && Parsed(r)
    ensures var ty := Balanced(l, r);
            Converted(Rel(rel, l, r)) == Rel(rel, To(Converted(l), ty), To(Converted(r), ty))
  {
    ConvertedTyped(l);
    ConvertedTyped(r);
    hide WellTyped, Parsed, To;
  }

  lemma RelParts(rel: RelOp, l: Expr, r: Expr, s: Store)
    ensures Eval(Rel(rel, l, r), s) ==
            if Eval(l, s).None? || Eval(r, Eval(l, s).value.st).None? then None else
            var a, b := Eval(l, s).value, Eval(r, Eval(l, s).value.st).value;
            Some(Value(BoolValue(Holds(rel, a.v, b.v)), b.st))
  {
    hide Holds;
  }

  lemma RelMeaning(rel: RelOp, l: Expr, r: Expr, s: Store)
    ensures Meaning(Rel(rel, l, r), s) ==
            if Meaning(l, s).None? || Meaning(r, Meaning(l, s).value.st).None? then None else
            var a, b := Meaning(l, s).value, Meaning(r, Meaning(l, s).value.st).value;
            var ty := Balanced(l, r);
            Some(Value(BoolValue(Holds(rel, Wrap(ty, a.v), Wrap(ty, b.v))), b.st))
  {
    hide Holds, Wrap, Balanced;
  }

  lemma CondKept(c: Expr, l: Expr, r: Expr, s: Store)
    requires Kept(c, s) && Parsed(l) && Parsed(r) && KeptAfter(c, l, s) && KeptAfter(c, r, s)
    ensures Kept(Cond(c, l, r), s)
  {
    hide Wrap, Eval, Meaning, Converted, To, Balanced, TypeOf, SourceType;
    var ty := Balanced(l, r);
    CondShape(c, l, r);
    PairKept(c, l, ty, s);
    PairKept(c, r, ty, s);
    CondParts(Converted(c), To(Converted(l), ty), To(Converted(r), ty), s);
    CondMeaning(c, l, r, s);
  }

  lemma CondShape(c: Expr, l: Expr, r: Expr)
    requires Parsed(l) && Parsed(r)
    ensures var ty := Balanced(l, r);
            Converted(Cond(c, l, r)) == Cond(Converted(c), To(Converted(l), ty), To(Converted(r), ty))
  {
    ConvertedTyped(l);
    ConvertedTyped(r);
    hide WellTyped, Parsed, To;
  }

  lemma CondParts(c: Expr, l: Expr, r: Expr, s: Store)
    ensures Eval(Cond(c, l, r), s) ==
            if Eval(c, s).None? then None
            else Eval(if Eval(c, s).value.v != 0 then l else r, Eval(c, s).value.st)
  {
    hide Arith, Wrap, Interpret, UnaryValue, Holds, TypeOf;
  }

  lemma CondMeaning(c: Expr, l: Expr, r: Expr, s: Store)
    ensures Meaning(Cond(c, l, r), s) ==
            if Meaning(c, s).None? then None
            else Into(Balanced(l, r), Meaning(if Meaning(c, s).value.v != 0 then l else r, Meaning(c, s).value.st))
  {
    hide Wrap, Balanced;
  }

  lemma AssignKept(x: string, ty: Ty, e1: Expr, s: Store)
    requires Kept(e1, s)
    ensures Kept(Assign(x, ty, e1), s)
  {
    KeptInto(e1, ty, s);
    hide Wrap, TypeOf, SourceType, To;
  }

  lemma CompoundKept(op: BinOp, x: string, ty: Ty, e1: Expr, s: Store)
    requires op != Comma && Kept(e1, s)
    ensures Kept(Compound(op, x, ty, e1), s)
  {
    hide Wrap, Arith, Interpret, UnaryValue, Holds, Eval;
    var opTy := CompoundType(op, ty, SourceType(e1));
    KeptInto(e1, opTy, s);
    ToTyped(Converted(e1), opTy);
    AssignParts(op, x, ty, To(Converted(e1), opTy), e1, s);
    assert Converted(Compound(op, x, ty, e1)) == Compound(op, x, ty, To(Converted(e1), opTy));
    hide TypeOf, SourceType, To;
  }

  lemma AndKept(l: Expr, r: Expr, s: Store)
    requires Kept(l, s) && Parsed(r) && KeptAfter(l, r, s)
    ensures Kept(AndAlso(l, r), s)
  {
    hide Arith, Wrap, Interpret, UnaryValue, Holds, To, TypeOf, SourceType;
    assert Converted(AndAlso(l, r)) == AndAlso(Converted(l), Converted(r));
    hide Converted;
  }

  lemma OrKept(l: Expr, r: Expr, s: Store)
    requires Kept(l, s) && Parsed(r) && KeptAfter(l, r, s)
    ensures Kept(OrElse(l, r), s)
  {
    hide Arith, Wrap, Interpret, UnaryValue, Holds, To, TypeOf, SourceType;
    assert Converted(OrElse(l, r)) == OrElse(Converted(l), Converted(r));
    hide Converted;
  }

  /** The casts say what ISO C11 leaves implicit: same value, same variables, same undefined cases. */
  lemma {:induction false} ConvertedMeaning(e: Expr, s: Store)
    requires Parsed(e)
    ensures Eval(Converted(e), s) == Meaning(e, s)
    decreases e, 0
  {
    hide Wrap, Arith, WellTyped;
    match e
    case Lit(_, _) =>
    case Var(_, _) =>
    case PostStep(_, _, _) =>
    case Cast(_, e1) => ConvertedMeaning(e1, s);
    case Unary(_, e1) => ConvertedMeaning(e1, s); ConvertedTyped(e1);
    case Not(e1) => ConvertedMeaning(e1, s);
    case Assign(x, ty, e1) => ConvertedMeaning(e1, s); AssignKept(x, ty, e1, s);
    case Compound(op, x, ty, e1) => ConvertedMeaning(e1, s); CompoundKept(op, x, ty, e1, s);
    case Binary(op, l, r) =>
      ConvertedMeaning(l, s);
      MeaningAfter(l, r, s);
      if op == Comma { CommaKept(l, r, s); } else { BinaryKept(op, l, r, s); }
    case Rel(rel, l, r) => ConvertedMeaning(l, s); MeaningAfter(l, r, s); RelKept(rel, l, r, s);
    case AndAlso(l, r) => ConvertedMeaning(l, s); MeaningAfter(l, r, s); AndKept(l, r, s);
    case OrElse(l, r) => ConvertedMeaning(l, s); MeaningAfter(l, r, s); OrKept(l, r, s);
    case Cond(c, l, r) =>
      ConvertedMeaning(c, s);
      MeaningAfter(c, l, s);
      MeaningAfter(c, r, s);
      CondKept(c, l, r, s);
  }

  lemma {:induction false} MeaningAfter(l: Expr, r: Expr, s: Store)
    requires Parsed(r)
    ensures KeptAfter(l, r, s)
    decreases r, 1
  {
    if Meaning(l, s).Some? { ConvertedMeaning(r, Meaning(l, s).value.st); }
  }

  // ----- Statements -----

  function ConvertedOpt(e: Option<Expr>): Option<Expr> {
    match e
    case None => None
    case Some(e1) => Some(Converted(e1))
  }

  /** Type checking a statement of a function that returns `ret`.  None: a return without a
      value where there has to be one, or with one where there must not be. */
  function Checked(s: Stmt, ret: Option<Ty>): Option<Stmt> {
    match s
    case Null => Some(s)
    case Break(_) => Some(s)
    case Continue(_) => Some(s)
    case ExprStmt(e) => Some(ExprStmt(Converted(e)))
    case Return(oe) =>
      if oe.None? && ret.None? then Some(s)
      else if oe.Some? && ret.Some? then Some(Return(Some(To(Converted(oe.value), ret.value))))
      else None
    case Seq(a, b) =>
      (match (Checked(a, ret), Checked(b, ret))
       case (Some(x), Some(y)) => Some(Seq(x, y))
       case (_, _) => None)
    case If(c, a) =>
      (match Checked(a, ret)
       case None => None
       case Some(x) => Some(If(Converted(c), x)))
    case IfElse(c, a, b) =>
      (match (Checked(a, ret), Checked(b, ret))
       case (Some(x), Some(y)) => Some(IfElse(Converted(c), x, y))
       case (_, _) => None)
    case While(c, a, id) =>
      (match Checked(a, ret)
       case None => None
       case Some(x) => Some(While(Converted(c), x, id)))
    case DoWhile(a, c, id) =>
      (match Checked(a, ret)
       case None => None
       case Some(x) => Some(DoWhile(x, Converted(c), id)))
    case For(i, c, e, a, id) =>
      (match Checked(a, ret)
       case None => None
       case Some(x) => Some(For(ConvertedOpt(i), ConvertedOpt(c), ConvertedOpt(e), x, id)))
    case Switch(c, a, id) =>
      (match Checked(a, ret)
       case None => None
       case Some(x) => Some(Switch(Converted(c), x, id)))
    case Case(k, a, id) =>
      (match Checked(a, ret)
       case None => None
       case Some(x) => Some(Case(k, x, id)))
  }

  /** Every return in `s` has a value if `value` is set, and none has otherwise. */
  predicate Returning(s: Stmt, value: bool) {
    match s
    case Return(oe) => oe.Some? == value
    case Seq(a, b) => Returning(a, value) && Returning(b, value)
    case If(_, a) => Returning(a, value)
    case IfElse(_, a, b) => Returning(a, value) && Returning(b, value)
    case While(_, a, _) => Returning(a, value)
    case DoWhile(a, _, _) => Returning(a, value)
    case For(_, _, _, a, _) => Returning(a, value)
    case Switch(_, a, _) => Returning(a, value)
    case Case(_, a, _) => Returning(a, value)
    case _ => true
  }

  predicate Clean(e: Expr) {
    Parsed(e) && RaceFree(e)
  }

  predicate CleanOpt(e: Option<Expr>) {
    e.Some? ==> Clean(e.value)
  }

  /** No expression of `s` has an unsequenced conflict. */
  predicate CleanStmt(s: Stmt) {
    match s
    case Null => true
    case Break(_) => true
    case Continue(_) => true
    case ExprStmt(e) => Clean(e)
    case Return(oe) => CleanOpt(oe)
    case Seq(a, b) => CleanStmt(a) && CleanStmt(b)
    case If(c, a) => Clean(c) && CleanStmt(a)
    case IfElse(c, a, b) => Clean(c) && CleanStmt(a) && CleanStmt(b)
    case While(c, a, _) => Clean(c) && CleanStmt(a)
    case DoWhile(a, c, _) => Clean(c) && CleanStmt(a)
    case For(i, c, e, a, _) => CleanOpt(i) && CleanOpt(c) && CleanOpt(e) && CleanStmt(a)
    case Switch(c, a, _) => Clean(c) && CleanStmt(a)
    case Case(_, a, _) => CleanStmt(a)
  }

  lemma CleanConverted(e: Expr)
    requires Clean(e)
    ensures ExprOk(Converted(e)) && forall ty :: ExprOk(To(Converted(e), ty))
  {
    ConvertedTyped(e);
    ConvertedRaces(e);
    RaceFreeIsStable(Converted(e));
    hide WellTyped, Stable;
    forall ty ensures ExprOk(To(Converted(e), ty)) {
      ToTyped(Converted(e), ty);
      RaceFreeIsStable(To(Converted(e), ty));
    }
  }

  lemma CleanConvertedOpt(e: Option<Expr>)
    requires CleanOpt(e)
    ensures OptOk(ConvertedOpt(e))
  {
    if e.Some? { CleanConverted(e.value); }
  }

  /** Type checking accepts exactly the statements whose returns fit the function. */
  lemma {:induction false} CheckedAccepts(s: Stmt, ret: Option<Ty>)
    ensures Checked(s, ret).Some? <==> Returning(s, ret.Some?)
  {
    match s
    case Seq(a, b) => CheckedAccepts(a, ret); CheckedAccepts(b, ret);
    case If(_, a) => CheckedAccepts(a, ret);
    case IfElse(_, a, b) => CheckedAccepts(a, ret); CheckedAccepts(b, ret);
    case While(_, a, _) => CheckedAccepts(a, ret);
    case DoWhile(a, _, _) => CheckedAccepts(a, ret);
    case For(_, _, _, a, _) => CheckedAccepts(a, ret);
    case Switch(_, a, _) => CheckedAccepts(a, ret);
    case Case(_, a, _) => CheckedAccepts(a, ret);
    case _ =>
  }

  /** What it leaves are expressions that lowering can take. */
  lemma {:induction false} CheckedOk(s: Stmt, ret: Option<Ty>)
    requires CleanStmt(s) && Checked(s, ret).Some?
    ensures StmtOk(Checked(s, ret).value)
  {
    hide ExprOk, Clean, Converted, To;
    match s
    case Null =>
    case Break(_) =>
    case Continue(_) =>
    case ExprStmt(e) => CleanConverted(e);
    case Return(oe) => if oe.Some? { CleanConverted(oe.value); }
    case Seq(a, b) => CheckedOk(a, ret); CheckedOk(b, ret);
    case If(c, a) => CheckedOk(a, ret); CleanConverted(c);
    case IfElse(c, a, b) => CheckedOk(a, ret); CheckedOk(b, ret); CleanConverted(c);
    case While(c, a, _) => CheckedOk(a, ret); CleanConverted(c);
    case DoWhile(a, c, _) => CheckedOk(a, ret); CleanConverted(c);
    case For(i, c, e, a, _) =>
      CheckedOk(a, ret);
      CleanConvertedOpt(i);
      CleanConvertedOpt(c);
      CleanConvertedOpt(e);
    case Switch(c, a, _) => CheckedOk(a, ret); CleanConverted(c);
    case Case(_, a, _) => CheckedOk(a, ret);
  }

  lemma {:induction false} CheckedKeys(s: Stmt, ret: Option<Ty>)
    requires Checked(s, ret).Some?
    ensures Keys(Checked(s, ret).value) == Keys(s)
  {
    match s
    case Seq(a, b) => CheckedKeys(a, ret); CheckedKeys(b, ret);
    case If(_, a) => CheckedKeys(a, ret);
    case IfElse(_, a, b) => CheckedKeys(a, ret); CheckedKeys(b, ret);
    case While(_, a, _) => CheckedKeys(a, ret);
    case DoWhile(a, _, _) => CheckedKeys(a, ret);
    case For(_, _, _, a, _) => CheckedKeys(a, ret);
    case Case(_, a, _) => CheckedKeys(a, ret);
    case _ =>
  }

  /** Type checking after label resolution, which is the compiler's order, is the same as before it. */
  lemma {:induction false} CheckedResolve(s: Stmt, n: nat, env: Env, ret: Option<Ty>)
    requires Resolve(s, n, env).Some?
    ensures var x := Resolve(s, n, env).value;
            && (Checked(x.s, ret).Some? <==> Checked(s, ret).Some?)
            && (Checked(s, ret).Some? ==>
                  Resolve(Checked(s, ret).value, n, env) == Some(Resolved(Checked(x.s, ret).value, x.n)))
  {
    hide Converted, ConvertedOpt, To;
    match s
    case Seq(a, b) => CheckedResolve(a, n, env, ret); CheckedResolve(b, Resolve(a, n, env).value.n, env, ret);
    case If(_, a) => CheckedResolve(a, n, env, ret);
    case IfElse(_, a, b) => CheckedResolve(a, n, env, ret); CheckedResolve(b, Resolve(a, n, env).value.n, env, ret);
    case While(_, a, _) => CheckedResolve(a, n + 1, env.(loop := Some(n), inner := InLoop), ret);
    case DoWhile(a, _, _) => CheckedResolve(a, n + 1, env.(loop := Some(n), inner := InLoop), ret);
    case For(_, _, _, a, _) => CheckedResolve(a, n + 1, env.(loop := Some(n), inner := InLoop), ret);
    case Switch(_, a, _) =>
      var env' := env.(switch := Some(n), inner := InSwitch);
      CheckedResolve(a, n + 1, env', ret);
      if Checked(a, ret).Some? { CheckedKeys(Resolve(a, n + 1, env').value.s, ret); }
    case Case(_, a, _) => CheckedResolve(a, n, env, ret);
    case _ =>
  }

  // ----- The front end -----

  /** A body as the parser leaves it, through label resolution, type checking and lowering. */
  ghost predicate FrontEnd(body: Stmt, ret: Option<Ty>, n: nat, t: nat, l: nat, p: Tac.Code) {
    && Resolve(body, n, TOP).Some?
    && var s := Resolve(body, n, TOP).value.s;
    && Checked(s, ret).Some?
    && p == LowerFunction(Checked(s, ret).value, t, l)
  }

  /** The compiler takes a function if and only if every jump in it has a target in it and
      every return fits its type. */
  lemma FrontEndAccepts(body: Stmt, ret: Option<Ty>, n: nat, t: nat, l: nat)
    ensures (exists p :: FrontEnd(body, ret, n, t, l, p)) <==>
            LabelResolution.Placed(body, false, false, false) && Returning(body, ret.Some?)
  {
    hide Resolve, Checked, LowerFunction, LabelResolution.Placed, Returning;
    BodyAccepted(body, n);
    CheckedAccepts(body, ret);
    if Resolve(body, n, TOP).Some? {
      CheckedResolve(body, n, TOP, ret);
      var s := Resolve(body, n, TOP).value.s;
      if Checked(s, ret).Some? {
        assert FrontEnd(body, ret, n, t, l, LowerFunction(Checked(s, ret).value, t, l));
      }
    }
  }

  /** What comes out is the compiled form of the converted body, which the code follows. */
  lemma FrontEndCompiled(body: Stmt, ret: Option<Ty>, n: nat, t: nat, l: nat, p: Tac.Code)
    requires CleanStmt(body) && FrontEnd(body, ret, n, t, l, p)
    ensures Checked(body, ret).Some? && Compiled(Checked(body, ret).value, n, t, l, p)
  {
    hide Resolve, Checked, LowerFunction, CleanStmt;
    CheckedResolve(body, n, TOP, ret);
    CheckedOk(body, ret);
  }
}
