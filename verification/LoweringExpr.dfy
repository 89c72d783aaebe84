/** Correctness of expression lowering.

    From any machine state whose variables agree with the source store, the
    emitted code runs to its end, leaves the value of the expression in the
    result operand, makes exactly the assignments of the source, and otherwise
    changes only the temporaries it allocated itself.
  */
module LoweringExpr {
  import opened Words
  import opened CSource
  import opened Tac
  import opened Lowering

  // ----- Operators -----

  ghost predicate AluAgrees(op: BinOp, ty: Ty, a: int, b: int) {
    match Arith(op, ty, a, b)
    case None => Alu(AluFor(op, ty), ToWord(a), ToWord(b)).None?
    case Some(v) => Alu(AluFor(op, ty), ToWord(a), ToWord(b)) == Some(ToWord(v))
  }

  lemma RoundTrip(ty: Ty, v: int)
    requires InRange(ty, v)
    ensures Interpret(ty, ToWord(v)) == v
    ensures ToWord(v) == 0 <==> v == 0
    ensures ty == UInt || 0 <= v ==> ToWord(v) == v
    ensures v < 0 ==> ToWord(v) >= 0x8000_0000
  {
  }

  /** The ALU operation chosen for an operator computes the representation of the
      C result, and fails exactly when the C operation is undefined. */
  lemma AluCorrect(op: BinOp, ty: Ty, a: int, b: int)
    requires InRange(ty, a) && InRange(ty, b) && op != Comma
    ensures AluAgrees(op, ty, a, b)
  {
    match op {
      case Add => AddCorrect(op, ty, a, b);
      case Sub => AddCorrect(op, ty, a, b);
      case Mul => MulCorrect(ty, a, b);
      case Div => DivCorrect(ty, a, b);
      case Mod => ModCorrect(ty, a, b);
      case Shl => ShiftCorrect(op, ty, a, b);
      case Shr => ShiftCorrect(op, ty, a, b);
      case _ =>
    }
  }

  lemma AluWord(op: BinOp, ty: Ty, a: int, b: int)
    requires InRange(ty, a) && InRange(ty, b) && op != Comma && Arith(op, ty, a, b).Some?
    ensures Alu(AluFor(op, ty), ToWord(a), ToWord(b)) == Some(ToWord(Arith(op, ty, a, b).value))
  {
    AluCorrect(op, ty, a, b);
  }

  lemma AddCorrect(op: BinOp, ty: Ty, a: int, b: int)
    requires op == Add || op == Sub
    ensures AluAgrees(op, ty, a, b)
  {
    AddCong(a, b);
  }

  lemma MulCorrect(ty: Ty, a: int, b: int)
    requires InRange(ty, a) && InRange(ty, b)
    ensures AluAgrees(Mul, ty, a, b)
  {
    RoundTrip(ty, a);
    RoundTrip(ty, b);
    var m := a * b;
    assert Alu(AluFor(Mul, ty), ToWord(a), ToWord(b)) == Some(ToWord(m));
    assert Arith(Mul, ty, a, b) == Some(Wrap(ty, m));
  }

  lemma DivCorrect(ty: Ty, a: int, b: int)
    requires InRange(ty, a) && InRange(ty, b)
    ensures AluAgrees(Div, ty, a, b)
  {
    RoundTrip(ty, a);
    RoundTrip(ty, b);
    if b != 0 {
      var q := TruncDiv(a, b);
      assert Alu(AluFor(Div, ty), ToWord(a), ToWord(b)) == Some(ToWord(q));
      assert Arith(Div, ty, a, b) == Some(Wrap(ty, q));
      assert ToWord(Wrap(ty, q)) == ToWord(q);
    }
  }

  lemma ModCorrect(ty: Ty, a: int, b: int)
    requires InRange(ty, a) && InRange(ty, b)
    ensures AluAgrees(Mod, ty, a, b)
  {
    RoundTrip(ty, a);
    RoundTrip(ty, b);
    if b != 0 {
      var m := TruncMod(a, b);
      assert ty == UInt ==> m == a % b;
      assert Alu(AluFor(Mod, ty), ToWord(a), ToWord(b)) == Some(ToWord(m));
      assert Arith(Mod, ty, a, b) == Some(Wrap(ty, m));
    }
  }

  lemma ShiftCorrect(op: BinOp, ty: Ty, a: int, b: int)
    requires op == Shl || op == Shr
    requires InRange(ty, a) && InRange(ty, b)
    ensures AluAgrees(op, ty, a, b)
  {
    RoundTrip(ty, a);
    RoundTrip(ty, b);
    if 0 <= b < 32 {
      var k := Pow2(b);
      MulCong(a, k);
      var v := if op == Shl then a * k else a / k;
      assert Alu(AluFor(op, ty), ToWord(a), ToWord(b)) == Some(ToWord(v));
      assert Arith(op, ty, a, b) == Some(Wrap(ty, v));
    }
  }

  lemma CondCorrect(rel: RelOp, ty: Ty, a: int, b: int)
    requires InRange(ty, a) && InRange(ty, b)
    ensures CondTrue(CondFor(rel, ty), ToWord(a), ToWord(b)) <==> Holds(rel, a, b)
  {
    assert Interpret(ty, ToWord(a)) == a && Interpret(ty, ToWord(b)) == b;
  }

  lemma UnaryCorrect(op: CSource.UnOp, ty: Ty, a: int)
    ensures ApplyUnary(UnaryFor(op), ToWord(a)) == ToWord(UnaryValue(op, ty, a))
  {
    AddCong(0, a);
    AddCong(-1, a);
  }

  // ----- States -----

  /** The machine's variables are exactly the source store. */
  ghost predicate Agree(s: Store, st: Slots) {
    forall x :: (x in s <==> User(x) in st) && (x in s ==> st[User(x)] == s[x])
  }

  /** Temporaries numbered outside `lo..hi` are untouched. */
  ghost predicate TempsKept(st: Slots, st': Slots, lo: nat, hi: nat) {
    forall i: nat :: i < lo || hi <= i ==>
      (Temp(i) in st <==> Temp(i) in st') && (Temp(i) in st ==> st'[Temp(i)] == st[Temp(i)])
  }

  /** Running the code of `e` for `n` steps from `c` reaches its end with result `r`. */
  ghost predicate Computes(p: Code, c: Config, n: nat, e: Lowered, t: nat, r: Value) {
    var q := Steps(p, c, n);
    && q.Next?
    && q.c.pc == c.pc + |e.code|
    && Agree(r.st, q.c.st)
    && Read(e.val, q.c.st) == Some(ToWord(r.v))
    && TempsKept(c.st, q.c.st, t, e.t)
  }

  lemma {:induction false} ResultOperand(e: Expr, t: nat, l: nat)
    ensures var v := LowerExpr(e, t, l).val;
            v.Slot? && v.name.User? ==> ByName(e) == Some(v.name.x)
  {
    match e
    case Cast(_, e1) => ResultOperand(e1, t, l);
    case _ =>
  }

  /** An operand keeps its value while the code of a later operand runs. */
  lemma OperandKept(e: Expr, f: Expr, t: nat, l: nat, s: Store, s': Store, st: Slots, st': Slots, hi: nat)
    requires Undisturbed(e, f) && Extends(s, s', Writes(f))
    requires Agree(s, st) && Agree(s', st') && TempsKept(st, st', LowerExpr(e, t, l).t, hi)
    requires Read(LowerExpr(e, t, l).val, st).Some?
    ensures Read(LowerExpr(e, t, l).val, st') == Read(LowerExpr(e, t, l).val, st)
  {
    ResultOperand(e, t, l);
    var v := LowerExpr(e, t, l).val;
    if v.Slot? && v.name.User? {
      assert v.name.x in s;
    }
  }

  // ----- Straight-line and branching steps -----

  lemma NoSteps(p: Code, c: Config)
    ensures Steps(p, c, 0) == Next(c)
  {
  }

  lemma OneStep(p: Code, c: Config, n: nat)
    requires Steps(p, c, n).Next?
    ensures Steps(p, c, n + 1) == Step(p, Steps(p, c, n).c)
  {
    StepsCompose(p, c, n, 1);
    var d := Steps(p, c, n).c;
    assert Step(p, d).Next? ==> Steps(p, Step(p, d).c, 0) == Step(p, d);
  }

  lemma BinaryStep(p: Code, c: Config, n: nat, op: AluOp, dst: Name, a: Val, b: Val, x: Word, y: Word, w: Word)
    requires Steps(p, c, n).Next?
    requires CodeAt(p, Steps(p, c, n).c.pc, [Tac.Binary(op, dst, a, b)])
    requires Read(a, Steps(p, c, n).c.st) == Some(x) && Read(b, Steps(p, c, n).c.st) == Some(y)
    requires Alu(op, x, y) == Some(w)
    ensures var d := Steps(p, c, n).c;
            Steps(p, c, n + 1) == Next(d.(pc := d.pc + 1, st := d.st[dst := w]))
  {
    InstrAt(p, Steps(p, c, n).c.pc, [Tac.Binary(op, dst, a, b)], 0);
    OneStep(p, c, n);
  }

  lemma Branch(p: Code, c: Config, n: nat, a: Val, b: Val, cond: Condition, target: Label, dest: nat)
    requires DistinctLabels(p) && Steps(p, c, n).Next?
    requires var d := Steps(p, c, n).c;
             && CodeAt(p, d.pc, [Cmp(a, b), CondJump(cond, target)])
             && Read(a, d.st).Some? && Read(b, d.st).Some?
    requires dest < |p| && p[dest] == Mark(target)
    ensures var d := Steps(p, c, n).c;
            var x, y := Read(a, d.st).value, Read(b, d.st).value;
            Steps(p, c, n + 2) ==
              Next(Config(if CondTrue(cond, x, y) then dest else d.pc + 2, d.st, Some((x, y))))
  {
    var d := Steps(p, c, n).c;
    InstrAt(p, d.pc, [Cmp(a, b), CondJump(cond, target)], 0);
    InstrAt(p, d.pc, [Cmp(a, b), CondJump(cond, target)], 1);
    OneStep(p, c, n);
    OneStep(p, c, n + 1);
    LabelFound(p, dest);
  }

  lemma OperandPresent(e: Expr, t: nat, l: nat, s: Store, s': Store, st: Slots, st': Slots, hi: nat)
    requires s.Keys <= s'.Keys
    requires Agree(s, st) && Agree(s', st') && TempsKept(st, st', LowerExpr(e, t, l).t, hi)
    requires Read(LowerExpr(e, t, l).val, st).Some?
    ensures Read(LowerExpr(e, t, l).val, st').Some?
  {
    var v := LowerExpr(e, t, l).val;
    if v.Slot? && v.name.User? {
      assert v.name.x in s;
      assert v.name.x in s'.Keys;
    }
  }

  // ----- Ends of the emitted fragments, with their operands already computed -----

  lemma UnaryEnd(p: Code, c: Config, m: nat, a: Lowered, t: nat, l: nat, op: CSource.UnOp, ty: Ty, r: Value)
    requires t <= a.t && Computes(p, c, m, a, t, r)
    requires CodeAt(p, c.pc, a.code + [Tac.Unary(UnaryFor(op), Temp(a.t), a.val)])
    ensures Computes(p, c, m + 1,
                     Lowered(a.code + [Tac.Unary(UnaryFor(op), Temp(a.t), a.val)], Slot(Temp(a.t)), a.t + 1, l), t,
                     Value(UnaryValue(op, ty, r.v), r.st))
  {
    var last := [Tac.Unary(UnaryFor(op), Temp(a.t), a.val)];
    CodeSplit(p, c.pc, a.code, last);
    InstrAt(p, c.pc + |a.code|, last, 0);
    OneStep(p, c, m);
    UnaryCorrect(op, ty, r.v);
  }

  lemma AssignEnd(p: Code, c: Config, m: nat, a: Lowered, t: nat, x: string, ty: Ty, r: Value)
    requires t <= a.t && Computes(p, c, m, a, t, r)
    requires CodeAt(p, c.pc, a.code + [Copy(User(x), a.val)])
    ensures Computes(p, c, m + 1, Lowered(a.code + [Copy(User(x), a.val)], Slot(User(x)), a.t, a.l), t,
                     Value(Wrap(ty, r.v), r.st[x := ToWord(r.v)]))
  {
    var last := [Copy(User(x), a.val)];
    CodeSplit(p, c.pc, a.code, last);
    InstrAt(p, c.pc + |a.code|, last, 0);
    OneStep(p, c, m);
  }

  lemma CompoundEnd(p: Code, c: Config, m: nat, a: Lowered, t: nat, op: AluOp, x: string, r: Value, v: int, w: int)
    requires t <= a.t && Computes(p, c, m, a, t, r)
    requires CodeAt(p, c.pc, a.code + [Tac.Binary(op, User(x), Slot(User(x)), a.val)])
    requires x in r.st && Alu(op, r.st[x], ToWord(r.v)) == Some(ToWord(v)) && ToWord(w) == ToWord(v)
    ensures Computes(p, c, m + 1,
                     Lowered(a.code + [Tac.Binary(op, User(x), Slot(User(x)), a.val)], Slot(User(x)), a.t, a.l), t,
                     Value(w, r.st[x := ToWord(v)]))
  {
    var last := [Tac.Binary(op, User(x), Slot(User(x)), a.val)];
    CodeSplit(p, c.pc, a.code, last);
    BinaryStep(p, c, m, op, User(x), Slot(User(x)), a.val, r.st[x], ToWord(r.v), ToWord(v));
  }

  /** `code` has left the operands in `a` and `b`, using temporaries below `hi`. */
  lemma BinaryEnd(p: Code, c: Config, m: nat, code: Code, a: Val, b: Val, t: nat, hi: nat, l: nat,
                  op: AluOp, x: Word, r: Value, v: int)
    requires t <= hi && Computes(p, c, m, Lowered(code, b, hi, l), t, r)
    requires CodeAt(p, c.pc, code + [Tac.Binary(op, Temp(hi), a, b)])
    requires Read(a, Steps(p, c, m).c.st) == Some(x) && Alu(op, x, ToWord(r.v)) == Some(ToWord(v))
    ensures Computes(p, c, m + 1, Lowered(code + [Tac.Binary(op, Temp(hi), a, b)], Slot(Temp(hi)), hi + 1, l), t,
                     Value(v, r.st))
  {
    hide Steps, Step, Alu, CodeAt;
    var last := [Tac.Binary(op, Temp(hi), a, b)];
    CodeSplit(p, c.pc, code, last);
    BinaryStep(p, c, m, op, Temp(hi), a, b, x, ToWord(r.v), ToWord(v));
  }

  /** The leading copy of a test or short circuit, before its operands are computed. */
  lemma FirstCopy(p: Code, c: Config, dst: nat, w: Word, rest: Code, s: Store)
    requires CodeAt(p, c.pc, [Copy(Temp(dst), Const(w))] + rest) && Agree(s, c.st)
    ensures Steps(p, c, 1) == Next(c.(pc := c.pc + 1, st := c.st[Temp(dst) := w]))
    ensures Agree(s, c.st[Temp(dst) := w]) && CodeAt(p, c.pc + 1, rest)
  {
    CodeSplit(p, c.pc, [Copy(Temp(dst), Const(w))], rest);
    InstrAt(p, c.pc, [Copy(Temp(dst), Const(w))], 0);
    OneStep(p, c, 0);
  }

  lemma TestLayout(p: Code, pc: nat, dst: Name, code: Code, a: Val, b: Val, cond: Condition, end: Label)
    requires CodeAt(p, pc, SetUnless(dst, code, a, b, cond, end))
    ensures var q := pc + 1 + |code|;
            && |SetUnless(dst, code, a, b, cond, end)| == |code| + 5
            && CodeAt(p, pc, [Copy(dst, Const(1))] + code)
            && CodeAt(p, q, [Cmp(a, b), CondJump(cond, end)])
            && q + 3 < |p| && p[q + 2] == Copy(dst, Const(0)) && p[q + 3] == Mark(end)
  {
    var jump := [Cmp(a, b), CondJump(cond, end)];
    var fin := [Copy(dst, Const(0)), Mark(end)];
    assert SetUnless(dst, code, a, b, cond, end) == [Copy(dst, Const(1))] + code + (jump + fin);
    CodeSplit(p, pc, [Copy(dst, Const(1))] + code, jump + fin);
    var q := pc + 1 + |code|;
    CodeSplit(p, q, jump, fin);
    InstrAt(p, q + 2, fin, 0);
    InstrAt(p, q + 2, fin, 1);
  }

  /** From a state at `q + 2` or `q + 3`, just before `Copy dst, w; Label end`. */
  lemma LastCopy(p: Code, c: Config, m: nat, dst: Name, w: Word, q: nat, end: Label) returns (n: nat)
    requires Steps(p, c, m).Next? && q + 3 < |p|
    requires p[q + 2] == Copy(dst, Const(w)) && p[q + 3] == Mark(end)
    requires Steps(p, c, m).c.pc == q + 2 || Steps(p, c, m).c.pc == q + 3
    ensures var d := Steps(p, c, m).c;
            var r := Steps(p, c, n);
            && r.Next? && r.c.pc == q + 4
            && r.c.st == if d.pc == q + 2 then d.st[dst := w] else d.st
  {
    OneStep(p, c, m);
    if Steps(p, c, m).c.pc == q + 3 {
      n := m + 1;
    } else {
      OneStep(p, c, m + 1);
      n := m + 2;
    }
  }

  /** A test, with its operands computed by `m` steps after the leading copy. */
  lemma TestEnd(p: Code, c: Config, m: nat, code: Code, a: Val, b: Val, t: nat, hi: nat, l: nat,
                cond: Condition, end: Label, x: Word, r: Value, holds: bool)
    returns (n: nat)
    requires DistinctLabels(p) && CodeAt(p, c.pc, SetUnless(Temp(hi), code, a, b, cond, end)) && t <= hi
    requires Steps(p, c, 1) == Next(c.(pc := c.pc + 1, st := c.st[Temp(hi) := 1]))
    requires Computes(p, Steps(p, c, 1).c, m, Lowered(code, b, hi, l), t, r)
    requires Read(a, Steps(p, Steps(p, c, 1).c, m).c.st) == Some(x)
    requires CondTrue(cond, x, ToWord(r.v)) <==> holds
    ensures Computes(p, c, n, Lowered(SetUnless(Temp(hi), code, a, b, cond, end), Slot(Temp(hi)), hi + 1, l + 1), t,
                     Value(BoolValue(holds), r.st))
  {
    hide Steps, Alu, CodeAt;
    TestLayout(p, c.pc, Temp(hi), code, a, b, cond, end);
    StepsCompose(p, c, 1, m);
    var q := c.pc + 1 + |code|;
    Branch(p, c, 1 + m, a, b, cond, end, q + 3);
    n := LastCopy(p, c, m + 3, Temp(hi), 0, q, end);
  }

  lemma ShortLayout(p: Code, pc: nat, dst: Name, isAnd: bool, a: Code, av: Val, b: Code, bv: Val, end: Label)
    requires CodeAt(p, pc, ShortCircuit(dst, isAnd, a, av, b, bv, end))
    ensures var cond := if isAnd then CondE else CondNE;
            var first := if isAnd then 0 else 1;
            var last := pc + 3 + |a| + |b|;
            && |ShortCircuit(dst, isAnd, a, av, b, bv, end)| == |a| + |b| + 7
            && CodeAt(p, pc, [Copy(dst, Const(first))] + a)
            && CodeAt(p, pc + 1 + |a|, [Cmp(av, Const(0)), CondJump(cond, end)])
            && CodeAt(p, pc + 3 + |a|, b)
            && CodeAt(p, last, [Cmp(bv, Const(0)), CondJump(cond, end)])
            && last + 3 < |p| && p[last + 2] == Copy(dst, Const(1 - first)) && p[last + 3] == Mark(end)
  {
    hide CodeAt;
    var cond := if isAnd then CondE else CondNE;
    var first := if isAnd then 0 else 1;
    var head := [Copy(dst, Const(first))] + a;
    var j1 := [Cmp(av, Const(0)), CondJump(cond, end)];
    var j2 := [Cmp(bv, Const(0)), CondJump(cond, end)];
    var fin := [Copy(dst, Const(1 - first)), Mark(end)];
    assert ShortCircuit(dst, isAnd, a, av, b, bv, end) == head + j1 + b + (j2 + fin);
    CodeSplit(p, pc, head + j1 + b, j2 + fin);
    CodeSplit(p, pc, head + j1, b);
    CodeSplit(p, pc, head, j1);
    var last := pc + |head + j1 + b|;
    CodeSplit(p, last, j2, fin);
    InstrAt(p, last + 2, fin, 0);
    InstrAt(p, last + 2, fin, 1);
  }

  /** The code of a short circuit and the copy it begins with. */
  ghost predicate ShortAt(p: Code, c: Config, isAnd: bool, a: Lowered, b: Lowered, end: Label) {
    && DistinctLabels(p)
    && CodeAt(p, c.pc, ShortCircuit(Temp(b.t), isAnd, a.code, a.val, b.code, b.val, end))
    && Steps(p, c, 1) == Next(c.(pc := c.pc + 1, st := c.st[Temp(b.t) := if isAnd then 0 else 1]))
  }

  /** After the left operand: done if it decides, else at the right operand. */
  lemma ShortTest(p: Code, c: Config, m: nat, isAnd: bool, a: Lowered, b: Lowered, t: nat, end: Label, ty: Ty, r: Value)
    requires ShortAt(p, c, isAnd, a, b, end) && t <= a.t <= b.t && InRange(ty, r.v)
    requires Computes(p, Steps(p, c, 1).c, m, a, t, r)
    ensures var whole := ShortCircuit(Temp(b.t), isAnd, a.code, a.val, b.code, b.val, end);
            if (r.v == 0) == isAnd then
              Computes(p, c, m + 4, Lowered(whole, Slot(Temp(b.t)), b.t + 1, b.l + 1), t,
                       Value(if isAnd then 0 else 1, r.st))
            else
              var q := Steps(p, c, m + 3);
              && q.Next? && q.c.pc == c.pc + 3 + |a.code| && CodeAt(p, q.c.pc, b.code)
              && q.c.st == Steps(p, Steps(p, c, 1).c, m).c.st
  {
    hide Steps, Alu, CodeAt, ShortCircuit;
    ShortLayout(p, c.pc, Temp(b.t), isAnd, a.code, a.val, b.code, b.val, end);
    StepsCompose(p, c, 1, m);
    RoundTrip(ty, r.v);
    var last := c.pc + 3 + |a.code| + |b.code|;
    Branch(p, c, 1 + m, a.val, Const(0), if isAnd then CondE else CondNE, end, last + 3);
    OneStep(p, c, m + 3);
  }

  /** After the right operand, which ran for `k` steps. */
  lemma ShortEnd(p: Code, c: Config, m: nat, k: nat, isAnd: bool, a: Lowered, b: Lowered, t: nat, end: Label,
                 ty: Ty, s: Store, r: Value)
    returns (n: nat)
    requires ShortAt(p, c, isAnd, a, b, end) && t <= a.t <= b.t && InRange(ty, r.v)
    requires Steps(p, c, m).Next? && Steps(p, c, m).c.pc == c.pc + 3 + |a.code|
    requires TempsKept(Steps(p, c, 1).c.st, Steps(p, c, m).c.st, t, a.t)
    requires Computes(p, Steps(p, c, m).c, k, b, a.t, r)
    ensures Computes(p, c, n,
                     Lowered(ShortCircuit(Temp(b.t), isAnd, a.code, a.val, b.code, b.val, end),
                             Slot(Temp(b.t)), b.t + 1, b.l + 1), t,
                     Value(BoolValue(r.v != 0), r.st))
  {
    hide Steps;
    ShortLayout(p, c.pc, Temp(b.t), isAnd, a.code, a.val, b.code, b.val, end);
    StepsCompose(p, c, m, k);
    RoundTrip(ty, r.v);
    var last := c.pc + 3 + |a.code| + |b.code|;
    Branch(p, c, m + k, b.val, Const(0), if isAnd then CondE else CondNE, end, last + 3);
    n := LastCopy(p, c, m + k + 2, Temp(b.t), if isAnd then 1 else 0, last, end);
  }

  lemma ChooseLayout(p: Code, pc: nat, dst: Name, g: Code, gv: Val, a: Code, av: Val, b: Code, bv: Val,
                     els: Label, end: Label)
    requires CodeAt(p, pc, Choose(dst, g, gv, a, av, b, bv, els, end))
    ensures var pa := pc + |g| + 2;
            var pm := pa + |a|;
            var pe := pm + 3 + |b|;
            && |Choose(dst, g, gv, a, av, b, bv, els, end)| == |g| + |a| + |b| + 7
            && CodeAt(p, pc, g)
            && CodeAt(p, pc + |g|, [Cmp(gv, Const(0)), CondJump(CondE, els)])
            && CodeAt(p, pa, a)
            && CodeAt(p, pm + 3, b)
            && pe + 1 < |p|
            && p[pm] == Copy(dst, av) && p[pm + 1] == Jump(end) && p[pm + 2] == Mark(els)
            && p[pe] == Copy(dst, bv) && p[pe + 1] == Mark(end)
  {
    hide CodeAt;
    var jump := [Cmp(gv, Const(0)), CondJump(CondE, els)];
    var mid := [Copy(dst, av), Jump(end), Mark(els)];
    var fin := [Copy(dst, bv), Mark(end)];
    CodeSplit(p, pc, g + jump + a + mid + b, fin);
    CodeSplit(p, pc, g + jump + a + mid, b);
    CodeSplit(p, pc, g + jump + a, mid);
    CodeSplit(p, pc, g + jump, a);
    CodeSplit(p, pc, g, jump);
    var pm := pc + |g| + 2 + |a|;
    var pe := pm + 3 + |b|;
    InstrAt(p, pm, mid, 0);
    InstrAt(p, pm, mid, 1);
    InstrAt(p, pm, mid, 2);
    InstrAt(p, pe, fin, 0);
    InstrAt(p, pe, fin, 1);
  }

  ghost predicate ChooseAt(p: Code, c: Config, g: Lowered, a: Lowered, b: Lowered, els: Label, end: Label) {
    && DistinctLabels(p)
    && CodeAt(p, c.pc, Choose(Temp(b.t), g.code, g.val, a.code, a.val, b.code, b.val, els, end))
  }

  /** After the condition, the machine is at the arm that it selects. */
  lemma ChooseTest(p: Code, c: Config, m: nat, g: Lowered, a: Lowered, b: Lowered, t: nat, els: Label, end: Label,
                   ty: Ty, r: Value)
    returns (n: nat)
    requires ChooseAt(p, c, g, a, b, els, end) && InRange(ty, r.v) && Computes(p, c, m, g, t, r)
    ensures var q := Steps(p, c, n);
            && q.Next? && q.c.st == Steps(p, c, m).c.st
            && q.c.pc == c.pc + |g.code| + (if r.v != 0 then 2 else 5 + |a.code|)
            && CodeAt(p, q.c.pc, if r.v != 0 then a.code else b.code)
  {
    hide Steps, Alu, CodeAt, Choose;
    ChooseLayout(p, c.pc, Temp(b.t), g.code, g.val, a.code, a.val, b.code, b.val, els, end);
    RoundTrip(ty, r.v);
    var pm := c.pc + |g.code| + 2 + |a.code|;
    Branch(p, c, m, g.val, Const(0), CondE, els, pm + 2);
    if r.v != 0 {
      n := m + 2;
    } else {
      OneStep(p, c, m + 2);
      n := m + 3;
    }
  }

  /** After the selected arm, which ran for `k` steps. */
  lemma ChooseEnd(p: Code, c: Config, m: nat, k: nat, g: Lowered, a: Lowered, b: Lowered, t: nat,
                  els: Label, end: Label, first: bool, r: Value)
    returns (n: nat)
    requires ChooseAt(p, c, g, a, b, els, end) && t <= g.t <= a.t <= b.t
    requires Steps(p, c, m).Next? && TempsKept(c.st, Steps(p, c, m).c.st, t, g.t)
    requires Steps(p, c, m).c.pc == c.pc + |g.code| + (if first then 2 else 5 + |a.code|)
    requires Computes(p, Steps(p, c, m).c, k, if first then a else b, if first then g.t else a.t, r)
    ensures Computes(p, c, n,
                     Lowered(Choose(Temp(b.t), g.code, g.val, a.code, a.val, b.code, b.val, els, end),
                             Slot(Temp(b.t)), b.t + 1, b.l + 2), t, r)
  {
    hide Steps, Alu, Choose, CodeAt;
    ChooseLayout(p, c.pc, Temp(b.t), g.code, g.val, a.code, a.val, b.code, b.val, els, end);
    StepsCompose(p, c, m, k);
    var pe := c.pc + |g.code| + 5 + |a.code| + |b.code|;
    OneStep(p, c, m + k);
    OneStep(p, c, m + k + 1);
    if first {
      LabelFound(p, pe + 1);
      OneStep(p, c, m + k + 2);
      n := m + k + 3;
    } else {
      n := m + k + 2;
    }
  }

  // ----- The simulation -----

  ghost predicate Ready(p: Code, c: Config, code: Code, e: Expr, s: Store) {
    DistinctLabels(p) && CodeAt(p, c.pc, code) && WellTyped(e) && Stable(e) && Agree(s, c.st)
  }

  /** Expression lowering is correct: if the source evaluation is defined, the code runs
      from its first to past its last instruction and `Computes` its value and store. */
  lemma {:induction false} ExprSim(p: Code, c: Config, e: Expr, t: nat, l: nat, s: Store) returns (n: nat)
    requires Ready(p, c, LowerExpr(e, t, l).code, e, s)
    ensures Eval(e, s).Some? ==> Computes(p, c, n, LowerExpr(e, t, l), t, Eval(e, s).value)
    decreases e, 1
  {
    hide Steps, Step;
    n := 0;
    NoSteps(p, c);
    if Eval(e, s).Some? {
      match e
      case Lit(_, _) =>
      case Var(_, _) =>
      case Cast(_, e1) => n := ExprSim(p, c, e1, t, l, s);
      case Unary(op, e1) =>
        CodeSplit(p, c.pc, LowerExpr(e1, t, l).code, LowerExpr(e, t, l).code[|LowerExpr(e1, t, l).code|..]);
        n := ExprSim(p, c, e1, t, l, s);
        UnaryEnd(p, c, n, LowerExpr(e1, t, l), t, LowerExpr(e1, t, l).l, op, TypeOf(e1), Eval(e1, s).value);
        n := n + 1;
      case Assign(x, ty, e1) =>
        CodeSplit(p, c.pc, LowerExpr(e1, t, l).code, LowerExpr(e, t, l).code[|LowerExpr(e1, t, l).code|..]);
        n := ExprSim(p, c, e1, t, l, s);
        AssignEnd(p, c, n, LowerExpr(e1, t, l), t, x, ty, Eval(e1, s).value);
        n := n + 1;
      case PostStep(_, _, _) => n := PostSim(p, c, e, t, l, s);
      case Compound(_, _, _, _) => n := CompoundSim(p, c, e, t, l, s);
      case Not(_) => n := NotSim(p, c, e, t, l, s);
      case Binary(_, _, _) => n := BinarySim(p, c, e, t, l, s);
      case Rel(_, _, _) => n := RelSim(p, c, e, t, l, s);
      case AndAlso(e1, e2) => n := ShortSim(p, c, e, true, e1, e2, t, l, s);
      case OrElse(e1, e2) => n := ShortSim(p, c, e, false, e1, e2, t, l, s);
      case Cond(_, _, _) => n := CondSim(p, c, e, t, l, s);
    }
  }

  lemma {:induction false} CompoundSim(p: Code, c: Config, e: Expr, t: nat, l: nat, s: Store) returns (n: nat)
    requires e.Compound? && Eval(e, s).Some? && Ready(p, c, LowerExpr(e, t, l).code, e, s)
    ensures Computes(p, c, n, LowerExpr(e, t, l), t, Eval(e, s).value)
    decreases e, 0
  {
    hide Steps, Step, Alu, Arith;
    var a := LowerExpr(e.e, t, l);
    var opTy := CompoundType(e.op, e.aty, TypeOf(e.e));
    CodeSplit(p, c.pc, a.code, [Tac.Binary(AluFor(e.op, opTy), User(e.x), Slot(User(e.x)), a.val)]);
    n := ExprSim(p, c, e.e, t, l, s);
    var r := Eval(e.e, s).value;
    EvalFrame(e.e, s);
    EvalInRange(e.e, s);
    var x := Wrap(opTy, Interpret(e.aty, s[e.x]));
    AluWord(e.op, opTy, x, r.v);
    CompoundEnd(p, c, n, a, t, AluFor(e.op, opTy), e.x, r, Arith(e.op, opTy, x, r.v).value, Eval(e, s).value.v);
    n := n + 1;
  }

  lemma PostSim(p: Code, c: Config, e: Expr, t: nat, l: nat, s: Store) returns (n: nat)
    requires e.PostStep? && Eval(e, s).Some? && Ready(p, c, LowerExpr(e, t, l).code, e, s)
    ensures Computes(p, c, n, LowerExpr(e, t, l), t, Eval(e, s).value)
  {
    var code := LowerExpr(e, t, l).code;
    InstrAt(p, c.pc, code, 0);
    InstrAt(p, c.pc, code, 1);
    OneStep(p, c, 0);
    OneStep(p, c, 1);
    AddCong(Interpret(e.aty, s[e.x]), 1);
    n := 2;
  }

  /** Both operands in turn: the second is in place, and so is the first unless the
      second disturbed it. */
  lemma {:induction false} BothSim(p: Code, c: Config, e: Expr, e1: Expr, e2: Expr, t: nat, l: nat, s: Store)
    returns (n: nat)
    requires e1 < e && e2 < e && DistinctLabels(p) && Agree(s, c.st)
    requires WellTyped(e1) && WellTyped(e2) && Stable(e1) && Stable(e2)
    requires Eval(e1, s).Some? && Eval(e2, Eval(e1, s).value.st).Some?
    requires var a := LowerExpr(e1, t, l);
             CodeAt(p, c.pc, a.code + LowerExpr(e2, a.t, a.l).code)
    ensures var a := LowerExpr(e1, t, l);
            var b := LowerExpr(e2, a.t, a.l);
            var r1 := Eval(e1, s).value;
            && Computes(p, c, n, Lowered(a.code + b.code, b.val, b.t, b.l), t, Eval(e2, r1.st).value)
            && Read(a.val, Steps(p, c, n).c.st).Some?
            && (Undisturbed(e1, e2) ==> Read(a.val, Steps(p, c, n).c.st) == Some(ToWord(r1.v)))
    decreases e, 0, 0
  {
    hide Steps, Eval, LowerExpr;
    var a := LowerExpr(e1, t, l);
    var b := LowerExpr(e2, a.t, a.l);
    CodeSplit(p, c.pc, a.code, b.code);
    var m := ExprSim(p, c, e1, t, l, s);
    var c1 := Steps(p, c, m).c;
    var r1 := Eval(e1, s).value;
    var k := ExprSim(p, c1, e2, a.t, a.l, r1.st);
    StepsCompose(p, c, m, k);
    var c2 := Steps(p, c1, k).c;
    var r2 := Eval(e2, r1.st).value;
    EvalFrame(e2, r1.st);
    OperandPresent(e1, t, l, r1.st, r2.st, c1.st, c2.st, b.t);
    if Undisturbed(e1, e2) {
      OperandKept(e1, e2, t, l, r1.st, r2.st, c1.st, c2.st, b.t);
    }
    n := m + k;
  }

  lemma {:induction false} BinarySim(p: Code, c: Config, e: Expr, t: nat, l: nat, s: Store) returns (n: nat)
    requires e.Binary? && Eval(e, s).Some? && Ready(p, c, LowerExpr(e, t, l).code, e, s)
    ensures Computes(p, c, n, LowerExpr(e, t, l), t, Eval(e, s).value)
    decreases e, 0
  {
    hide Steps, Step, CodeAt;
    var a := LowerExpr(e.left, t, l);
    var b := LowerExpr(e.right, a.t, a.l);
    var ty := if e.op == Comma then TypeOf(e.right) else TypeOf(e.left);
    CodeSplit(p, c.pc, a.code + b.code, [Tac.Binary(AluFor(e.op, ty), Temp(b.t), a.val, b.val)]);
    n := BothSim(p, c, e, e.left, e.right, t, l, s);
    var r1 := Eval(e.left, s).value;
    var r2 := Eval(e.right, r1.st).value;
    var x := Read(a.val, Steps(p, c, n).c.st).value;
    if e.op != Comma {
      EvalInRange(e.left, s);
      EvalInRange(e.right, r1.st);
      AluWord(e.op, ty, r1.v, r2.v);
    }
    BinaryEnd(p, c, n, a.code + b.code, a.val, b.val, t, b.t, b.l, AluFor(e.op, ty), x, r2, Eval(e, s).value.v);
    n := n + 1;
  }

  lemma {:induction false} NotSim(p: Code, c: Config, e: Expr, t: nat, l: nat, s: Store) returns (n: nat)
    requires e.Not? && Eval(e, s).Some? && Ready(p, c, LowerExpr(e, t, l).code, e, s)
    ensures Computes(p, c, n, LowerExpr(e, t, l), t, Eval(e, s).value)
    decreases e, 0
  {
    var a := LowerExpr(e.e, t, l);
    var end := Gen(EndLabel, a.l);
    TestLayout(p, c.pc, Temp(a.t), a.code, a.val, Const(0), CondE, end);
    FirstCopy(p, c, a.t, 1, a.code, s);
    var m := ExprSim(p, Steps(p, c, 1).c, e.e, t, l, s);
    var r := Eval(e.e, s).value;
    EvalInRange(e.e, s);
    RoundTrip(TypeOf(e.e), r.v);
    NotEnd(p, c, m, a, t, end, r);
    n := TestEnd(p, c, m, a.code, a.val, Const(0), t, a.t, a.l, CondE, end, ToWord(r.v), Value(0, r.st), r.v == 0);
  }

  /** A test against zero is a test whose second operand is the constant. */
  lemma NotEnd(p: Code, c: Config, m: nat, a: Lowered, t: nat, end: Label, r: Value)
    requires Steps(p, c, 1).Next? && Computes(p, Steps(p, c, 1).c, m, a, t, r)
    ensures Computes(p, Steps(p, c, 1).c, m, Lowered(a.code, Const(0), a.t, a.l), t, Value(0, r.st))
  {
  }

  lemma {:induction false} RelSim(p: Code, c: Config, e: Expr, t: nat, l: nat, s: Store) returns (n: nat)
    requires e.Rel? && Eval(e, s).Some? && Ready(p, c, LowerExpr(e, t, l).code, e, s)
    ensures Computes(p, c, n, LowerExpr(e, t, l), t, Eval(e, s).value)
    decreases e, 0
  {
    var a := LowerExpr(e.left, t, l);
    var b := LowerExpr(e.right, a.t, a.l);
    var end := Gen(EndLabel, b.l);
    var cond := CondFor(e.rel, TypeOf(e.left));
    TestLayout(p, c.pc, Temp(b.t), a.code + b.code, a.val, b.val, cond, end);
    FirstCopy(p, c, b.t, 1, a.code + b.code, s);
    var m := BothSim(p, Steps(p, c, 1).c, e, e.left, e.right, t, l, s);
    var r1 := Eval(e.left, s).value;
    var r2 := Eval(e.right, r1.st).value;
    EvalInRange(e.left, s);
    EvalInRange(e.right, r1.st);
    CondCorrect(e.rel, TypeOf(e.left), r1.v, r2.v);
    n := TestEnd(p, c, m, a.code + b.code, a.val, b.val, t, b.t, b.l, cond, end, ToWord(r1.v), r2,
                 Holds(e.rel, r1.v, r2.v));
  }

  function ShortExpr(isAnd: bool, e1: Expr, e2: Expr): Expr {
    if isAnd then AndAlso(e1, e2) else OrElse(e1, e2)
  }

  lemma ShortUnfolds(isAnd: bool, e1: Expr, e2: Expr, t: nat, l: nat, s: Store)
    requires Eval(ShortExpr(isAnd, e1, e2), s).Some?
    ensures Eval(e1, s).Some?
    ensures var r1 := Eval(e1, s).value;
            if (r1.v == 0) == isAnd then
              Eval(ShortExpr(isAnd, e1, e2), s).value == Value(if isAnd then 0 else 1, r1.st)
            else
              && Eval(e2, r1.st).Some?
              && Eval(ShortExpr(isAnd, e1, e2), s).value
                 == Value(BoolValue(Eval(e2, r1.st).value.v != 0), Eval(e2, r1.st).value.st)
    ensures var a := LowerExpr(e1, t, l);
            var b := LowerExpr(e2, a.t, a.l);
            LowerExpr(ShortExpr(isAnd, e1, e2), t, l) ==
              Lowered(ShortCircuit(Temp(b.t), isAnd, a.code, a.val, b.code, b.val, Gen(EndLabel, b.l)),
                      Slot(Temp(b.t)), b.t + 1, b.l + 1)
  {
  }

  /** `&&` and `||`: the right operand runs only if the left one does not decide. */
  lemma {:induction false} ShortSim(p: Code, c: Config, e: Expr, isAnd: bool, e1: Expr, e2: Expr,
                                    t: nat, l: nat, s: Store) returns (n: nat)
    requires e == ShortExpr(isAnd, e1, e2)
    requires Eval(e, s).Some? && Ready(p, c, LowerExpr(e, t, l).code, e, s)
    ensures Computes(p, c, n, LowerExpr(e, t, l), t, Eval(e, s).value)
    decreases e, 0
  {
    hide Steps, Step, Eval, LowerExpr;
    ShortUnfolds(isAnd, e1, e2, t, l, s);
    var a := LowerExpr(e1, t, l);
    var b := LowerExpr(e2, a.t, a.l);
    var end := Gen(EndLabel, b.l);
    ShortLayout(p, c.pc, Temp(b.t), isAnd, a.code, a.val, b.code, b.val, end);
    FirstCopy(p, c, b.t, if isAnd then 0 else 1, a.code, s);
    var m := ExprSim(p, Steps(p, c, 1).c, e1, t, l, s);
    var r1 := Eval(e1, s).value;
    EvalInRange(e1, s);
    ShortTest(p, c, m, isAnd, a, b, t, end, TypeOf(e1), r1);
    if (r1.v == 0) == isAnd {
      n := m + 4;
    } else {
      var k := ExprSim(p, Steps(p, c, m + 3).c, e2, a.t, a.l, r1.st);
      EvalInRange(e2, r1.st);
      n := ShortEnd(p, c, m + 3, k, isAnd, a, b, t, end, TypeOf(e2), r1.st, Eval(e2, r1.st).value);
    }
  }

  /** `?:`: exactly one of the two arms runs. */
  lemma {:induction false} CondSim(p: Code, c: Config, e: Expr, t: nat, l: nat, s: Store) returns (n: nat)
    requires e.Cond? && Eval(e, s).Some? && Ready(p, c, LowerExpr(e, t, l).code, e, s)
    ensures Computes(p, c, n, LowerExpr(e, t, l), t, Eval(e, s).value)
    decreases e, 0
  {
    var g := LowerExpr(e.cond, t, l);
    var a := LowerExpr(e.left, g.t, g.l);
    var b := LowerExpr(e.right, a.t, a.l);
    var els, end := Gen(ElseLabel, b.l), Gen(EndLabel, b.l + 1);
    ChooseLayout(p, c.pc, Temp(b.t), g.code, g.val, a.code, a.val, b.code, b.val, els, end);
    var m := ExprSim(p, c, e.cond, t, l, s);
    var r0 := Eval(e.cond, s).value;
    EvalInRange(e.cond, s);
    m := ChooseTest(p, c, m, g, a, b, t, els, end, TypeOf(e.cond), r0);
    var k: nat;
    if r0.v != 0 {
      k := ExprSim(p, Steps(p, c, m).c, e.left, g.t, g.l, r0.st);
    } else {
      k := ExprSim(p, Steps(p, c, m).c, e.right, a.t, a.l, r0.st);
    }
    n := ChooseEnd(p, c, m, k, g, a, b, t, els, end, r0.v != 0, Eval(e, s).value);
  }

  const SELF_SUM := Expr.Binary(Add, Expr.Var("x", Int), Expr.Assign("x", Int, Lit(5, Int)))

  lemma AssignCode(x: string, w: Word, t: nat, l: nat)
    ensures LowerExpr(Expr.Assign(x, Int, Lit(w, Int)), t, l) == Lowered([Copy(User(x), Const(w))], Slot(User(x)), t, l)
  {
    assert LowerExpr(Lit(w, Int), t, l) == Lowered([], Const(w), t, l);
    assert [] + [Copy(User(x), Const(w))] == [Copy(User(x), Const(w))];
  }

  lemma SumCode(x: string, e: Expr, a: Lowered)
    requires a == LowerExpr(e, 0, 0)
    ensures LowerExpr(Expr.Binary(Add, Expr.Var(x, Int), e), 0, 0) ==
            Lowered(a.code + [Tac.Binary(AluAdd, Temp(a.t), Slot(User(x)), a.val)], Slot(Temp(a.t)), a.t + 1, a.l)
  {
    assert LowerExpr(Expr.Var(x, Int), 0, 0) == Lowered([], Slot(User(x)), 0, 0);
    assert [] + a.code == a.code;
  }

  lemma SelfSumCode()
    ensures LowerExpr(SELF_SUM, 0, 0).val == Slot(Temp(0))
    ensures LowerExpr(SELF_SUM, 0, 0).code ==
              [Copy(User("x"), Const(5)), Tac.Binary(AluAdd, Temp(0), Slot(User("x")), Slot(User("x")))]
  {
    hide LowerExpr;
    var a := Expr.Assign("x", Int, Lit(5, Int));
    AssignCode("x", 5, 0, 0);
    SumCode("x", a, LowerExpr(a, 0, 0));
  }

  lemma SelfSumValue()
    ensures Eval(SELF_SUM, map["x" := 1]) == Some(Value(6, map["x" := 5])) && !Stable(SELF_SUM)
  {
    var a := Expr.Assign("x", Int, Lit(5, Int));
    var s: Store := map["x" := 1];
    assert Eval(Lit(5, Int), s) == Some(Value(5, s));
    assert s["x" := 5] == map["x" := 5];
    assert Eval(a, s) == Some(Value(5, s["x" := 5]));
    assert Eval(Expr.Var("x", Int), s) == Some(Value(1, s));
    assert "x" in Writes(a);
  }

  /** Without `Stable` the law fails: in `x + (x = 5)` from x = 1 the code reads x after the
      assignment and yields 10, where left-to-right evaluation yields 6. */
  lemma UnsequencedOperand()
    ensures Eval(SELF_SUM, map["x" := 1]) == Some(Value(6, map["x" := 5])) && !Stable(SELF_SUM)
    ensures var p := LowerExpr(SELF_SUM, 0, 0).code;
            var q := Steps(p, Config(0, map[User("x") := 1], None), 2);
            q.Next? && q.c.pc == |p| && Read(LowerExpr(SELF_SUM, 0, 0).val, q.c.st) == Some(10)
  {
    hide Steps, LowerExpr, Eval, Stable;
    SelfSumCode();
    SelfSumValue();
    var p := LowerExpr(SELF_SUM, 0, 0).code;
    var c := Config(0, map[User("x") := 1], None);
    NoSteps(p, c);
    OneStep(p, c, 0);
    OneStep(p, c, 1);
  }
}
