/** Three-address code and the machine that runs it.

    The machine has the structure of the repository's TAC interpreter, but works on the 32-bit
    words of the target, where that interpreter keeps 64 bits: a program counter, a store of
    named slots and the operands of the last comparison.  A jump goes to the label instruction
    of that name.
  */
module Tac {
  import opened Words

  /** A variable of the source function, or a compiler temporary. */
  datatype Name = User(x: string) | Temp(n: nat)

  datatype GenKind = EndLabel | ElseLabel

  /** Labels made by the lowering pass itself, and those derived from the label that
      label resolution gave to a loop or switch. */
  datatype Label =
    | Gen(kind: GenKind, n: nat)
    | StartOf(id: nat)
    | ContinueOf(id: nat)
    | BreakOf(id: nat)
    | CaseLabel(id: nat, w: Word)
    | DefaultLabel(id: nat)

  datatype Val = Const(w: Word) | Slot(name: Name)

  datatype AluOp =
    | AluAdd | AluSub | AluSMul | AluSDiv | AluSMod | AluUMul | AluUDiv | AluUMod
    | AluAnd | AluOr | AluXor | AluLsl | AluLsr | AluAsl | AluAsr | AluMov

  datatype UnaryOp = Complement | Negate | Plus

  datatype Condition = CondE | CondNE | CondG | CondGE | CondL | CondLE | CondA | CondAE | CondB | CondBE

  datatype Instr =
    | Return(v: Option<Val>)
    | Unary(uop: UnaryOp, dst: Name, src: Val)
    | Binary(op: AluOp, dst: Name, src1: Val, src2: Val)
    | CondJump(cond: Condition, target: Label)
    | Cmp(src1: Val, src2: Val)
    | Jump(target: Label)
    | Mark(name: Label)
    | Copy(dst: Name, src: Val)

  type Code = seq<Instr>

  type Slots = map<Name, Word>

  function Read(v: Val, st: Slots): Option<Word> {
    match v
    case Const(w) => Some(w)
    case Slot(n) => if n in st then Some(st[n]) else None
  }

  /** None when the operation is an error: division by zero or an oversized shift. */
  function Alu(op: AluOp, a: Word, b: Word): Option<Word> {
    match op
    case AluAdd => Some(ToWord(a + b))
    case AluSub => Some(ToWord(a - b))
    case AluSMul => Some(ToWord(Interpret(Int, a) * Interpret(Int, b)))
    case AluUMul => Some(ToWord(a * b))
    case AluSDiv => if b == 0 then None else Some(ToWord(TruncDiv(Interpret(Int, a), Interpret(Int, b))))
    case AluUDiv => if b == 0 then None else Some(ToWord(a / b))
    case AluSMod => if b == 0 then None else Some(ToWord(TruncMod(Interpret(Int, a), Interpret(Int, b))))
    case AluUMod => if b == 0 then None else Some(ToWord(a % b))
    case AluAnd => Some(BitsWord(BAnd, a, b))
    case AluOr => Some(BitsWord(BOr, a, b))
    case AluXor => Some(BitsWord(BXor, a, b))
    case AluLsr => if b < 32 then Some(ToWord(a / Pow2(b))) else None
    case AluLsl => if b < 32 then Some(ToWord(a * Pow2(b))) else None
    case AluAsl => if b < 32 then Some(ToWord(a * Pow2(b))) else None
    case AluAsr => if b < 32 then Some(ToWord(Interpret(Int, a) / Pow2(b))) else None
    case AluMov => Some(b)
  }

  function ApplyUnary(op: UnaryOp, a: Word): Word {
    match op
    case Complement => MODULUS - 1 - a
    case Negate => ToWord(0 - a)
    case Plus => a
  }

  predicate CondTrue(c: Condition, a: Word, b: Word) {
    match c
    case CondE => a == b
    case CondNE => a != b
    case CondG => Interpret(Int, a) > Interpret(Int, b)
    case CondGE => Interpret(Int, a) >= Interpret(Int, b)
    case CondL => Interpret(Int, a) < Interpret(Int, b)
    case CondLE => Interpret(Int, a) <= Interpret(Int, b)
    case CondA => a > b
    case CondAE => a >= b
    case CondB => a < b
    case CondBE => a <= b
  }

  datatype Config = Config(pc: nat, st: Slots, cmp: Option<(Word, Word)>)

  datatype Progress = Next(c: Config) | Halt(v: Word, st: Slots) | Stuck

  /** The position of the first label instruction named `l`. */
  function FindLabel(p: Code, l: Label): (i: Option<nat>)
    ensures i.Some? ==> i.value < |p| && p[i.value] == Mark(l)
  {
    FindLabelFrom(p, l, 0)
  }

  function FindLabelFrom(p: Code, l: Label, i: nat): (r: Option<nat>)
    requires i <= |p|
    ensures r.Some? ==> i <= r.value < |p| && p[r.value] == Mark(l)
    ensures r.None? ==> forall j :: i <= j < |p| ==> p[j] != Mark(l)
    ensures r.Some? ==> forall j :: i <= j < r.value ==> p[j] != Mark(l)
    decreases |p| - i
  {
    if i == |p| then None
    else if p[i] == Mark(l) then Some(i)
    else FindLabelFrom(p, l, i + 1)
  }

  function Goto(p: Code, l: Label, c: Config): Progress {
    match FindLabel(p, l)
    case None => Stuck
    case Some(i) => Next(c.(pc := i))
  }

  function Put(c: Config, dst: Name, w: Option<Word>): Progress {
    match w
    case None => Stuck
    case Some(x) => Next(c.(pc := c.pc + 1, st := c.st[dst := x]))
  }

  /** One instruction. */
  function Step(p: Code, c: Config): Progress {
    if c.pc >= |p| then Stuck else
    match p[c.pc]
    case Return(v) =>
      (match v
       case None => Halt(0, c.st)
       case Some(x) => if Read(x, c.st).Some? then Halt(Read(x, c.st).value, c.st) else Stuck)
    case Unary(op, dst, src) =>
      if Read(src, c.st).Some? then Put(c, dst, Some(ApplyUnary(op, Read(src, c.st).value))) else Stuck
    case Binary(op, dst, s1, s2) =>
      if Read(s1, c.st).Some? && Read(s2, c.st).Some?
      then Put(c, dst, Alu(op, Read(s1, c.st).value, Read(s2, c.st).value))
      else Stuck
    case CondJump(cond, l) =>
      if c.cmp.None? then Stuck
      else if CondTrue(cond, c.cmp.value.0, c.cmp.value.1) then Goto(p, l, c)
      else Next(c.(pc := c.pc + 1))
    case Cmp(s1, s2) =>
      if Read(s1, c.st).Some? && Read(s2, c.st).Some?
      then Next(c.(pc := c.pc + 1, cmp := Some((Read(s1, c.st).value, Read(s2, c.st).value))))
      else Stuck
    case Jump(l) => Goto(p, l, c)
    case Mark(_) => Next(c.(pc := c.pc + 1))
    case Copy(dst, src) => Put(c, dst, Read(src, c.st))
  }

  /** Up to `n` instructions; a halted or stuck machine stays so. */
  function Steps(p: Code, c: Config, n: nat): Progress
    decreases n
  {
    if n == 0 then Next(c)
    else
      match Step(p, c)
      case Next(d) => Steps(p, d, n - 1)
      case r => r
  }

  lemma {:induction false} StepsCompose(p: Code, c: Config, m: nat, n: nat)
    requires Steps(p, c, m).Next?
    ensures Steps(p, c, m + n) == Steps(p, Steps(p, c, m).c, n)
    decreases m
  {
    if m > 0 {
      StepsCompose(p, Step(p, c).c, m - 1, n);
    }
  }

  /** A machine still running after `n` steps was running after any fewer. */
  lemma {:induction false} StepsPrefix(p: Code, c: Config, m: nat, n: nat)
    requires m <= n && Steps(p, c, n).Next?
    ensures Steps(p, c, m).Next?
    decreases m
  {
    if m > 0 {
      StepsPrefix(p, Step(p, c).c, m - 1, n - 1);
    }
  }

  /** Once halted or stuck, the answer no longer changes. */
  lemma {:induction false} StepsFinal(p: Code, c: Config, m: nat, n: nat)
    requires m <= n && !Steps(p, c, m).Next?
    ensures Steps(p, c, n) == Steps(p, c, m)
    decreases m
  {
    if Step(p, c).Next? {
      StepsFinal(p, Step(p, c).c, m - 1, n - 1);
    }
  }

  // ----- Code inside a program -----

  predicate CodeAt(p: Code, pc: nat, code: Code) {
    pc + |code| <= |p| && p[pc..pc + |code|] == code
  }

  lemma CodeSplit(p: Code, pc: nat, a: Code, b: Code)
    requires CodeAt(p, pc, a + b)
    ensures CodeAt(p, pc, a) && CodeAt(p, pc + |a|, b)
  {
    assert p[pc..pc + |a|] == (a + b)[..|a|] == a;
    assert p[pc + |a|..pc + |a| + |b|] == (a + b)[|a|..] == b;
  }

  lemma InstrAt(p: Code, pc: nat, code: Code, i: nat)
    requires CodeAt(p, pc, code) && i < |code|
    ensures pc + i < |p| && p[pc + i] == code[i]
  {
    assert p[pc..pc + |code|][i] == p[pc + i];
  }

  /** The check that the interpreter makes before running a function. */
  predicate DistinctLabels(p: Code) {
    forall i, j :: 0 <= i < j < |p| && p[i].Mark? && p[j].Mark? ==> p[i] != p[j]
  }

  lemma LabelFound(p: Code, i: nat)
    requires DistinctLabels(p) && i < |p| && p[i].Mark?
    ensures FindLabel(p, p[i].name) == Some(i)
  {
    var l := p[i].name;
    assert p[i] == Mark(l);
    var j := FindLabel(p, l).value;
    assert p[j] == Mark(l);
  }
}
