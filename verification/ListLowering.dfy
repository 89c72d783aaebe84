/** The lowering pass as the compiler runs it: two counters that it advances, and lists of
    instructions that it links together in place.  Every list it makes spells the code that
    `Lowering` gives.
  */
module ListLowering {
  import opened Words
  import opened CSource
  import opened Tac
  import opened Lowering
  import opened TacList

  /** The list at `head` has the instructions of `code`. */
  ghost predicate Spells(head: Node?, nodes: seq<Node>, code: Code)
    reads nodes
  {
    IsList(head, nodes) && Contents(nodes) == code
  }

  /** `concat_TAC_instrs`, of two separate lists. */
  method Join(h: Node?, ghost a: seq<Node>, ghost ac: Code, t: Node?, ghost b: seq<Node>, ghost bc: Code)
    returns (r: Node?)
    requires Spells(h, a, ac) && Spells(t, b, bc) && Separate(a, b)
    modifies a, b
    ensures Spells(r, a + b, ac + bc)
  {
    r := Concat(h, a, t, b);
    assert t == null ==> a + b == a;
  }

  /** New instructions at the end of a list. */
  method Emit(h: Node?, ghost a: seq<Node>, ghost ac: Code, more: Code) returns (r: Node?, ghost nodes: seq<Node>)
    requires Spells(h, a, ac)
    modifies a
    ensures Spells(r, nodes, ac + more) && forall j :: 0 <= j < |nodes| ==> nodes[j] in a || fresh(nodes[j])
  {
    hide Spells;
    r, nodes := h, a;
    var i := 0;
    assert ac + more[..0] == ac;
    while i < |more|
      invariant i <= |more| && Spells(r, nodes, ac + more[..i]) && forall j :: 0 <= j < |nodes| ==>
                nodes[j] in a || fresh(nodes[j])
    {
      var x := new Node(more[i]);
      OneNode(x);
      r := Join(r, nodes, ac + more[..i], x, [x], [more[i]]);
      nodes := nodes + [x];
      assert ac + more[..i] + [more[i]] == ac + more[..i + 1];
      i := i + 1;
    }
    assert more[..i] == more;
  }

  lemma OneNode(x: Node)
    requires x.next == null && x.last == x
    ensures Spells(x, [x], [x.instr])
  {
  }

  /** An instruction list that has yet to get its first node. */
  method Begin(more: Code) returns (r: Node?, ghost nodes: seq<Node>)
    ensures Spells(r, nodes, more) && fresh(nodes)
  {
    r, nodes := Emit(null, [], [], more);
    assert [] + more == more;
  }

  /** One list after another, and new instructions after both. */
  method Splice(h: Node?, ghost a: seq<Node>, ghost ac: Code, t: Node?, ghost b: seq<Node>, ghost bc: Code, tail: Code)
    returns (r: Node?, ghost nodes: seq<Node>)
    requires Spells(h, a, ac) && Spells(t, b, bc) && Separate(a, b)
    modifies a, b
    ensures Spells(r, nodes, ac + bc + tail) && forall i :: 0 <= i < |nodes| ==>
            nodes[i] in a || nodes[i] in b || fresh(nodes[i])
  {
    hide Spells;
    r := Join(h, a, ac, t, b, bc);
    r, nodes := Emit(r, a + b, ac + bc, tail);
  }

  /** Two lists among new instructions. */
  method Two(first: Code, h: Node?, ghost a: seq<Node>, ghost ac: Code, mid: Code, t: Node?, ghost b: seq<Node>,
             ghost bc: Code, tail: Code)
    returns (r: Node?, ghost nodes: seq<Node>)
    requires Spells(h, a, ac) && Spells(t, b, bc) && Separate(a, b)
    modifies a, b
    ensures Spells(r, nodes, first + ac + mid + bc + tail)
    ensures forall i :: 0 <= i < |nodes| ==> nodes[i] in a || nodes[i] in b || fresh(nodes[i])
  {
    hide Spells;
    r, nodes := Begin(first);
    r, nodes := Splice(r, nodes, first, h, a, ac, mid);
    r, nodes := Splice(r, nodes, first + ac + mid, t, b, bc, tail);
  }

  /** Three lists, each with new instructions after it. */
  method Three(h: Node?, ghost a: seq<Node>, ghost ac: Code, x: Code, t: Node?, ghost b: seq<Node>, ghost bc: Code,
               y: Code,
               u: Node?, ghost c: seq<Node>, ghost cc: Code, z: Code)
    returns (r: Node?, ghost nodes: seq<Node>)
    requires Spells(h, a, ac) && Spells(t, b, bc) && Spells(u, c, cc) && Separate(a, b) && Separate(a, c) &&
             Separate(b, c)
    modifies a, b, c
    ensures Spells(r, nodes, ac + x + bc + y + cc + z)
    ensures forall i :: 0 <= i < |nodes| ==> nodes[i] in a || nodes[i] in b || nodes[i] in c || fresh(nodes[i])
  {
    hide Spells;
    r, nodes := Emit(h, a, ac, x);
    r, nodes := Splice(r, nodes, ac + x, t, b, bc, y);
    r, nodes := Splice(r, nodes, ac + x + bc + y, u, c, cc, z);
  }

  method JoinFor(h: Node?, ghost a: seq<Node>, ghost ac: Code, t: Node?, ghost b: seq<Node>, ghost bc: Code,
                 u: Node?, ghost c: seq<Node>, ghost cc: Code, v: Node?, ghost d: seq<Node>, ghost dc: Code, id: nat)
    returns (r: Node?, ghost nodes: seq<Node>)
    requires Spells(h, a, ac) && Spells(t, b, bc) && Spells(u, c, cc) && Spells(v, d, dc)
    requires Separate(a, b) && Separate(a, c) && Separate(b, c) && Separate(a, d) && Separate(b, d) && Separate(c, d)
    modifies a, b, c, d
    ensures Spells(r, nodes, ForCode(ac, bc, cc, dc, id))
    ensures forall i :: 0 <= i < |nodes| ==>
            nodes[i] in a || nodes[i] in b || nodes[i] in c || nodes[i] in d || fresh(nodes[i])
  {
    hide Spells;
    r, nodes := Three(h, a, ac, [Mark(StartOf(id))], t, b, bc, [], u, c, cc, [Mark(ContinueOf(id))]);
    ghost var done := ac + [Mark(StartOf(id))] + bc;
    assert done + [] == done;
    r, nodes := Splice(r, nodes, done + cc + [Mark(ContinueOf(id))], v, d, dc, [Jump(StartOf(id)), Mark(BreakOf(id))]);
  }

  lemma CondCode(e: Expr, t: nat, l: nat, z: Lowered, x: Lowered, y: Lowered)
    requires e.Cond? && z == LowerExpr(e.cond, t, l) && x == LowerExpr(e.left, z.t, z.l) &&
             y == LowerExpr(e.right, x.t, x.l)
    ensures var dst, els, end := Temp(y.t), Gen(ElseLabel, y.l), Gen(EndLabel, y.l + 1);
            LowerExpr(e, t, l) ==
            Lowered(z.code + [Cmp(z.val, Const(0)), CondJump(CondE, els)] + x.code +
                    [Copy(dst, x.val), Jump(end), Mark(els)]
                    + y.code + [Copy(dst, y.val), Mark(end)], Slot(dst), y.t + 1, y.l + 2)
  {
  }

  /** The comparisons of a switch, and the jump when none holds. */
  method CasesToTac(id: nat, keys: seq<Key>, v: Val) returns (r: Node?, ghost nodes: seq<Node>)
    ensures Spells(r, nodes, LowerCases(id, keys, v)) && fresh(nodes)
  {
    hide Spells;
    r, nodes := Begin([]);
    var other: Option<Label> := None;
    var i := 0;
    while i < |keys|
      invariant i <= |keys| && fresh(nodes) && Spells(r, nodes, CaseTests(id, keys[..i], v))
      invariant other == if DefaultCase in keys[..i] then Some(DefaultLabel(id)) else None
    {
      ghost var done := CaseTests(id, keys[..i], v);
      assert done + [] == done;
      CaseTestsNext(id, keys[..i], keys[i], v);
      assert keys[..i + 1] == keys[..i] + [keys[i]];
      match keys[i] {
        case CaseOf(c) =>
          r, nodes := Emit(r, nodes, done, [Cmp(v, Const(ToWord(c))), CondJump(CondE, LabelOf(id, keys[i]))]);
        case DefaultCase => other := Some(DefaultLabel(id));
      }
      i := i + 1;
    }
    assert keys[..i] == keys;
    r, nodes := Emit(r, nodes, CaseTests(id, keys, v), [Jump(if other.Some? then other.value else BreakOf(id))]);
  }

  lemma {:induction false} CaseTestsNext(id: nat, keys: seq<Key>, k: Key, v: Val)
    ensures CaseTests(id, keys + [k], v) ==
            CaseTests(id, keys, v) + if k.CaseOf? then [Cmp(v, Const(ToWord(k.v))), CondJump(CondE, LabelOf(id, k))]
              else []
  {
    if keys == [] {
      assert [k][1..] == [];
    } else {
      assert (keys + [k])[1..] == keys[1..] + [k];
      CaseTestsNext(id, keys[1..], k, v);
    }
  }

  class Lowerer {
    var temps: nat
    var labels: nat

    constructor ()
      ensures temps == 0 && labels == 0
    {
      temps, labels := 0, 0;
    }

    /** A list, an operand and counters as `r` has them. */
    ghost predicate Gives(r: Lowered, head: Node?, nodes: seq<Node>, val: Val)
      reads this, nodes
    {
      Spells(head, nodes, r.code) && val == r.val && temps == r.t && labels == r.l
    }

    method MakeTemp() returns (x: Name)
      modifies `temps
      ensures x == Temp(old(temps)) && temps == old(temps) + 1
    {
      x := Temp(temps);
      temps := temps + 1;
    }

    method MakeLabel(k: GenKind) returns (x: Label)
      modifies `labels
      ensures x == Gen(k, old(labels)) && labels == old(labels) + 1
    {
      x := Gen(k, labels);
      labels := labels + 1;
    }

    /** `expr_to_TAC`. */
    method ToTac(e: Expr) returns (head: Node?, ghost nodes: seq<Node>, val: Val)
      modifies this
      ensures Gives(LowerExpr(e, old(temps), old(labels)), head, nodes, val) && fresh(nodes)
      decreases e, 1
    {
      hide Spells;
      match e
      case Lit(w, _) =>
        head, nodes := Begin([]);
        val := Const(w);
      case Var(x, _) =>
        head, nodes := Begin([]);
        val := Slot(User(x));
      case Cast(_, e1) => head, nodes, val := ToTac(e1);
      case Unary(_, _) => head, nodes, val := UnaryToTac(e);
      case Not(_) => head, nodes, val := NotToTac(e);
      case Binary(_, _, _) => head, nodes, val := BinaryToTac(e);
      case Rel(_, _, _) => head, nodes, val := RelationalToTac(e);
      case AndAlso(_, _) => head, nodes, val := ShortToTac(e);
      case OrElse(_, _) => head, nodes, val := ShortToTac(e);
      case Cond(_, _, _) => head, nodes, val := CondToTac(e);
      case Assign(_, _, _) => head, nodes, val := AssignToTac(e);
      case Compound(_, _, _, _) => head, nodes, val := CompoundToTac(e);
      case PostStep(inc, x, ty) =>
        var prev := MakeTemp();
        head, nodes :=
          Begin([Copy(prev, Slot(User(x))),
                 Tac.Binary(AluFor(if inc then Add else Sub, ty), User(x), Slot(User(x)), Const(1))]);
        val := Slot(prev);
    }

    method UnaryToTac(e: Expr) returns (head: Node?, ghost nodes: seq<Node>, val: Val)
      requires e.Unary?
      modifies this
      ensures Gives(LowerExpr(e, old(temps), old(labels)), head, nodes, val) && fresh(nodes)
      decreases e, 0
    {
      hide Spells;
      ghost var x := LowerExpr(e.e, temps, labels);
      var h, a, v := ToTac(e.e);
      var dst := MakeTemp();
      head, nodes := Emit(h, a, x.code, [Tac.Unary(UnaryFor(e.uop), dst, v)]);
      val := Slot(dst);
    }

    method NotToTac(e: Expr) returns (head: Node?, ghost nodes: seq<Node>, val: Val)
      requires e.Not?
      modifies this
      ensures Gives(LowerExpr(e, old(temps), old(labels)), head, nodes, val) && fresh(nodes)
      decreases e, 0
    {
      hide Spells;
      ghost var x := LowerExpr(e.e, temps, labels);
      var h, a, v := ToTac(e.e);
      var dst := MakeTemp();
      var end := MakeLabel(EndLabel);
      head, nodes := Begin([Copy(dst, Const(1))]);
      head, nodes := Splice(head, nodes, [Copy(dst, Const(1))], h, a, x.code,
                            [Cmp(v, Const(0)), CondJump(CondE, end), Copy(dst, Const(0)), Mark(end)]);
      val := Slot(dst);
    }

    method BinaryToTac(e: Expr) returns (head: Node?, ghost nodes: seq<Node>, val: Val)
      requires e.Binary?
      modifies this
      ensures Gives(LowerExpr(e, old(temps), old(labels)), head, nodes, val) && fresh(nodes)
      decreases e, 0
    {
      hide Spells;
      ghost var x := LowerExpr(e.left, temps, labels);
      ghost var y := LowerExpr(e.right, x.t, x.l);
      var h, a, v := ToTac(e.left);
      var t, b, w := ToTac(e.right);
      var dst := MakeTemp();
      head, nodes := Splice(h, a, x.code, t, b, y.code, [Tac.Binary(AluFor(e.op, TypeOf(e)), dst, v, w)]);
      val := Slot(dst);
    }

    method RelationalToTac(e: Expr) returns (head: Node?, ghost nodes: seq<Node>, val: Val)
      requires e.Rel?
      modifies this
      ensures Gives(LowerExpr(e, old(temps), old(labels)), head, nodes, val) && fresh(nodes)
      decreases e, 0
    {
      hide Spells;
      ghost var x := LowerExpr(e.left, temps, labels);
      ghost var y := LowerExpr(e.right, x.t, x.l);
      var h, a, v := ToTac(e.left);
      var t, b, w := ToTac(e.right);
      var dst := MakeTemp();
      var end := MakeLabel(EndLabel);
      head, nodes := Two([Copy(dst, Const(1))], h, a, x.code, [], t, b, y.code,
                         [Cmp(v, w), CondJump(CondFor(e.rel, TypeOf(e.left)), end), Copy(dst, Const(0)), Mark(end)]);
      assert [Copy(dst, Const(1))] + x.code + [] + y.code == [Copy(dst, Const(1))] + (x.code + y.code);
      val := Slot(dst);
    }

    method ShortToTac(e: Expr) returns (head: Node?, ghost nodes: seq<Node>, val: Val)
      requires e.AndAlso? || e.OrElse?
      modifies this
      ensures Gives(LowerExpr(e, old(temps), old(labels)), head, nodes, val) && fresh(nodes)
      decreases e, 0
    {
      hide Spells;
      ghost var x := LowerExpr(e.left, temps, labels);
      ghost var y := LowerExpr(e.right, x.t, x.l);
      var h, a, v := ToTac(e.left);
      var t, b, w := ToTac(e.right);
      var dst := MakeTemp();
      var end := MakeLabel(EndLabel);
      var isAnd := e.AndAlso?;
      var cond := if isAnd then CondE else CondNE;
      head, nodes :=
        Two([Copy(dst, Const(if isAnd then 0 else 1))], h, a, x.code, [Cmp(v, Const(0)), CondJump(cond, end)], t, b,
            y.code,
                         [Cmp(w, Const(0)), CondJump(cond, end), Copy(dst, Const(if isAnd then 1 else 0)), Mark(end)]);
      val := Slot(dst);
    }

    method CondToTac(e: Expr) returns (head: Node?, ghost nodes: seq<Node>, val: Val)
      requires e.Cond?
      modifies this
      ensures Gives(LowerExpr(e, old(temps), old(labels)), head, nodes, val) && fresh(nodes)
      decreases e, 0
    {
      hide Spells, LowerExpr;
      ghost var z := LowerExpr(e.cond, temps, labels);
      ghost var x := LowerExpr(e.left, z.t, z.l);
      ghost var y := LowerExpr(e.right, x.t, x.l);
      CondCode(e, temps, labels, z, x, y);
      var g, c, u := ToTac(e.cond);
      var h, a, v := ToTac(e.left);
      var t, b, w := ToTac(e.right);
      var els := MakeLabel(ElseLabel);
      var end := MakeLabel(EndLabel);
      var dst := MakeTemp();
      head, nodes := Three(g, c, z.code, [Cmp(u, Const(0)), CondJump(CondE, els)],
                           h, a, x.code, [Copy(dst, v), Jump(end), Mark(els)], t, b, y.code, [Copy(dst, w), Mark(end)]);
      val := Slot(dst);
    }

    method AssignToTac(e: Expr) returns (head: Node?, ghost nodes: seq<Node>, val: Val)
      requires e.Assign?
      modifies this
      ensures Gives(LowerExpr(e, old(temps), old(labels)), head, nodes, val) && fresh(nodes)
      decreases e, 0
    {
      hide Spells;
      ghost var x := LowerExpr(e.e, temps, labels);
      var h, a, v := ToTac(e.e);
      head, nodes := Emit(h, a, x.code, [Copy(User(e.x), v)]);
      val := Slot(User(e.x));
    }

    method CompoundToTac(e: Expr) returns (head: Node?, ghost nodes: seq<Node>, val: Val)
      requires e.Compound?
      modifies this
      ensures Gives(LowerExpr(e, old(temps), old(labels)), head, nodes, val) && fresh(nodes)
      decreases e, 0
    {
      hide Spells;
      ghost var x := LowerExpr(e.e, temps, labels);
      var h, a, v := ToTac(e.e);
      var alu := AluFor(e.op, CompoundType(e.op, e.aty, TypeOf(e.e)));
      head, nodes := Emit(h, a, x.code, [Tac.Binary(alu, User(e.x), Slot(User(e.x)), v)]);
      val := Slot(User(e.x));
    }

    ghost predicate GivesStmt(r: LoweredStmt, head: Node?, nodes: seq<Node>)
      reads this, nodes
    {
      Spells(head, nodes, r.code) && temps == r.t && labels == r.l
    }

    /** An expression that may be absent. */
    method OptToTac(e: Option<Expr>) returns (head: Node?, ghost nodes: seq<Node>, val: Val)
      modifies this
      ensures Gives(LowerOpt(e, old(temps), old(labels)), head, nodes, val) && fresh(nodes)
    {
      hide Spells, LowerExpr;
      match e
      case None =>
        head, nodes := Begin([]);
        val := Const(1);
      case Some(x) => head, nodes, val := ToTac(x);
    }

    /** `stmt_to_TAC`. */
    method StmtToTac(s: Stmt) returns (head: Node?, ghost nodes: seq<Node>)
      modifies this
      ensures GivesStmt(LowerStmt(s, old(temps), old(labels)), head, nodes) && fresh(nodes)
      decreases s, 1
    {
      hide Spells, LowerExpr;
      match s
      case Null => head, nodes := Begin([]);
      case ExprStmt(e) =>
        var h, a, _ := ToTac(e);
        head, nodes := h, a;
      case Return(None) => head, nodes := Begin([Tac.Return(None)]);
      case Return(Some(e)) =>
        ghost var x := LowerExpr(e, temps, labels);
        var h, a, v := ToTac(e);
        head, nodes := Emit(h, a, x.code, [Tac.Return(Some(v))]);
      case Seq(_, _) => head, nodes := SeqToTac(s);
      case If(_, _) => head, nodes := IfToTac(s);
      case IfElse(_, _, _) => head, nodes := IfElseToTac(s);
      case While(_, _, _) => head, nodes := WhileToTac(s);
      case DoWhile(_, _, _) => head, nodes := DoWhileToTac(s);
      case For(_, _, _, _, _) => head, nodes := ForToTac(s);
      case Switch(_, _, _) => head, nodes := SwitchToTac(s);
      case Case(k, s1, id) => head, nodes := CaseToTac(s);
      case Break(id) => head, nodes := Begin([Jump(BreakOf(id))]);
      case Continue(id) => head, nodes := Begin([Jump(ContinueOf(id))]);
    }

    method SeqToTac(s: Stmt) returns (head: Node?, ghost nodes: seq<Node>)
      requires s.Seq?
      modifies this
      ensures GivesStmt(LowerStmt(s, old(temps), old(labels)), head, nodes) && fresh(nodes)
      decreases s, 0
    {
      hide Spells, LowerExpr;
      ghost var x := LowerStmt(s.first, temps, labels);
      ghost var y := LowerStmt(s.rest, x.t, x.l);
      var h, a := StmtToTac(s.first);
      var t, b := StmtToTac(s.rest);
      nodes := a + b;
      head := Join(h, a, x.code, t, b, y.code);
    }

    method IfToTac(s: Stmt) returns (head: Node?, ghost nodes: seq<Node>)
      requires s.If?
      modifies this
      ensures GivesStmt(LowerStmt(s, old(temps), old(labels)), head, nodes) && fresh(nodes)
      decreases s, 0
    {
      hide Spells, LowerExpr;
      ghost var x := LowerExpr(s.c, temps, labels);
      ghost var y := LowerStmt(s.body, x.t, x.l);
      var h, a, v := ToTac(s.c);
      var t, b := StmtToTac(s.body);
      var end := MakeLabel(EndLabel);
      var test := [Cmp(v, Const(0)), CondJump(CondE, end)];
      head, nodes := Emit(h, a, x.code, test);
      head, nodes := Splice(head, nodes, x.code + test, t, b, y.code, [Mark(end)]);
    }

    method IfElseToTac(s: Stmt) returns (head: Node?, ghost nodes: seq<Node>)
      requires s.IfElse?
      modifies this
      ensures GivesStmt(LowerStmt(s, old(temps), old(labels)), head, nodes) && fresh(nodes)
      decreases s, 0
    {
      hide Spells, LowerExpr;
      ghost var x := LowerExpr(s.c, temps, labels);
      ghost var y := LowerStmt(s.thn, x.t, x.l);
      ghost var z := LowerStmt(s.els, y.t, y.l);
      var h, a, v := ToTac(s.c);
      var t, b := StmtToTac(s.thn);
      var u, c := StmtToTac(s.els);
      var els := MakeLabel(ElseLabel);
      var end := MakeLabel(EndLabel);
      head, nodes := Three(h, a, x.code, [Cmp(v, Const(0)), CondJump(CondE, els)],
                           t, b, y.code, [Jump(end), Mark(els)], u, c, z.code, [Mark(end)]);
    }

    method WhileToTac(s: Stmt) returns (head: Node?, ghost nodes: seq<Node>)
      requires s.While?
      modifies this
      ensures GivesStmt(LowerStmt(s, old(temps), old(labels)), head, nodes) && fresh(nodes)
      decreases s, 0
    {
      hide Spells, LowerExpr;
      ghost var y := LowerStmt(s.body, temps, labels);
      ghost var x := LowerExpr(s.c, y.t, y.l);
      var t, b := StmtToTac(s.body);
      var h, a, v := ToTac(s.c);
      head, nodes := Two([Mark(ContinueOf(s.id))], h, a, x.code, [Cmp(v, Const(0)), CondJump(CondE, BreakOf(s.id))],
                         t, b, y.code, [Jump(ContinueOf(s.id)), Mark(BreakOf(s.id))]);
    }

    method DoWhileToTac(s: Stmt) returns (head: Node?, ghost nodes: seq<Node>)
      requires s.DoWhile?
      modifies this
      ensures GivesStmt(LowerStmt(s, old(temps), old(labels)), head, nodes) && fresh(nodes)
      decreases s, 0
    {
      hide Spells, LowerExpr;
      ghost var y := LowerStmt(s.body, temps, labels);
      ghost var x := LowerExpr(s.c, y.t, y.l);
      var t, b := StmtToTac(s.body);
      var h, a, v := ToTac(s.c);
      head, nodes := Two([Mark(StartOf(s.id))], t, b, y.code, [Mark(ContinueOf(s.id))],
                         h, a, x.code, [Cmp(v, Const(0)), CondJump(CondNE, StartOf(s.id)), Mark(BreakOf(s.id))]);
    }

    method ForToTac(s: Stmt) returns (head: Node?, ghost nodes: seq<Node>)
      requires s.For?
      modifies this
      ensures GivesStmt(LowerStmt(s, old(temps), old(labels)), head, nodes) && fresh(nodes)
      decreases s, 0
    {
      hide Spells, LowerExpr, ForCode;
      ghost var i := LowerOpt(s.init, temps, labels);
      ghost var y := LowerStmt(s.body, i.t, i.l);
      ghost var x := LowerOpt(s.fc, y.t, y.l);
      ghost var n := LowerOpt(s.end, x.t, x.l);
      var g, c, _ := OptToTac(s.init);
      var t, b := StmtToTac(s.body);
      var h, a, v := OptToTac(s.fc);
      if s.fc.Some? {
        h, a := Emit(h, a, x.code, [Cmp(v, Const(0)), CondJump(CondE, BreakOf(s.id))]);
      }
      ghost var test := ForTest(s.fc.Some?, x.code, x.val, s.id);
      var u, d, _ := OptToTac(s.end);
      head, nodes := JoinFor(g, c, i.code, h, a, test, t, b, y.code, u, d, n.code, s.id);
    }

    method SwitchToTac(s: Stmt) returns (head: Node?, ghost nodes: seq<Node>)
      requires s.Switch?
      modifies this
      ensures GivesStmt(LowerStmt(s, old(temps), old(labels)), head, nodes) && fresh(nodes)
      decreases s, 0
    {
      hide Spells, LowerExpr;
      ghost var x := LowerExpr(s.c, temps, labels);
      ghost var y := LowerStmt(s.body, x.t, x.l);
      var h, a, v := ToTac(s.c);
      var u, c := CasesToTac(s.id, Keys(s.body), v);
      var t, b := StmtToTac(s.body);
      ghost var cases := LowerCases(s.id, Keys(s.body), v);
      head := Join(h, a, x.code, u, c, cases);
      head, nodes := Splice(head, a + c, x.code + cases, t, b, y.code, [Mark(BreakOf(s.id))]);
    }

    method CaseToTac(s: Stmt) returns (head: Node?, ghost nodes: seq<Node>)
      requires s.Case?
      modifies this
      ensures GivesStmt(LowerStmt(s, old(temps), old(labels)), head, nodes) && fresh(nodes)
      decreases s, 0
    {
      hide Spells, LowerExpr;
      ghost var y := LowerStmt(s.body, temps, labels);
      var t, b := StmtToTac(s.body);
      var mark := [Mark(LabelOf(s.id, s.key))];
      head, nodes := Begin(mark);
      head := Join(head, nodes, mark, t, b, y.code);
      nodes := nodes + b;
    }

    /** `func_to_TAC`: the body, and a return of 0. */
    method FunctionToTac(body: Stmt) returns (head: Node?, ghost nodes: seq<Node>)
      modifies this
      ensures Spells(head, nodes, LowerFunction(body, old(temps), old(labels))) && fresh(nodes)
    {
      hide Spells, LowerStmt;
      ghost var x := LowerStmt(body, temps, labels);
      var h, a := StmtToTac(body);
      head, nodes := Emit(h, a, x.code, [Tac.Return(Some(Const(0)))]);
    }
  }
}
