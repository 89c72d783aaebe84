/** The two passes of the assembler, over parsed statements.

    The first pass counts bytes and records where labels are; the second emits bytes.  The
    source files are read one after the other, in both passes without leaving the section.
  */
module Assembler {
  import opened Words
  import opened ByteWords

  datatype Section = Text | Rodata | Data | Bss | Implicit

  const SECTIONS := 5

  function Index(s: Section): (i: nat)
    ensures i < SECTIONS
  {
    match s case Text => 0 case Rodata => 1 case Data => 2 case Bss => 3 case Implicit => 4
  }

  type Name = seq<char>

  datatype Operand = Literal(value: int) | Ref(name: Name)

  datatype Stmt =
    | NewFile
    | Label(name: Name)
    | Global(name: Name)
    | Enter(section: Section)
    | Origin(at: nat)
    | Load(section: Section, address: nat)
    | Fill(operand: Operand)
    | Fild(half: int)
    | Filb(byte: int)
    | Space(count: nat)
    | Align(to: nat)
    | Instr(op: nat, operand: Operand)

  function AlignUp(v: nat, a: nat): (r: nat)
    requires a > 0
    ensures r >= v && r % a == 0 && r < v + a
  {
    if v % a == 0 then v else
    AlignRest(v, a);
    v + (a - v % a)
  }

  lemma AlignRest(v: nat, a: nat)
    requires a > 0
    ensures (v + (a - v % a)) % a == 0
  {
    var q := v / a;
    assert v == q * a + v % a;
    assert v + (a - v % a) == (q + 1) * a;
    DivUnique(v + (a - v % a), a, q + 1, 0);
  }

  predicate IsPower(a: nat) {
    a == 1 || (a > 1 && a % 2 == 0 && IsPower(a / 2))
  }

  /** Where a label is: so many bytes into a section. */
  datatype Place = Place(section: Section, offset: nat)

  /** Sections that can be used: the implicit one only in the kernel. */
  predicate InRange(kernel: bool, cur: Option<Section>) {
    cur.Some? && (kernel || cur.value != Implicit)
  }

  // ----- The first pass -----

  /** The bytes counted in each section; the section; the labels of each file so far; the names
      each file exports; the exported names with their places once known; and load addresses. */
  datatype Pass1 = Pass1(off: seq<nat>, cur: Option<Section>, locals: seq<map<Name, Place>>, exports: seq<set<Name>>,
                         globals: map<Name, Option<Place>>, load: map<Section, nat>)

  function Start1(kernel: bool): Pass1 {
    Pass1([0, 0, 0, 0, 0], if kernel then Some(Implicit) else None, [], [], map[], map[])
  }

  predicate Sane1(s: Pass1) {
    |s.off| == SECTIONS && |s.locals| == |s.exports|
  }

  /** `n` more bytes in the section. */
  function Count(s: Pass1, n: nat): Pass1
    requires Sane1(s) && s.cur.Some?
  {
    var i := Index(s.cur.value);
    s.(off := s.off[i := s.off[i] + n])
  }

  function Define(s: Pass1, n: Name): Option<Pass1>
    requires Sane1(s) && s.cur.Some?
  {
    if s.locals == [] then None else
    var f, place := |s.locals| - 1, Place(s.cur.value, s.off[Index(s.cur.value)]);
    if n in s.locals[f] then None else
    var t := s.(locals := s.locals[f := s.locals[f][n := place]]);
    if n !in s.exports[f] then Some(t)
    else if n in s.globals && s.globals[n].Some? then None
    else Some(t.(globals := t.globals[n := Some(place)]))
  }

  function Export(s: Pass1, n: Name): Option<Pass1>
    requires Sane1(s)
  {
    if s.locals == [] then None else
    var f := |s.locals| - 1;
    var t := s.(exports := s.exports[f := s.exports[f] + {n}], globals := if n in s.globals then s.globals
                else s.globals[n := None]);
    if n !in s.locals[f] then Some(t)
    else if t.globals[n].Some? then None
    else Some(t.(globals := t.globals[n := Some(s.locals[f][n])]))
  }

  /** Whether data or instructions of `n` bytes can go into the section. */
  predicate CanHold(kernel: bool, cur: Option<Section>) {
    InRange(kernel, cur) && cur.value != Bss
  }

  function Step1(kernel: bool, s: Pass1, st: Stmt): (t: Option<Pass1>)
    requires Sane1(s)
    ensures t.Some? ==> Sane1(t.value)
  {
    match st
    case NewFile => Some(s.(locals := s.locals + [map[]], exports := s.exports + [{}]))
    case Label(n) => if InRange(kernel, s.cur) then Define(s, n) else None
    case Global(n) => Export(s, n)
    case Enter(sec) => Some(s.(cur := Some(sec)))
    case Origin(at) =>
      if kernel && s.cur == Some(Implicit) && at >= s.off[Index(Implicit)]
         then Some(s.(off := s.off[Index(Implicit) := at])) else None
    case Load(sec, a) =>
      if kernel && a % 4 == 0 && s.off[Index(sec)] == 0 && (sec in s.load ==> s.load[sec] == a)
         then Some(s.(load := s.load[sec := a])) else None
    case Fill(_) => if CanHold(kernel, s.cur) then Some(Count(s, 4)) else None
    case Fild(_) => if CanHold(kernel, s.cur) then Some(Count(s, 2)) else None
    case Filb(_) => if CanHold(kernel, s.cur) then Some(Count(s, 1)) else None
    case Space(n) => if InRange(kernel, s.cur) then Some(Count(s, n)) else None
    case Align(a) =>
      if InRange(kernel, s.cur) && a > 0 && IsPower(a) then
        var i := Index(s.cur.value); Some(s.(off := s.off[i := AlignUp(s.off[i], a)]))
      else None
    case Instr(_, _) =>
      if CanHold(kernel, s.cur) && s.off[Index(s.cur.value)] % 4 == 0 then Some(Count(s, 4)) else None
  }

  // ----- Layout -----

  /** Label tables after addresses are final: of each file, and the exported ones. */
  datatype Tables = Tables(locals: seq<map<Name, nat>>, globals: map<Name, nat>)

  const USER_BASE := 0x8000_0000
  const PAGE := 0x1000
  const KERNEL_ALIGN := 512

  /** `section_sizes`. */
  function Size(kernel: bool, off: seq<nat>, i: nat): nat
    requires |off| == SECTIONS && i < SECTIONS
  {
    if kernel || i == Index(Bss) then off[i] else AlignUp(off[i], 4)
  }

  /** `section_bases`: in a user program text, rodata and data start on pages, with bss right
      behind data; in the kernel every section is padded to 512 bytes, the implicit one first. */
  function Base(kernel: bool, off: seq<nat>, s: Section): nat
    requires |off| == SECTIONS
  {
    if !kernel then
      var rodata := AlignUp(USER_BASE + Size(false, off, 0), PAGE);
      var data := AlignUp(rodata + Size(false, off, 1), PAGE);
      match s
      case Text => USER_BASE
      case Rodata => rodata
      case Data => data
      case Bss => data + Size(false, off, 2)
      case Implicit => 0
    else
      var text := AlignUp(off[4], KERNEL_ALIGN);
      var rodata := text + AlignUp(off[0], KERNEL_ALIGN);
      var data := rodata + AlignUp(off[1], KERNEL_ALIGN);
      match s
      case Implicit => 0
      case Text => text
      case Rodata => rodata
      case Data => data
      case Bss => data + AlignUp(off[2], KERNEL_ALIGN)
  }

  /** Where a section is at run time: at its load address, if one was given. */
  function LoadBase(kernel: bool, s: Pass1, sec: Section): nat
    requires Sane1(s)
  {
    if sec in s.load then s.load[sec] else Base(kernel, s.off, sec)
  }

  function Address(kernel: bool, s: Pass1, p: Place): nat
    requires Sane1(s)
  {
    LoadBase(kernel, s, p.section) + p.offset
  }

  /** `adjust_label_map_for_sections`. */
  function Adjusted(kernel: bool, s: Pass1): Tables
    requires Sane1(s)
  {
    Tables(seq(|s.locals|, f requires 0 <= f < |s.locals| => map n | n in s.locals[f] ::
               Address(kernel, s, s.locals[f][n])),
           map n | n in s.globals && s.globals[n].Some? :: Address(kernel, s, s.globals[n].value))
  }

  // ----- The second pass -----

  /** As in the first pass, with the number of files entered, the bytes emitted into each
      section, and the size of the uninitialised one. */
  datatype Pass2 = Pass2(off: seq<nat>, cur: Option<Section>, file: nat, out: seq<seq<Byte>>, bss: nat)

  function Start2(kernel: bool): Pass2 {
    Pass2([0, 0, 0, 0, 0], if kernel then Some(Implicit) else None, 0, [[], [], [], [], []], 0)
  }

  predicate Sane2(s: Pass2) {
    |s.off| == SECTIONS && |s.out| == SECTIONS
  }

  function Emit(s: Pass2, b: seq<Byte>): Pass2
    requires Sane2(s) && s.cur.Some?
  {
    var i := Index(s.cur.value);
    s.(off := s.off[i := s.off[i] + |b|], out := s.out[i := s.out[i] + b])
  }

  /** Zero bytes; in the uninitialised section they are only counted. */
  function Pad(s: Pass2, n: nat): Pass2
    requires Sane2(s) && s.cur.Some?
  {
    if s.cur == Some(Bss) then s.(bss := s.bss + n, off := s.off[Index(Bss) := s.off[Index(Bss)] + n])
       else Emit(s, Zeros(n))
  }

  /** The low `n` bytes of a value, low byte first. */
  function Low(v: int, n: nat): (b: seq<Byte>)
    ensures |b| == n
  {
    seq(n, k requires 0 <= k => ByteOf(v % MODULUS, k))
  }

  /** A label is looked up in its file first. */
  function Value(t: Tables, file: nat, x: Operand): Option<int> {
    match x
    case Literal(v) => Some(v)
    case Ref(n) =>
      if 0 < file <= |t.locals| && n in t.locals[file - 1] then Some(t.locals[file - 1][n])
      else if n in t.globals then Some(t.globals[n]) else None
  }

  /** How an instruction with this operand is encoded at this address. */
  type Encoder = (nat, int, nat) -> Option<nat>

  function Step2(kernel: bool, a: Pass1, t: Tables, enc: Encoder, s: Pass2, st: Stmt): (r: Option<Pass2>)
    requires Sane1(a) && Sane2(s)
    ensures r.Some? ==> Sane2(r.value)
  {
    match st
    case NewFile => Some(s.(file := s.file + 1))
    case Label(_) => Some(s)
    case Global(n) => if n in t.globals then Some(s) else None
    case Enter(sec) => Some(s.(cur := Some(sec)))
    case Origin(at) =>
      if kernel && s.cur == Some(Implicit) && at >= s.off[Index(Implicit)]
         then Some(Pad(s, at - s.off[Index(Implicit)])) else None
    case Load(sec, x) =>
      if kernel && x % 4 == 0 && (sec in a.load ==> a.load[sec] == x) then Some(s) else None
    case Fill(x) =>
      if CanHold(kernel, s.cur) && Value(t, s.file, x).Some? then Some(Emit(s, Low(Value(t, s.file, x).value, 4)))
         else None
    case Fild(v) => if CanHold(kernel, s.cur) && -0x8000 <= v < 0x1_0000 then Some(Emit(s, Low(v, 2))) else None
    case Filb(v) => if CanHold(kernel, s.cur) && -0x80 <= v < 0x100 then Some(Emit(s, Low(v, 1))) else None
    case Space(n) => if InRange(kernel, s.cur) then Some(Pad(s, n)) else None
    case Align(x) =>
      if InRange(kernel, s.cur) && x > 0 && IsPower(x) then
        var i := Index(s.cur.value); Some(Pad(s, AlignUp(s.off[i], x) - s.off[i]))
      else None
    case Instr(op, x) =>
      if CanHold(kernel, s.cur) && s.off[Index(s.cur.value)] % 4 == 0 && Value(t, s.file, x).Some? then
        var w := enc(op, Value(t, s.file, x).value, LoadBase(kernel, a, s.cur.value) + s.off[Index(s.cur.value)]);
        if w.Some? then Some(Emit(s, Low(w.value, 4))) else None
      else None
  }

  // ----- Whole programs -----

  function Run1(kernel: bool, p: seq<Stmt>): (r: Option<Pass1>)
    ensures r.Some? ==> Sane1(r.value)
  {
    if p == [] then Some(Start1(kernel)) else
    var s := Run1(kernel, p[..|p| - 1]);
    if s.None? then None else Step1(kernel, s.value, p[|p| - 1])
  }

  function Run2(kernel: bool, a: Pass1, enc: Encoder, p: seq<Stmt>): (r: Option<Pass2>)
    requires Sane1(a)
    ensures r.Some? ==> Sane2(r.value)
  {
    if p == [] then Some(Start2(kernel)) else
    var s := Run2(kernel, a, enc, p[..|p| - 1]);
    if s.None? then None else Step2(kernel, a, Adjusted(kernel, a), enc, s.value, p[|p| - 1])
  }

  /** What the two passes agree on, and how the output grows with the offsets. */
  ghost predicate Agree(a: Pass1, b: Pass2) {
    && Sane1(a) && Sane2(b) && a.off == b.off && a.cur == b.cur && |a.locals| == b.file
    && (forall i :: 0 <= i < SECTIONS && i != Index(Bss) ==> |b.out[i]| == b.off[i])
    && b.out[Index(Bss)] == [] && b.bss == b.off[Index(Bss)]
  }

  lemma EmitAgree(a: Pass1, b: Pass2, bytes: seq<Byte>)
    requires Agree(a, b) && b.cur.Some? && b.cur.value != Bss
    ensures Agree(Count(a, |bytes|), Emit(b, bytes))
  {
  }

  lemma PadAgree(a: Pass1, b: Pass2, n: nat)
    requires Agree(a, b) && b.cur.Some?
    ensures Agree(Count(a, n), Pad(b, n))
  {
    if b.cur.value != Bss { EmitAgree(a, b, Zeros(n)); }
  }

  lemma StepAgree(kernel: bool, a: Pass1, last: Pass1, enc: Encoder, b: Pass2, st: Stmt)
    requires Agree(a, b) && Sane1(last)
    requires Step1(kernel, a, st).Some? && Step2(kernel, last, Adjusted(kernel, last), enc, b, st).Some?
    ensures Agree(Step1(kernel, a, st).value, Step2(kernel, last, Adjusted(kernel, last), enc, b, st).value)
  {
    hide Adjusted, IsPower, Base, Emit, Pad, Low;
    var t := Adjusted(kernel, last);
    match st
    case Origin(at) => PadAgree(a, b, at - b.off[Index(Implicit)]);
    case Space(n) => PadAgree(a, b, n);
    case Align(x) => PadAgree(a, b, AlignUp(b.off[Index(b.cur.value)], x) - b.off[Index(b.cur.value)]);
    case Fill(x) => EmitAgree(a, b, Low(Value(t, b.file, x).value, 4));
    case Fild(v) => EmitAgree(a, b, Low(v, 2));
    case Filb(v) => EmitAgree(a, b, Low(v, 1));
    case Instr(op, x) =>
      var w := enc(op, Value(t, b.file, x).value, LoadBase(kernel, last, b.cur.value) + b.off[Index(b.cur.value)]);
      EmitAgree(a, b, Low(w.value, 4));
    case _ =>
  }

  /** Before every statement the passes have counted the same bytes. */
  lemma {:induction false} InStep(kernel: bool, last: Pass1, enc: Encoder, p: seq<Stmt>)
    requires Sane1(last) && Run1(kernel, p).Some? && Run2(kernel, last, enc, p).Some?
    ensures Agree(Run1(kernel, p).value, Run2(kernel, last, enc, p).value)
  {
    hide Step1, Step2, Adjusted;
    if p != [] {
      var q, st := p[..|p| - 1], p[|p| - 1];
      InStep(kernel, last, enc, q);
      StepAgree(kernel, Run1(kernel, q).value, last, enc, Run2(kernel, last, enc, q).value, st);
    }
  }

  // ----- What stays as the passes go on -----

  lemma StepKeeps1(kernel: bool, s: Pass1, st: Stmt)
    requires Sane1(s) && Step1(kernel, s, st).Some?
    ensures var t := Step1(kernel, s, st).value;
            && |s.locals| <= |t.locals|
            && (forall f, n :: 0 <= f < |s.locals| && n in s.locals[f] ==>
                n in t.locals[f] && t.locals[f][n] == s.locals[f][n])
            && (forall n :: n in s.globals && s.globals[n].Some? ==> n in t.globals && t.globals[n] == s.globals[n])
  {
    hide AlignUp, IsPower;
  }

  lemma {:induction false} Keeps1(kernel: bool, p: seq<Stmt>, i: nat)
    requires i <= |p| && Run1(kernel, p).Some?
    ensures Run1(kernel, p[..i]).Some?
    ensures var s, t := Run1(kernel, p[..i]).value, Run1(kernel, p).value;
            && |s.locals| <= |t.locals|
            && (forall f, n :: 0 <= f < |s.locals| && n in s.locals[f] ==>
                n in t.locals[f] && t.locals[f][n] == s.locals[f][n])
            && (forall n :: n in s.globals && s.globals[n].Some? ==> n in t.globals && t.globals[n] == s.globals[n])
    decreases |p|
  {
    hide Step1;
    if i == |p| {
      assert p[..i] == p;
    } else {
      var q := p[..|p| - 1];
      assert q[..i] == p[..i];
      Keeps1(kernel, q, i);
      StepKeeps1(kernel, Run1(kernel, q).value, p[|p| - 1]);
    }
  }

  lemma StepKeeps2(kernel: bool, a: Pass1, enc: Encoder, s: Pass2, st: Stmt)
    requires Sane1(a) && Sane2(s) && Step2(kernel, a, Adjusted(kernel, a), enc, s, st).Some?
    ensures var t := Step2(kernel, a, Adjusted(kernel, a), enc, s, st).value;
            forall k :: 0 <= k < SECTIONS ==> s.out[k] <= t.out[k]
  {
    hide AlignUp, IsPower, Adjusted, LoadBase, Value;
  }

  lemma {:induction false} Keeps2(kernel: bool, a: Pass1, enc: Encoder, p: seq<Stmt>, i: nat)
    requires Sane1(a) && i <= |p| && Run2(kernel, a, enc, p).Some?
    ensures Run2(kernel, a, enc, p[..i]).Some?
    ensures var s, t := Run2(kernel, a, enc, p[..i]).value, Run2(kernel, a, enc, p).value;
            forall k :: 0 <= k < SECTIONS ==> s.out[k] <= t.out[k]
    decreases |p|
  {
    hide Step2, Adjusted;
    if i == |p| {
      assert p[..i] == p;
    } else {
      var q := p[..|p| - 1];
      assert q[..i] == p[..i];
      Keeps2(kernel, a, enc, q, i);
      StepKeeps2(kernel, a, enc, Run2(kernel, a, enc, q).value, p[|p| - 1]);
    }
  }

  // ----- What a successful assembly guarantees -----

  const START: Name := "_start"

  /** Both passes succeed, and a user program exports its entry point. */
  ghost predicate Assembles(kernel: bool, enc: Encoder, p: seq<Stmt>) {
    && Run1(kernel, p).Some? && Run2(kernel, Run1(kernel, p).value, enc, p).Some?
    && (!kernel ==> START in Adjusted(kernel, Run1(kernel, p).value).globals)
  }

  /** The state of the second pass before statement `i`, and at the end. */
  ghost function Before(kernel: bool, enc: Encoder, p: seq<Stmt>, i: nat): (s: Pass2)
    requires i <= |p| && Assembles(kernel, enc, p)
    ensures Sane2(s)
  {
    Keeps2(kernel, Run1(kernel, p).value, enc, p, i);
    Run2(kernel, Run1(kernel, p).value, enc, p[..i]).value
  }

  lemma DefinesHere(kernel: bool, s: Pass1, n: Name)
    requires Sane1(s) && Step1(kernel, s, Label(n)).Some?
    ensures s.cur.Some? && |s.locals| > 0 && n !in s.locals[|s.locals| - 1]
    ensures var t, f, place := Step1(kernel, s, Label(n)).value, |s.locals| - 1,
            Place(s.cur.value, s.off[Index(s.cur.value)]);
            && |t.locals| == |s.locals| && n in t.locals[f] && t.locals[f][n] == place
            && (n in s.exports[f] ==> n in t.globals && t.globals[n] == Some(place))
  {
  }

  /** A label has the address at which the second pass is when it comes to it, and the next byte
      that it emits into that section goes there. */
  lemma LabelIsHere(kernel: bool, enc: Encoder, p: seq<Stmt>, i: nat)
    requires Assembles(kernel, enc, p) && i < |p| && p[i].Label?
    ensures var a, b, c := Run1(kernel, p).value, Before(kernel, enc, p, |p|), Before(kernel, enc, p, i);
            && c.cur.Some? && 0 < c.file <= |a.locals| == |Adjusted(kernel, a).locals|
            && p[i].name in Adjusted(kernel, a).locals[c.file - 1]
            && Adjusted(kernel, a).locals[c.file - 1][p[i].name] ==
              LoadBase(kernel, a, c.cur.value) + c.off[Index(c.cur.value)]
            && (c.cur.value != Bss ==> |c.out[Index(c.cur.value)]| == c.off[Index(c.cur.value)])
            && c.out[Index(c.cur.value)] <= b.out[Index(c.cur.value)]
  {
    hide Step1, Step2, Adjusted, Base, Run1;
    var a := Run1(kernel, p).value;
    assert p[..|p|] == p;
    LabelPlace(kernel, p, i);
    Keeps2(kernel, a, enc, p, i);
    InStep(kernel, a, enc, p[..i]);
    AdjustedLocal(kernel, a, Before(kernel, enc, p, i).file - 1, p[i].name);
  }

  /** The first pass has entered a label where it was when it came to it. */
  lemma LabelPlace(kernel: bool, p: seq<Stmt>, i: nat)
    requires Run1(kernel, p).Some? && i < |p| && p[i].Label?
    ensures Run1(kernel, p[..i]).Some?
    ensures var s, t := Run1(kernel, p[..i]).value, Run1(kernel, p).value;
            && s.cur.Some? && 0 < |s.locals| <= |t.locals| && p[i].name in t.locals[|s.locals| - 1]
            && t.locals[|s.locals| - 1][p[i].name] == Place(s.cur.value, s.off[Index(s.cur.value)])
  {
    hide Step1;
    Keeps1(kernel, p, i);
    Keeps1(kernel, p, i + 1);
    assert p[..i + 1][..i] == p[..i] && p[..i + 1][i] == p[i];
    DefinesHere(kernel, Run1(kernel, p[..i]).value, p[i].name);
  }

  lemma AdjustedLocal(kernel: bool, a: Pass1, f: nat, n: Name)
    requires Sane1(a) && f < |a.locals| && n in a.locals[f]
    ensures |Adjusted(kernel, a).locals| == |a.locals|
    ensures n in Adjusted(kernel, a).locals[f] && Adjusted(kernel, a).locals[f][n] == Address(kernel, a, a.locals[f][n])
  {
  }

  /** The second pass emits exactly as many bytes as the first has counted, in every section. */
  lemma SameSizes(kernel: bool, enc: Encoder, p: seq<Stmt>, s: Section)
    requires Assembles(kernel, enc, p)
    ensures var a, b := Run1(kernel, p).value, Run2(kernel, Run1(kernel, p).value, enc, p).value;
            && b.off == a.off && (s != Bss ==> |b.out[Index(s)]| == a.off[Index(s)]) && b.bss == a.off[Index(Bss)]
  {
    InStep(kernel, Run1(kernel, p).value, enc, p);
  }

  // ----- Exported labels -----

  ghost predicate Exported(s: Pass1, f: int, n: Name)
    requires Sane1(s)
  {
    0 <= f < |s.locals| && n in s.locals[f] && n in s.exports[f]
  }

  /** A name has a global place if and only if some file defines and exports it; that file is
      the only one, and the place is its own. */
  ghost predicate GlobalOk(s: Pass1, n: Name)
    requires Sane1(s)
  {
    && (n in s.globals && s.globals[n].Some? ==> exists f :: Exported(s, f, n))
    && (forall f :: Exported(s, f, n) ==> n in s.globals && s.globals[n] == Some(s.locals[f][n]))
    && (forall f, g :: Exported(s, f, n) && Exported(s, g, n) ==> f == g)
  }

  lemma DefineGlobal(s: Pass1, m: Name, n: Name)
    requires Sane1(s) && GlobalOk(s, n) && s.cur.Some? && Define(s, m).Some?
    ensures GlobalOk(Define(s, m).value, n)
  {
    var t, f := Define(s, m).value, |s.locals| - 1;
    assert forall g :: 0 <= g < |s.locals| && g != f ==> (Exported(t, g, n) <==> Exported(s, g, n));
    assert Exported(s, f, n) ==> Exported(t, f, n);
    if n in t.globals && t.globals[n].Some? {
      if n in s.globals && s.globals[n].Some? {
        var g :| Exported(s, g, n);
        assert Exported(t, g, n);
      } else {
        assert Exported(t, f, n);
      }
    }
  }

  lemma ExportGlobal(s: Pass1, m: Name, n: Name)
    requires Sane1(s) && GlobalOk(s, n) && Export(s, m).Some?
    ensures GlobalOk(Export(s, m).value, n)
  {
    var t, f := Export(s, m).value, |s.locals| - 1;
    assert forall g :: 0 <= g < |s.locals| && g != f ==> (Exported(t, g, n) <==> Exported(s, g, n));
    assert Exported(s, f, n) ==> Exported(t, f, n);
    if n in t.globals && t.globals[n].Some? {
      if n in s.globals && s.globals[n].Some? {
        var g :| Exported(s, g, n);
        assert Exported(t, g, n);
      } else {
        assert Exported(t, f, n);
      }
    }
  }

  lemma FileGlobal(s: Pass1, t: Pass1, n: Name)
    requires Sane1(s) && GlobalOk(s, n) && Sane1(t) && t.globals == s.globals
    requires (t.locals == s.locals && t.exports == s.exports) ||
             (t.locals == s.locals + [map[]] && t.exports == s.exports + [{}])
    ensures GlobalOk(t, n)
  {
    assert forall g :: Exported(t, g, n) <==> Exported(s, g, n);
  }

  lemma GlobalStep(kernel: bool, s: Pass1, st: Stmt, n: Name)
    requires Sane1(s) && GlobalOk(s, n) && Step1(kernel, s, st).Some?
    ensures GlobalOk(Step1(kernel, s, st).value, n)
  {
    hide AlignUp, IsPower, Define, Export, GlobalOk;
    match st
    case Label(m) => DefineGlobal(s, m, n);
    case Global(m) => ExportGlobal(s, m, n);
    case _ => FileGlobal(s, Step1(kernel, s, st).value, n);
  }

  lemma {:induction false} GlobalsOk(kernel: bool, p: seq<Stmt>, n: Name)
    requires Run1(kernel, p).Some?
    ensures GlobalOk(Run1(kernel, p).value, n)
  {
    hide Step1;
    if p != [] {
      GlobalsOk(kernel, p[..|p| - 1], n);
      GlobalStep(kernel, Run1(kernel, p[..|p| - 1]).value, p[|p| - 1], n);
    }
  }

  lemma LocalStep(kernel: bool, s: Pass1, st: Stmt, f: nat, n: Name)
    requires Sane1(s) && Step1(kernel, s, st).Some?
    requires var t := Step1(kernel, s, st).value;
             f < |t.locals| && n in t.locals[f] && (f < |s.locals| ==> n !in s.locals[f])
    ensures st == Label(n) && f == |s.locals| - 1
  {
    hide AlignUp, IsPower;
  }

  /** Every label in a table was put there by a statement of its file. */
  lemma {:induction false} LocalFrom(kernel: bool, p: seq<Stmt>, f: nat, n: Name) returns (i: nat)
    requires Run1(kernel, p).Some? && f < |Run1(kernel, p).value.locals| && n in Run1(kernel, p).value.locals[f]
    ensures i < |p| && p[i] == Label(n) && Run1(kernel, p[..i]).Some? && |Run1(kernel, p[..i]).value.locals| == f + 1
  {
    hide Step1;
    var q, st := p[..|p| - 1], p[|p| - 1];
    var s := Run1(kernel, q).value;
    if f < |s.locals| && n in s.locals[f] {
      i := LocalFrom(kernel, q, f, n);
      assert q[..i] == p[..i];
    } else {
      LocalStep(kernel, s, st, f, n);
      i := |p| - 1;
    }
  }

  /** A label is in the table of its file from the statement after its own. */
  lemma LabelStays(kernel: bool, p: seq<Stmt>, i: nat, j: nat)
    requires Run1(kernel, p).Some? && i < j <= |p| && p[i].Label?
    ensures Run1(kernel, p[..i]).Some? && Run1(kernel, p[..j]).Some?
    ensures var f := |Run1(kernel, p[..i]).value.locals|;
            0 < f <= |Run1(kernel, p[..j]).value.locals| && p[i].name in Run1(kernel, p[..j]).value.locals[f - 1]
  {
    hide Step1;
    Keeps1(kernel, p, i);
    Keeps1(kernel, p, j);
    Keeps1(kernel, p, i + 1);
    assert p[..j][..i + 1] == p[..i + 1] && p[..i + 1][..i] == p[..i];
    Keeps1(kernel, p[..j], i + 1);
    DefinesHere(kernel, Run1(kernel, p[..i]).value, p[i].name);
  }

  /** A file has a label once. */
  lemma LabelOnce(kernel: bool, p: seq<Stmt>, i: nat, j: nat)
    requires Run1(kernel, p).Some? && i < j < |p| && p[i].Label? && p[i] == p[j]
    ensures Run1(kernel, p[..i]).Some? && Run1(kernel, p[..j]).Some?
    ensures |Run1(kernel, p[..i]).value.locals| != |Run1(kernel, p[..j]).value.locals|
  {
    hide Step1;
    LabelStays(kernel, p, i, j);
    Keeps1(kernel, p, j + 1);
    assert p[..j + 1][..j] == p[..j];
    DefinesHere(kernel, Run1(kernel, p[..j]).value, p[j].name);
  }

  /** The address at which the second pass is when it comes to statement `j`. */
  ghost function AddressAt(kernel: bool, enc: Encoder, p: seq<Stmt>, j: nat): int
    requires j <= |p| && Assembles(kernel, enc, p)
  {
    var c := Before(kernel, enc, p, j);
    if c.cur.None? then -1 else LoadBase(kernel, Run1(kernel, p).value, c.cur.value) + c.off[Index(c.cur.value)]
  }

  /** Statement `j` defines `n`, in a file that exports it. */
  ghost predicate DefinesGlobal(kernel: bool, enc: Encoder, p: seq<Stmt>, j: nat, n: Name)
    requires Assembles(kernel, enc, p)
  {
    && j < |p| && p[j] == Label(n)
    && Exported(Run1(kernel, p).value, Before(kernel, enc, p, j).file - 1, n)
  }

  /** Statement `j` defines `n` in the file of statement `i`. */
  ghost predicate DefinesLocal(kernel: bool, enc: Encoder, p: seq<Stmt>, i: nat, j: nat, n: Name)
    requires Assembles(kernel, enc, p) && i <= |p|
  {
    j < |p| && p[j] == Label(n) && Before(kernel, enc, p, j).file == Before(kernel, enc, p, i).file
  }

  lemma FileAt(kernel: bool, enc: Encoder, p: seq<Stmt>, i: nat)
    requires Assembles(kernel, enc, p) && i <= |p|
    ensures Run1(kernel, p[..i]).Some? &&
            Before(kernel, enc, p, i).file == |Run1(kernel, p[..i]).value.locals| <= |Run1(kernel, p).value.locals|
  {
    hide Step1, Step2, Adjusted;
    Keeps1(kernel, p, i);
    Keeps2(kernel, Run1(kernel, p).value, enc, p, i);
    InStep(kernel, Run1(kernel, p).value, enc, p[..i]);
  }

  lemma AdjustedGlobal(kernel: bool, a: Pass1, n: Name)
    requires Sane1(a)
    ensures n in Adjusted(kernel, a).globals <==> n in a.globals && a.globals[n].Some?
    ensures n in Adjusted(kernel, a).globals ==>
            Adjusted(kernel, a).globals[n] == Address(kernel, a, a.globals[n].value)
  {
  }

  /** The exported labels: a name is in the table of all files if and only if a statement in a
      file that exports it defines it; there is one such statement, and the table has the
      address at which the second pass comes to it. */
  lemma GlobalIsHere(kernel: bool, enc: Encoder, p: seq<Stmt>, n: Name, j: nat)
    requires Assembles(kernel, enc, p)
    ensures var t := Adjusted(kernel, Run1(kernel, p).value);
            && (n in t.globals <==> exists i: nat :: DefinesGlobal(kernel, enc, p, i, n))
            && (DefinesGlobal(kernel, enc, p, j, n) ==> t.globals[n] == AddressAt(kernel, enc, p, j))
    ensures forall i: nat :: DefinesGlobal(kernel, enc, p, i, n) && DefinesGlobal(kernel, enc, p, j, n) ==> i == j
  {
    hide Step1, Step2, Adjusted, Base, Run1, Run2;
    var a := Run1(kernel, p).value;
    GlobalsOk(kernel, p, n);
    AdjustedGlobal(kernel, a, n);
    if n in a.globals && a.globals[n].Some? {
      var f :| Exported(a, f, n);
      var i := LocalFrom(kernel, p, f, n);
      FileAt(kernel, enc, p, i);
      assert DefinesGlobal(kernel, enc, p, i, n);
    }
    forall i: nat | DefinesGlobal(kernel, enc, p, i, n)
      ensures n in Adjusted(kernel, a).globals && Adjusted(kernel, a).globals[n] == AddressAt(kernel, enc, p, i)
    {
      LabelIsHere(kernel, enc, p, i);
      AdjustedLocal(kernel, a, Before(kernel, enc, p, i).file - 1, n);
    }
    forall i: nat | DefinesGlobal(kernel, enc, p, i, n) && DefinesGlobal(kernel, enc, p, j, n) ensures i == j {
      FileAt(kernel, enc, p, i);
      FileAt(kernel, enc, p, j);
      if i < j { LabelOnce(kernel, p, i, j); } else if j < i { LabelOnce(kernel, p, j, i); }
    }
  }

  /** The entry point of a user program is its one exported label `_start`. */
  lemma EntryPoint(enc: Encoder, p: seq<Stmt>) returns (j: nat)
    requires Assembles(false, enc, p)
    ensures DefinesGlobal(false, enc, p, j, START)
    ensures START in Adjusted(false, Run1(false, p).value).globals
    ensures Adjusted(false, Run1(false, p).value).globals[START] == AddressAt(false, enc, p, j)
  {
    hide Adjusted, DefinesGlobal;
    GlobalIsHere(false, enc, p, START, 0);
    j :| DefinesGlobal(false, enc, p, j, START);
    GlobalIsHere(false, enc, p, START, j);
  }

  /** Which definition a reference to `n` in statement `i` means: that of the file itself, or
      else that of the file which exports `n`. */
  ghost predicate Means(kernel: bool, enc: Encoder, p: seq<Stmt>, i: nat, n: Name, j: nat)
    requires Assembles(kernel, enc, p) && i <= |p|
  {
    DefinesLocal(kernel, enc, p, i, j, n) ||
    (DefinesGlobal(kernel, enc, p, j, n) && forall k: nat :: !DefinesLocal(kernel, enc, p, i, k, n))
  }

  lemma LocalIsHere(kernel: bool, enc: Encoder, p: seq<Stmt>, i: nat, n: Name)
    requires Assembles(kernel, enc, p) && i <= |p|
    ensures var t, f := Adjusted(kernel, Run1(kernel, p).value), Before(kernel, enc, p, i).file;
            && (0 < f <= |t.locals| && n in t.locals[f - 1] <==> exists j: nat :: DefinesLocal(kernel, enc, p, i, j, n))
            && (forall j: nat :: DefinesLocal(kernel, enc, p, i, j, n) ==>
                  0 < f <= |t.locals| && n in t.locals[f - 1] && t.locals[f - 1][n] == AddressAt(kernel, enc, p, j))
  {
    hide Step1, Step2, Base;
    var a := Run1(kernel, p).value;
    var f := Before(kernel, enc, p, i).file;
    if 0 < f <= |a.locals| && n in a.locals[f - 1] {
      var j := LocalFrom(kernel, p, f - 1, n);
      FileAt(kernel, enc, p, j);
      assert DefinesLocal(kernel, enc, p, i, j, n);
    }
    forall j: nat | DefinesLocal(kernel, enc, p, i, j, n)
      ensures 0 < f <= |a.locals| && n in Adjusted(kernel, a).locals[f - 1] &&
              Adjusted(kernel, a).locals[f - 1][n] == AddressAt(kernel, enc, p, j)
    {
      LabelIsHere(kernel, enc, p, j);
    }
  }

  /** A reference has a value if and only if it means some definition, and then the value is the
      address of that definition; there is only one. */
  lemma Resolves(kernel: bool, enc: Encoder, p: seq<Stmt>, i: nat, n: Name, j: nat)
    requires Assembles(kernel, enc, p) && i <= |p|
    ensures var v := Value(Adjusted(kernel, Run1(kernel, p).value), Before(kernel, enc, p, i).file, Ref(n));
            && (v.Some? <==> exists k: nat :: Means(kernel, enc, p, i, n, k))
            && (Means(kernel, enc, p, i, n, j) ==> j < |p| && v == Some(AddressAt(kernel, enc, p, j)))
  {
    assert Means(kernel, enc, p, i, n, j) ==> j < |p|;
    hide DefinesLocal, DefinesGlobal, Adjusted, AddressAt;
    LocalIsHere(kernel, enc, p, i, n);
    GlobalIsHere(kernel, enc, p, n, j);
    var t := Adjusted(kernel, Run1(kernel, p).value);
    var v := Value(t, Before(kernel, enc, p, i).file, Ref(n));
    if v.Some? {
      if exists k: nat :: DefinesLocal(kernel, enc, p, i, k, n) {
        var k: nat :| DefinesLocal(kernel, enc, p, i, k, n);
        assert Means(kernel, enc, p, i, n, k);
      } else {
        var k: nat :| DefinesGlobal(kernel, enc, p, k, n);
        assert Means(kernel, enc, p, i, n, k);
      }
    }
  }

  lemma FillStep(kernel: bool, a: Pass1, t: Tables, enc: Encoder, s: Pass2, x: Operand)
    requires Sane1(a) && Sane2(s) && Step2(kernel, a, t, enc, s, Fill(x)).Some?
    ensures s.cur.Some? && s.cur.value != Bss && Value(t, s.file, x).Some?
    ensures Step2(kernel, a, t, enc, s, Fill(x)).value.out[Index(s.cur.value)] ==
            s.out[Index(s.cur.value)] + Low(Value(t, s.file, x).value, 4)
  {
    hide Low, Value;
  }

  lemma InstrStep(kernel: bool, a: Pass1, t: Tables, enc: Encoder, s: Pass2, op: nat, x: Operand)
    requires Sane1(a) && Sane2(s) && Step2(kernel, a, t, enc, s, Instr(op, x)).Some?
    ensures s.cur.Some? && s.cur.value != Bss && Value(t, s.file, x).Some?
    ensures var w := enc(op, Value(t, s.file, x).value, LoadBase(kernel, a, s.cur.value) + s.off[Index(s.cur.value)]);
            w.Some? && Step2(kernel, a, t, enc, s, Instr(op, x)).value.out[Index(s.cur.value)] ==
              s.out[Index(s.cur.value)] + Low(w.value, 4)
  {
    hide Low, Value, LoadBase;
  }

  /** What statement `i` has emitted is in the output, at its place. */
  lemma Emitted(kernel: bool, enc: Encoder, p: seq<Stmt>, i: nat, k: nat, w: seq<Byte>)
    requires Assembles(kernel, enc, p) && i < |p| && Before(kernel, enc, p, i).cur.Some?
    requires k == Index(Before(kernel, enc, p, i).cur.value) && k != Index(Bss)
    requires Before(kernel, enc, p, i + 1).out[k] == Before(kernel, enc, p, i).out[k] + w
    ensures var b, at := Before(kernel, enc, p, |p|), Before(kernel, enc, p, i).off[k];
            at + |w| <= |b.out[k]| && b.out[k][at..at + |w|] == w
  {
    hide Step1, Step2, Adjusted;
    var a := Run1(kernel, p).value;
    assert p[..|p|] == p;
    Keeps1(kernel, p, i);
    Keeps2(kernel, a, enc, p, i);
    Keeps2(kernel, a, enc, p, i + 1);
    InStep(kernel, a, enc, p[..i]);
    assert Before(kernel, enc, p, i + 1).out[k] <= Before(kernel, enc, p, |p|).out[k];
  }

  /** A word filled with a label holds, in the output, the address of the definition that the
      label means, in this file or another. */
  lemma FillsAddress(kernel: bool, enc: Encoder, p: seq<Stmt>, i: nat) returns (j: nat)
    requires Assembles(kernel, enc, p) && i < |p| && p[i].Fill? && p[i].operand.Ref?
    ensures Means(kernel, enc, p, i, p[i].operand.name, j) && Before(kernel, enc, p, i).cur.Some?
    ensures var b, c := Before(kernel, enc, p, |p|), Before(kernel, enc, p, i);
            var k, at := Index(c.cur.value), c.off[Index(c.cur.value)];
            at + 4 <= |b.out[k]| && b.out[k][at..at + 4] == Low(AddressAt(kernel, enc, p, j), 4)
  {
    hide Step1, Step2, Adjusted, Base, Low, Means;
    var a, c := Run1(kernel, p).value, Before(kernel, enc, p, i);
    Keeps2(kernel, a, enc, p, i);
    Keeps2(kernel, a, enc, p, i + 1);
    assert p[..i + 1][..i] == p[..i] && p[..i + 1][i] == p[i];
    FillStep(kernel, a, Adjusted(kernel, a), enc, c, p[i].operand);
    Resolves(kernel, enc, p, i, p[i].operand.name, 0);
    j :| Means(kernel, enc, p, i, p[i].operand.name, j);
    Resolves(kernel, enc, p, i, p[i].operand.name, j);
    Emitted(kernel, enc, p, i, Index(c.cur.value), Low(AddressAt(kernel, enc, p, j), 4));
  }

  /** An instruction that names a label is encoded with the address of the definition that the
      label means, at its own address. */
  lemma EncodesAddress(kernel: bool, enc: Encoder, p: seq<Stmt>, i: nat) returns (j: nat)
    requires Assembles(kernel, enc, p) && i < |p| && p[i].Instr? && p[i].operand.Ref?
    ensures Means(kernel, enc, p, i, p[i].operand.name, j) && Before(kernel, enc, p, i).cur.Some?
    ensures var b, c := Before(kernel, enc, p, |p|), Before(kernel, enc, p, i);
            var k, at := Index(c.cur.value), c.off[Index(c.cur.value)];
            var w := enc(p[i].op, AddressAt(kernel, enc, p, j), AddressAt(kernel, enc, p, i));
            AddressAt(kernel, enc, p, i) >= 0 && w.Some? && at + 4 <= |b.out[k]| &&
              b.out[k][at..at + 4] == Low(w.value, 4)
  {
    hide Step1, Step2, Adjusted, Base, Low, Means;
    var a, c := Run1(kernel, p).value, Before(kernel, enc, p, i);
    Keeps2(kernel, a, enc, p, i);
    Keeps2(kernel, a, enc, p, i + 1);
    assert p[..i + 1][..i] == p[..i] && p[..i + 1][i] == p[i];
    InstrStep(kernel, a, Adjusted(kernel, a), enc, c, p[i].op, p[i].operand);
    Resolves(kernel, enc, p, i, p[i].operand.name, 0);
    j :| Means(kernel, enc, p, i, p[i].operand.name, j);
    Resolves(kernel, enc, p, i, p[i].operand.name, j);
    var w := enc(p[i].op, AddressAt(kernel, enc, p, j), AddressAt(kernel, enc, p, i));
    Emitted(kernel, enc, p, i, Index(c.cur.value), Low(w.value, 4));
  }
}
