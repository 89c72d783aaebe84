/** What a program says, read off its statements: in which section and file a statement is, how many
    bytes are in front of it, and where the sections go.  The two passes of the assembler accept
    exactly the programs that are right by this reading, and put everything where it says. */
module AssemblerText {
  import opened Words
  import opened ByteWords
  import opened Assembler

  // ----- Reading a program -----

  /** The section behind the statements `p`. */
  function SectionOf(kernel: bool, p: seq<Stmt>): Option<Section> {
    if p == [] then if kernel then Some(Implicit) else None
    else if p[|p| - 1].Enter? then Some(p[|p| - 1].section)
    else SectionOf(kernel, p[..|p| - 1])
  }

  /** How many files have been begun. */
  function FilesIn(p: seq<Stmt>): nat {
    if p == [] then 0 else FilesIn(p[..|p| - 1]) + if p[|p| - 1].NewFile? then 1 else 0
  }

  /** Where a section with `n` bytes ends once the statement has been put into it. */
  function EndOf(st: Stmt, n: nat): nat {
    match st
    case Fill(_) => n + 4
    case Fild(_) => n + 2
    case Filb(_) => n + 1
    case Instr(_, _) => n + 4
    case Space(k) => n + k
    case Align(a) => if a > 0 then AlignUp(n, a) else n
    case Origin(at) => if at > n then at else n
    case _ => n
  }

  /** How many bytes of a section there are. */
  function BytesIn(kernel: bool, p: seq<Stmt>, sec: Section): nat {
    if p == [] then 0 else
    var n := BytesIn(kernel, p[..|p| - 1], sec);
    if SectionOf(kernel, p[..|p| - 1]) == Some(sec) then EndOf(p[|p| - 1], n) else n
  }

  /** File number `f`, counted from 1, has the statement `st`. */
  ghost predicate HasIn(p: seq<Stmt>, f: int, st: Stmt) {
    exists i :: 0 <= i < |p| && p[i] == st && FilesIn(p[..i]) == f
  }

  /** File `f` defines and exports `n`. */
  ghost predicate Offers(p: seq<Stmt>, f: int, n: Name) {
    HasIn(p, f, Label(n)) && HasIn(p, f, Global(n))
  }

  lemma HasMore(p: seq<Stmt>, f: int, st: Stmt)
    requires p != []
    ensures HasIn(p, f, st) <==>
            HasIn(p[..|p| - 1], f, st) || (p[|p| - 1] == st && FilesIn(p[..|p| - 1]) == f)
  {
    var q := p[..|p| - 1];
    if HasIn(p, f, st) {
      var i :| 0 <= i < |p| && p[i] == st && FilesIn(p[..i]) == f;
      if i < |q| { assert q[i] == st && q[..i] == p[..i]; }
    }
    if HasIn(q, f, st) {
      var i :| 0 <= i < |q| && q[i] == st && FilesIn(q[..i]) == f;
      assert p[i] == st && q[..i] == p[..i];
    }
    assert p[|p| - 1] == st && FilesIn(q) == f ==> HasIn(p, f, st);
  }

  lemma {:induction false} HasRange(p: seq<Stmt>, f: int, st: Stmt)
    requires HasIn(p, f, st)
    ensures 0 <= f <= FilesIn(p)
    decreases |p|
  {
    HasMore(p, f, st);
    if HasIn(p[..|p| - 1], f, st) { HasRange(p[..|p| - 1], f, st); }
  }

  // ----- The first pass reads the same -----

  ghost predicate ReadsPlace(kernel: bool, p: seq<Stmt>, s: Pass1) {
    && Sane1(s) && s.cur == SectionOf(kernel, p) && |s.locals| == FilesIn(p)
    && (forall sec :: s.off[Index(sec)] == BytesIn(kernel, p, sec))
  }

  ghost predicate ReadsNames(p: seq<Stmt>, s: Pass1, f: nat, n: Name) {
    && Sane1(s) && |s.locals| == FilesIn(p)
    && (f < |s.locals| ==> (n in s.locals[f] <==> HasIn(p, f + 1, Label(n))))
    && (f < |s.locals| ==> (n in s.exports[f] <==> HasIn(p, f + 1, Global(n))))
  }

  ghost predicate ReadsLoad(p: seq<Stmt>, s: Pass1, sec: Section) {
    (sec in s.load ==> Load(sec, s.load[sec]) in p) &&
    (forall x :: Load(sec, x) in p ==> sec in s.load && s.load[sec] == x)
  }

  /** A statement puts its bytes into the section, and into no other. */
  lemma OffStep(kernel: bool, s: Pass1, st: Stmt, sec: Section)
    requires Sane1(s) && Step1(kernel, s, st).Some?
    ensures var t := Step1(kernel, s, st).value;
            && t.off[Index(sec)] ==
               (if s.cur == Some(sec) then EndOf(st, s.off[Index(sec)]) else s.off[Index(sec)])
            && t.cur == (if st.Enter? then Some(st.section) else s.cur)
            && |t.locals| == |s.locals| + if st.NewFile? then 1 else 0
  {
    hide IsPower, AlignUp;
    assert s.cur.Some? && s.cur != Some(sec) ==> Index(s.cur.value) != Index(sec);
    assert Implicit != sec ==> Index(Implicit) != Index(sec);
  }

  lemma PlaceStep(kernel: bool, p: seq<Stmt>, s: Pass1)
    requires p != [] && ReadsPlace(kernel, p[..|p| - 1], s) && Step1(kernel, s, p[|p| - 1]).Some?
    ensures ReadsPlace(kernel, p, Step1(kernel, s, p[|p| - 1]).value)
  {
    hide Step1, EndOf, Index;
    OffStep(kernel, s, p[|p| - 1], Text);
    forall sec ensures Step1(kernel, s, p[|p| - 1]).value.off[Index(sec)] == BytesIn(kernel, p, sec) {
      OffStep(kernel, s, p[|p| - 1], sec);
    }
  }

  lemma NamesStep(kernel: bool, p: seq<Stmt>, s: Pass1, f: nat, n: Name)
    requires p != [] && ReadsNames(p[..|p| - 1], s, f, n) && Step1(kernel, s, p[|p| - 1]).Some?
    ensures ReadsNames(p, Step1(kernel, s, p[|p| - 1]).value, f, n)
  {
    hide AlignUp, IsPower, HasIn, FilesIn;
    HasMore(p, f + 1, Label(n));
    HasMore(p, f + 1, Global(n));
    FilesStep(p);
    NotYet(p[..|p| - 1], Label(n));
    NotYet(p[..|p| - 1], Global(n));
  }

  lemma FilesStep(p: seq<Stmt>)
    requires p != []
    ensures FilesIn(p) == FilesIn(p[..|p| - 1]) + if p[|p| - 1].NewFile? then 1 else 0
  {
  }

  /** A file that has not been begun has no statements. */
  lemma NotYet(p: seq<Stmt>, st: Stmt)
    ensures !HasIn(p, FilesIn(p) + 1, st)
  {
    if HasIn(p, FilesIn(p) + 1, st) { HasRange(p, FilesIn(p) + 1, st); }
  }

  lemma LoadStep(kernel: bool, p: seq<Stmt>, s: Pass1, sec: Section)
    requires p != [] && Sane1(s) && ReadsLoad(p[..|p| - 1], s, sec) && Step1(kernel, s, p[|p| - 1]).Some?
    ensures ReadsLoad(p, Step1(kernel, s, p[|p| - 1]).value, sec)
  {
    hide AlignUp, IsPower;
    assert p == p[..|p| - 1] + [p[|p| - 1]];
  }

  /** The first pass knows the section, the file, the sizes, the labels and exports of every file,
      and the load addresses, as the statements give them. */
  lemma {:induction false} FirstPassReads(kernel: bool, p: seq<Stmt>, f: nat, n: Name, sec: Section)
    requires Run1(kernel, p).Some?
    ensures var s := Run1(kernel, p).value;
            ReadsPlace(kernel, p, s) && ReadsNames(p, s, f, n) && ReadsLoad(p, s, sec)
    decreases |p|
  {
    hide Step1, ReadsPlace, ReadsNames, ReadsLoad;
    if p == [] {
      StartReads(kernel, f, n, sec);
    } else {
      var s := Run1(kernel, p[..|p| - 1]).value;
      FirstPassReads(kernel, p[..|p| - 1], f, n, sec);
      PlaceStep(kernel, p, s);
      NamesStep(kernel, p, s, f, n);
      LoadStep(kernel, p, s, sec);
    }
  }

  lemma StartReads(kernel: bool, f: nat, n: Name, sec: Section)
    ensures ReadsPlace(kernel, [], Start1(kernel)) && ReadsNames([], Start1(kernel), f, n) &&
            ReadsLoad([], Start1(kernel), sec)
  {
  }

  // ----- What the first pass accepts -----

  /** Text, rodata, data and bss; and in the kernel what comes before any of them. */
  predicate Usable(kernel: bool, sec: Option<Section>) {
    sec == Some(Text) || sec == Some(Rodata) || sec == Some(Data) || sec == Some(Bss) ||
    (kernel && sec == Some(Implicit))
  }

  predicate HoldsBytes(kernel: bool, sec: Option<Section>) {
    sec == Some(Text) || sec == Some(Rodata) || sec == Some(Data) || (kernel && sec == Some(Implicit))
  }

  ghost predicate PowerOfTwo(a: nat) {
    exists k: nat :: a == Pow2(k)
  }

  /** Statement `st` is right behind the statements `q`. */
  ghost predicate Fits(kernel: bool, q: seq<Stmt>, st: Stmt) {
    var cur, f := SectionOf(kernel, q), FilesIn(q);
    match st
    case NewFile => true
    case Enter(_) => true
    case Label(n) =>
      Usable(kernel, cur) && f > 0 && !HasIn(q, f, Label(n)) &&
      (HasIn(q, f, Global(n)) ==> forall g :: !Offers(q, g, n))
    case Global(n) => f > 0 && (HasIn(q, f, Label(n)) ==> forall g :: !Offers(q, g, n))
    case Origin(at) => kernel && cur == Some(Implicit) && BytesIn(kernel, q, Implicit) <= at
    case Load(sec, a) =>
      kernel && a % 4 == 0 && BytesIn(kernel, q, sec) == 0 && forall x :: Load(sec, x) in q ==> x == a
    case Fill(_) => HoldsBytes(kernel, cur)
    case Fild(_) => HoldsBytes(kernel, cur)
    case Filb(_) => HoldsBytes(kernel, cur)
    case Space(_) => Usable(kernel, cur)
    case Align(a) => Usable(kernel, cur) && PowerOfTwo(a)
    case Instr(_, _) => HoldsBytes(kernel, cur) && BytesIn(kernel, q, cur.value) % 4 == 0
  }

  lemma {:induction false} PowerMeans(a: nat)
    ensures (IsPower(a) <==> PowerOfTwo(a)) && (IsPower(a) ==> a > 0)
  {
    if a == 1 {
      assert a == Pow2(0);
    } else if a > 1 && a % 2 == 0 {
      PowerMeans(a / 2);
      if PowerOfTwo(a / 2) {
        var k: nat :| a / 2 == Pow2(k);
        assert a == Pow2(k + 1);
      }
      if PowerOfTwo(a) {
        var k: nat :| a == Pow2(k);
        assert k > 0 && a / 2 == Pow2(k - 1);
      }
    } else {
      forall k: nat ensures a != Pow2(k) { assert k > 0 ==> Pow2(k) == 2 * Pow2(k - 1); }
    }
  }

  lemma OffersMeans(kernel: bool, q: seq<Stmt>, n: Name)
    requires Run1(kernel, q).Some?
    ensures var s := Run1(kernel, q).value;
            n in s.globals && s.globals[n].Some? <==> exists g :: Offers(q, g, n)
  {
    hide Run1, HasIn;
    var s := Run1(kernel, q).value;
    GlobalsOk(kernel, q, n);
    if n in s.globals && s.globals[n].Some? {
      var f :| Exported(s, f, n);
      FirstPassReads(kernel, q, f, n, Text);
      assert Offers(q, f + 1, n);
    }
    if exists g :: Offers(q, g, n) {
      var g :| Offers(q, g, n);
      HasRange(q, g, Label(n));
      InAFile(kernel, q, g, n);
      FirstPassReads(kernel, q, g - 1, n, Text);
      assert Exported(s, g - 1, n);
    }
  }

  /** No label is outside a file. */
  lemma {:induction false} InAFile(kernel: bool, p: seq<Stmt>, f: int, n: Name)
    requires Run1(kernel, p).Some? && HasIn(p, f, Label(n))
    ensures f > 0
    decreases |p|
  {
    assert p != [];
    hide HasIn;
    HasRange(p, f, Label(n));
    HasMore(p, f, Label(n));
    var q := p[..|p| - 1];
    if HasIn(q, f, Label(n)) {
      InAFile(kernel, q, f, n);
    } else {
      FirstPassReads(kernel, q, 0, n, Text);
    }
  }

  lemma FitsStep(kernel: bool, q: seq<Stmt>, st: Stmt)
    requires Run1(kernel, q).Some?
    ensures Step1(kernel, Run1(kernel, q).value, st).Some? <==> Fits(kernel, q, st)
  {
    hide Run1, AlignUp, IsPower, HasIn, BytesIn, SectionOf, FilesIn, Offers;
    var s := Run1(kernel, q).value;
    FirstPassReads(kernel, q, 0, "", Text);
    match st
    case Label(n) =>
      OffersMeans(kernel, q, n);
      if |s.locals| > 0 { FirstPassReads(kernel, q, |s.locals| - 1, n, Text); }
    case Global(n) =>
      OffersMeans(kernel, q, n);
      if |s.locals| > 0 { FirstPassReads(kernel, q, |s.locals| - 1, n, Text); }
    case Load(sec, _) => FirstPassReads(kernel, q, 0, "", sec);
    case Align(a) => PowerMeans(a);
    case _ =>
  }

  /** The first pass accepts a program if and only if every statement is right where it is. */
  lemma {:induction false} FirstPassAccepts(kernel: bool, p: seq<Stmt>)
    ensures Run1(kernel, p).Some? <==> forall i :: 0 <= i < |p| ==> Fits(kernel, p[..i], p[i])
    decreases |p|
  {
    hide Step1, Fits;
    if p != [] {
      var q := p[..|p| - 1];
      FirstPassAccepts(kernel, q);
      assert forall i :: 0 <= i < |q| ==> q[i] == p[i] && q[..i] == p[..i];
      if Run1(kernel, q).Some? { FitsStep(kernel, q, p[|p| - 1]); }
    }
  }

  // ----- What the second pass accepts -----

  /** A reference in file `f` has a definition: in the file, or one that another file offers. */
  ghost predicate Defined(p: seq<Stmt>, f: nat, x: Operand) {
    x.Ref? ==> HasIn(p, f, Label(x.name)) || exists g :: Offers(p, g, x.name)
  }

  /** Statement `i` of a program that the first pass has accepted can be emitted. */
  ghost predicate CanEmit(kernel: bool, enc: Encoder, p: seq<Stmt>, i: nat)
    requires i < |p| && Run1(kernel, p).Some?
  {
    var a, f, sec := Run1(kernel, p).value, FilesIn(p[..i]), SectionOf(kernel, p[..i]);
    match p[i]
    case Global(n) => exists g :: Offers(p, g, n)
    case Fill(x) => Defined(p, f, x)
    case Fild(v) => -0x8000 <= v < 0x1_0000
    case Filb(v) => -0x80 <= v < 0x100
    case Instr(op, x) =>
      var v := Value(Adjusted(kernel, a), f, x);
      && Defined(p, f, x) && v.Some? && sec.Some?
      && enc(op, v.value, LoadBase(kernel, a, sec.value) + BytesIn(kernel, p[..i], sec.value)).Some?
    case _ => true
  }

  lemma DefinedMeans(kernel: bool, p: seq<Stmt>, f: nat, x: Operand)
    requires Run1(kernel, p).Some? && f <= FilesIn(p)
    ensures Value(Adjusted(kernel, Run1(kernel, p).value), f, x).Some? <==> Defined(p, f, x)
  {
    hide Run1, HasIn, Adjusted, FilesIn;
    var a := Run1(kernel, p).value;
    if x.Ref? {
      var n := x.name;
      OffersMeans(kernel, p, n);
      AdjustedGlobal(kernel, a, n);
      AdjustedFiles(kernel, a, f, n);
      if HasIn(p, f, Label(n)) { InAFile(kernel, p, f, n); }
      if f > 0 { FirstPassReads(kernel, p, f - 1, n, Text); }
    }
  }

  lemma AdjustedFiles(kernel: bool, a: Pass1, f: nat, n: Name)
    requires Sane1(a)
    ensures |Adjusted(kernel, a).locals| == |a.locals|
    ensures 0 < f <= |a.locals| ==> (n in Adjusted(kernel, a).locals[f - 1] <==> n in a.locals[f - 1])
  {
  }

  lemma {:induction false} FilesGrow(p: seq<Stmt>, i: nat)
    requires i <= |p|
    ensures FilesIn(p[..i]) <= FilesIn(p)
    decreases |p|
  {
    if i < |p| {
      assert p[..|p| - 1][..i] == p[..i];
      FilesGrow(p[..|p| - 1], i);
    } else {
      assert p[..i] == p;
    }
  }

  /** When the second pass takes a statement that the first has taken. */
  lemma Repeats(kernel: bool, a: Pass1, t: Tables, enc: Encoder, c: Pass1, b: Pass2, st: Stmt)
    requires Agree(c, b) && Sane1(a) && Step1(kernel, c, st).Some?
    requires st.Load? ==> st.section in a.load && a.load[st.section] == st.address
    ensures Step2(kernel, a, t, enc, b, st).Some? <==>
            match st
            case Global(n) => n in t.globals
            case Fill(x) => Value(t, b.file, x).Some?
            case Fild(v) => -0x8000 <= v < 0x1_0000
            case Filb(v) => -0x80 <= v < 0x100
            case Instr(op, x) =>
              && Value(t, b.file, x).Some? && b.cur.Some?
              && enc(op, Value(t, b.file, x).value, LoadBase(kernel, a, b.cur.value) + b.off[Index(b.cur.value)]).Some?
            case _ => true
  {
    hide AlignUp, IsPower, LoadBase, Value, Define, Export;
  }

  lemma EmitStep(kernel: bool, enc: Encoder, p: seq<Stmt>, i: nat)
    requires Run1(kernel, p).Some? && i < |p| && Run2(kernel, Run1(kernel, p).value, enc, p[..i]).Some?
    ensures var a := Run1(kernel, p).value;
            Step2(kernel, a, Adjusted(kernel, a), enc, Run2(kernel, a, enc, p[..i]).value, p[i]).Some? <==>
            CanEmit(kernel, enc, p, i)
  {
    hide Step1, Step2, AlignUp, IsPower, HasIn, BytesIn, SectionOf, FilesIn, Adjusted, LoadBase, Value, Defined, Offers;
    var a, q := Run1(kernel, p).value, p[..i];
    Keeps1(kernel, p, i);
    Keeps1(kernel, p, i + 1);
    assert p[..i + 1][..i] == q && p[..i + 1][i] == p[i];
    var c, b := Run1(kernel, q).value, Run2(kernel, a, enc, q).value;
    assert Step1(kernel, c, p[i]).Some?;
    hide Run1, Run2;
    InStep(kernel, a, enc, q);
    FirstPassReads(kernel, q, 0, "", Text);
    if p[i].Load? { FirstPassReads(kernel, p, 0, "", p[i].section); assert p[i] in p; }
    Repeats(kernel, a, Adjusted(kernel, a), enc, c, b, p[i]);
    FilesGrow(p, i);
    match p[i]
    case Global(n) => OffersMeans(kernel, p, n); AdjustedGlobal(kernel, a, n);
    case Fill(x) => DefinedMeans(kernel, p, FilesIn(q), x);
    case Instr(_, x) => DefinedMeans(kernel, p, FilesIn(q), x);
    case _ =>
  }

  lemma {:induction false} EmitSteps(kernel: bool, enc: Encoder, p: seq<Stmt>, k: nat)
    requires Run1(kernel, p).Some? && k <= |p|
    ensures Run2(kernel, Run1(kernel, p).value, enc, p[..k]).Some? <==>
            forall i :: 0 <= i < k ==> CanEmit(kernel, enc, p, i)
  {
    hide Step2, CanEmit, Adjusted, Run1;
    if k > 0 {
      EmitSteps(kernel, enc, p, k - 1);
      assert p[..k][..k - 1] == p[..k - 1] && p[..k][k - 1] == p[k - 1];
      if Run2(kernel, Run1(kernel, p).value, enc, p[..k - 1]).Some? { EmitStep(kernel, enc, p, k - 1); }
    }
  }

  /** A program assembles if and only if every statement is right where it is and can be emitted,
      and a user program has an entry point. */
  lemma ProgramAccepted(kernel: bool, enc: Encoder, p: seq<Stmt>)
    ensures Assembles(kernel, enc, p) <==>
            && (forall i :: 0 <= i < |p| ==> Fits(kernel, p[..i], p[i]))
            && Run1(kernel, p).Some? && (forall i :: 0 <= i < |p| ==> CanEmit(kernel, enc, p, i))
            && (!kernel ==> exists g :: Offers(p, g, START))
  {
    hide Run1, Run2, Fits, CanEmit, Adjusted, Offers;
    FirstPassAccepts(kernel, p);
    if Run1(kernel, p).Some? {
      assert p[..|p|] == p;
      EmitSteps(kernel, enc, p, |p|);
      OffersMeans(kernel, p, START);
      AdjustedGlobal(kernel, Run1(kernel, p).value, START);
    }
  }

  // ----- Where things are -----

  /** Where statement `i` is: at that many bytes into its section. */
  lemma PlaceOf(kernel: bool, enc: Encoder, p: seq<Stmt>, i: nat)
    requires Assembles(kernel, enc, p) && i <= |p|
    ensures var b, sec := Before(kernel, enc, p, i), SectionOf(kernel, p[..i]);
            && b.cur == sec && b.file == FilesIn(p[..i]) && (forall x :: b.off[Index(x)] == BytesIn(kernel, p[..i], x))
            && AddressAt(kernel, enc, p, i) ==
               if sec.None? then -1
               else LoadBase(kernel, Run1(kernel, p).value, sec.value) + BytesIn(kernel, p[..i], sec.value)
  {
    hide Step1, Step2, Adjusted, LoadBase, BytesIn, SectionOf, FilesIn;
    var a := Run1(kernel, p).value;
    Keeps1(kernel, p, i);
    Keeps2(kernel, a, enc, p, i);
    InStep(kernel, a, enc, p[..i]);
    FirstPassReads(kernel, p[..i], 0, "", Text);
  }

  /** `to` is the least multiple of `unit` that is not before `end`. */
  predicate NextUnit(end: nat, to: nat, unit: nat) {
    unit > 0 && to % unit == 0 && end <= to < end + unit
  }

  /** How many bytes each section has. */
  function Sizes(kernel: bool, p: seq<Stmt>): seq<nat> {
    [BytesIn(kernel, p, Text), BytesIn(kernel, p, Rodata), BytesIn(kernel, p, Data), BytesIn(kernel, p, Bss),
     BytesIn(kernel, p, Implicit)]
  }

  lemma SizesAre(kernel: bool, p: seq<Stmt>)
    requires Run1(kernel, p).Some?
    ensures Run1(kernel, p).value.off == Sizes(kernel, p)
  {
    hide Run1, BytesIn;
    FirstPassReads(kernel, p, 0, "", Text);
    var off := Run1(kernel, p).value.off;
    assert off[Index(Text)] == off[0] && off[Index(Rodata)] == off[1] && off[Index(Data)] == off[2] &&
           off[Index(Bss)] == off[3] && off[Index(Implicit)] == off[4];
  }

  lemma KernelBases(n: seq<nat>)
    requires |n| == SECTIONS
    ensures Base(true, n, Implicit) == 0 && NextUnit(n[4], Base(true, n, Text), 512)
    ensures NextUnit(Base(true, n, Text) + n[0], Base(true, n, Rodata), 512)
    ensures NextUnit(Base(true, n, Rodata) + n[1], Base(true, n, Data), 512)
    ensures NextUnit(Base(true, n, Data) + n[2], Base(true, n, Bss), 512)
  {
    hide AlignUp;
  }

  lemma WordSize(b: nat, n: nat)
    requires b % 0x1000 == 0
    ensures RoundWord(b + n) == b + AlignUp(n, 4) && NextUnit(b + n, b + AlignUp(n, 4), 4)
  {
    var q, r := n / 4, n % 4;
    var w := if r == 0 then q else q + 1;
    var c := b / 0x1000 * 0x400;
    assert n == 4 * q + r && b == 4 * c;
    assert AlignUp(n, 4) == 4 * w;
    hide AlignUp;
    DivUnique(b + n + 3, 4, c + w, if r == 0 then 3 else r - 1);
  }

  lemma UserBases(n: seq<nat>)
    requires |n| == SECTIONS
    ensures Base(false, n, Text) == 0x8000_0000
    ensures NextUnit(RoundWord(Base(false, n, Text) + n[0]), Base(false, n, Rodata), 0x1000)
    ensures NextUnit(RoundWord(Base(false, n, Rodata) + n[1]), Base(false, n, Data), 0x1000)
    ensures NextUnit(Base(false, n, Data) + n[2], Base(false, n, Bss), 4)
  {
    var rodata := AlignUp(USER_BASE + AlignUp(n[0], 4), PAGE);
    var data := AlignUp(rodata + AlignUp(n[1], 4), PAGE);
    assert Base(false, n, Rodata) == rodata && Base(false, n, Data) == data &&
           Base(false, n, Bss) == data + AlignUp(n[2], 4);
    hide *;
    WordSize(USER_BASE, n[0]);
    WordSize(rodata, n[1]);
    WordSize(data, n[2]);
  }

  /** Where a section goes that is given no load address: in the kernel the implicit section is at
      0, and text, rodata, data and bss each begin at the next multiple of 512 behind the section in
      front; in a user program text is at 0x80000000, rodata and data each begin on the next page
      behind the section in front, and bss at the next word behind data. */
  ghost predicate LaidOut(kernel: bool, n: seq<nat>, at: seq<nat>) {
    && |n| == |at| == SECTIONS
    && if kernel then
         && at[4] == 0 && NextUnit(n[4], at[0], 512) && NextUnit(at[0] + n[0], at[1], 512)
         && NextUnit(at[1] + n[1], at[2], 512) && NextUnit(at[2] + n[2], at[3], 512)
       else
         && at[0] == 0x8000_0000 && NextUnit(RoundWord(at[0] + n[0]), at[1], 0x1000)
         && NextUnit(RoundWord(at[1] + n[1]), at[2], 0x1000) && NextUnit(at[2] + n[2], at[3], 4)
  }

  function RoundWord(n: nat): nat {
    (n + 3) / 4 * 4
  }

  /** The base of a section is its load address, or the place `at` that the layout gives it. */
  ghost predicate Based(p: seq<Stmt>, sec: Section, base: nat, at: nat) {
    Load(sec, base) in p || ((forall x :: Load(sec, x) !in p) && base == at)
  }

  /** Every section is at its load address, or where the layout puts it. */
  lemma Layout(kernel: bool, p: seq<Stmt>) returns (at: seq<nat>)
    requires Run1(kernel, p).Some?
    ensures LaidOut(kernel, Sizes(kernel, p), at)
    ensures forall sec :: Based(p, sec, LoadBase(kernel, Run1(kernel, p).value, sec), at[Index(sec)])
  {
    hide Run1, BytesIn;
    var a := Run1(kernel, p).value;
    SizesAre(kernel, p);
    at := [Base(kernel, a.off, Text), Base(kernel, a.off, Rodata), Base(kernel, a.off, Data), Base(kernel, a.off, Bss),
           Base(kernel, a.off, Implicit)];
    hide Base, Sizes, NextUnit, RoundWord;
    KernelBases(a.off);
    UserBases(a.off);
    forall sec ensures Based(p, sec, LoadBase(kernel, a, sec), at[Index(sec)]) {
      FirstPassReads(kernel, p, 0, "", sec);
      assert at[Index(sec)] == Base(kernel, a.off, sec);
    }
  }

  lemma {:induction false} NoImplicit(p: seq<Stmt>)
    requires Run1(false, p).Some?
    ensures Run1(false, p).value.load == map[] && Run1(false, p).value.off[Index(Implicit)] == 0
    decreases |p|
  {
    if p != [] {
      hide AlignUp, IsPower, Define, Export;
      NoImplicit(p[..|p| - 1]);
    }
  }

  /** No two sections have an address in common, where no load addresses are given. */
  lemma SectionsApart(kernel: bool, p: seq<Stmt>, s: Section, t: Section, i: nat, j: nat)
    requires Run1(kernel, p).Some? && (forall sec, x :: Load(sec, x) !in p) && s != t
    requires i < BytesIn(kernel, p, s) && j < BytesIn(kernel, p, t)
    ensures var a := Run1(kernel, p).value; LoadBase(kernel, a, s) + i != LoadBase(kernel, a, t) + j
  {
    hide Run1, BytesIn, LoadBase;
    var at := Layout(kernel, p);
    SizesAre(kernel, p);
    if !kernel { NoImplicit(p); }
    var a := Run1(kernel, p).value;
    assert Based(p, s, LoadBase(kernel, a, s), at[Index(s)]) && Based(p, t, LoadBase(kernel, a, t), at[Index(t)]);
    Disjoint(kernel, Sizes(kernel, p), at, Index(s), Index(t), i, j);
  }

  lemma Disjoint(kernel: bool, n: seq<nat>, at: seq<nat>, s: nat, t: nat, i: nat, j: nat)
    requires LaidOut(kernel, n, at) && s < SECTIONS && t < SECTIONS && s != t && i < n[s] && j < n[t]
    requires !kernel ==> n[4] == 0
    ensures at[s] + i != at[t] + j
  {
  }

  // ----- What is in the output -----

  /** The half word at `at`, low byte first. */
  function HalfAt(b: seq<Byte>, at: nat): nat
    requires at + 2 <= |b|
  {
    b[at] as int + 0x100 * b[at + 1] as int
  }

  /** The word at `at`, low byte first. */
  function WordAt(b: seq<Byte>, at: nat): nat
    requires at + 4 <= |b|
  {
    b[at] as int + 0x100 * b[at + 1] as int + 0x1_0000 * b[at + 2] as int + 0x100_0000 * b[at + 3] as int
  }

  lemma LowBytes(v: int)
    ensures WordAt(Low(v, 4), 0) == v % MODULUS
    ensures HalfAt(Low(v, 2), 0) == v % 0x1_0000 && Low(v, 1)[0] == v % 0x100
  {
    var w := v % MODULUS;
    WordBytes(w);
    assert ByteOf(w, 0) == w % 256 && ByteOf(w, 1) == ByteOf(w / 256, 0) == w / 256 % 256;
    var q := v / MODULUS;
    assert v == q * MODULUS + w;
    LowHalf(v, q, w);
  }

  lemma LowHalf(v: int, q: int, w: nat)
    requires v == q * MODULUS + w
    ensures w % 256 + 256 * (w / 256 % 256) == v % 0x1_0000 && w % 256 == v % 0x100
  {
    var x, y := w / 256, w / 256 / 256;
    assert w == 256 * x + w % 256 && x == 256 * y + x % 256;
    DivUnique(v, 0x1_0000, 0x1_0000 * q + y, w % 256 + 256 * (x % 256));
    DivUnique(v, 0x100, 0x100_0000 * q + x, w % 256);
  }

  /** What a statement adds to the output of its section. */
  ghost function Added(t: Tables, file: nat, st: Stmt, n: nat, code: seq<Byte>): seq<Byte> {
    match st
    case Fill(x) => if Value(t, file, x).Some? then Low(Value(t, file, x).value, 4) else []
    case Fild(v) => Low(v, 2)
    case Filb(v) => Low(v, 1)
    case Instr(_, _) => code
    case _ => Zeros(EndOf(st, n) - n)
  }

  lemma StepAdds(kernel: bool, a: Pass1, t: Tables, enc: Encoder, s: Pass2, st: Stmt) returns (code: seq<Byte>)
    requires Sane1(a) && Sane2(s) && Step2(kernel, a, t, enc, s, st).Some? && s.cur.Some? && s.cur.value != Bss
    ensures var k := Index(s.cur.value);
            Step2(kernel, a, t, enc, s, st).value.out[k] ==
            s.out[k] + Added(t, s.file, st, s.off[k], code)
  {
    hide AlignUp, IsPower, Value, Low, LoadBase;
    code := [];
    if st.Instr? {
      code := Low(enc(st.op, Value(t, s.file, st.operand).value,
                      LoadBase(kernel, a, s.cur.value) + s.off[Index(s.cur.value)]).value, 4);
    }
  }

  /** What statement `i` adds is in the output, at its place. */
  lemma StatementAdds(kernel: bool, enc: Encoder, p: seq<Stmt>, i: nat, sec: Section) returns (code: seq<Byte>)
    requires Assembles(kernel, enc, p) && i < |p| && SectionOf(kernel, p[..i]) == Some(sec) && sec != Bss
    ensures var out, at := Before(kernel, enc, p, |p|).out[Index(sec)], BytesIn(kernel, p[..i], sec);
            var w := Added(Adjusted(kernel, Run1(kernel, p).value), FilesIn(p[..i]), p[i], at, code);
            at + |w| <= |out| && out[at..at + |w|] == w
  {
    hide Step1, Step2, Adjusted, BytesIn, SectionOf, FilesIn, Added, AlignUp, IsPower, LoadBase;
    var a := Run1(kernel, p).value;
    PlaceOf(kernel, enc, p, i);
    var s := Before(kernel, enc, p, i);
    Keeps2(kernel, a, enc, p, i);
    Keeps2(kernel, a, enc, p, i + 1);
    assert p[..i + 1][..i] == p[..i] && p[..i + 1][i] == p[i];
    code := StepAdds(kernel, a, Adjusted(kernel, a), enc, s, p[i]);
    Emitted(kernel, enc, p, i, Index(sec), Added(Adjusted(kernel, a), s.file, p[i], s.off[Index(sec)], code));
  }

  /** How the bytes of a statement look at `at`: a literal as its value, low byte first, and padding
      as zeros. */
  ghost predicate Shows(st: Stmt, out: seq<Byte>, at: nat) {
    match st
    case Fill(Literal(v)) => at + 4 <= |out| && WordAt(out, at) == v % MODULUS
    case Fild(v) => at + 2 <= |out| && HalfAt(out, at) == v % 0x1_0000
    case Filb(v) => at < |out| && out[at] == v % 0x100
    case Space(n) => Blank(out, at, at + n)
    case Align(a) => a > 0 && Blank(out, at, AlignUp(at, a))
    case Origin(to) => Blank(out, at, to)
    case _ => true
  }

  ghost predicate Blank(out: seq<Byte>, from: nat, to: nat) {
    from <= to <= |out| && forall k :: from <= k < to ==> out[k] == 0
  }

  lemma AddedShows(t: Tables, file: nat, st: Stmt, out: seq<Byte>, at: nat, code: seq<Byte>)
    requires var w := Added(t, file, st, at, code); at + |w| <= |out| && out[at..at + |w|] == w
    requires (st.Align? ==> st.to > 0) && (st.Origin? ==> at <= st.at)
    ensures Shows(st, out, at)
  {
    hide Low, AlignUp, WordAt, HalfAt;
    var w := Added(t, file, st, at, code);
    forall k | at <= k < at + |w| ensures out[k] == w[k - at] { assert out[at..at + |w|][k - at] == w[k - at]; }
    match st
    case Fill(Literal(v)) => LowBytes(v); SameWord(out, at, w);
    case Fild(v) => LowBytes(v); SameHalf(out, at, w);
    case Filb(v) => LowBytes(v);
    case _ =>
  }

  /** The bytes that statement `i` puts into the output, at its place. */
  lemma StatementBytes(kernel: bool, enc: Encoder, p: seq<Stmt>, i: nat, sec: Section)
    requires Assembles(kernel, enc, p) && i < |p| && SectionOf(kernel, p[..i]) == Some(sec) && sec != Bss
    ensures Shows(p[i], Before(kernel, enc, p, |p|).out[Index(sec)], BytesIn(kernel, p[..i], sec))
  {
    hide Run1, Run2, Before, Adjusted, BytesIn, SectionOf, FilesIn, Added, Shows;
    var code := StatementAdds(kernel, enc, p, i, sec);
    FitsHere(kernel, enc, p, i);
    AddedShows(Adjusted(kernel, Run1(kernel, p).value), FilesIn(p[..i]), p[i],
               Before(kernel, enc, p, |p|).out[Index(sec)], BytesIn(kernel, p[..i], sec), code);
  }

  lemma FitsHere(kernel: bool, enc: Encoder, p: seq<Stmt>, i: nat)
    requires Assembles(kernel, enc, p) && i < |p|
    ensures p[i].Align? ==> p[i].to > 0
    ensures p[i].Origin? ==>
            SectionOf(kernel, p[..i]) == Some(Implicit) && BytesIn(kernel, p[..i], Implicit) <= p[i].at
  {
    hide Run1, Run2, Fits, Adjusted;
    FirstPassAccepts(kernel, p);
    FitsMeans(kernel, p[..i], p[i]);
  }

  lemma FitsMeans(kernel: bool, q: seq<Stmt>, st: Stmt)
    requires Fits(kernel, q, st)
    ensures st.Align? ==> st.to > 0
    ensures st.Origin? ==> SectionOf(kernel, q) == Some(Implicit) && BytesIn(kernel, q, Implicit) <= st.at
  {
  }

  /** A word filled with a label holds the address of the definition that the label means. */
  lemma FilledWord(kernel: bool, enc: Encoder, p: seq<Stmt>, i: nat, sec: Section) returns (j: nat)
    requires Assembles(kernel, enc, p) && i < |p| && p[i].Fill? && p[i].operand.Ref?
    requires SectionOf(kernel, p[..i]) == Some(sec)
    ensures Means(kernel, enc, p, i, p[i].operand.name, j)
    ensures var out, at := Before(kernel, enc, p, |p|).out[Index(sec)], BytesIn(kernel, p[..i], sec);
            at + 4 <= |out| && WordAt(out, at) == AddressAt(kernel, enc, p, j) % MODULUS
  {
    hide Run1, Run2, BytesIn, SectionOf, FilesIn, Low, Means, Adjusted;
    PlaceOf(kernel, enc, p, i);
    j := FillsAddress(kernel, enc, p, i);
    Resolves(kernel, enc, p, i, p[i].operand.name, j);
    hide Before, AddressAt;
    LowBytes(AddressAt(kernel, enc, p, j));
    var out, at := Before(kernel, enc, p, |p|).out[Index(sec)], BytesIn(kernel, p[..i], sec);
    SameWord(out, at, Low(AddressAt(kernel, enc, p, j), 4));
  }

  /** What an operand of statement `i` stands for: itself, or the address of the definition it means. */
  ghost predicate StandsFor(kernel: bool, enc: Encoder, p: seq<Stmt>, i: nat, x: Operand, v: int)
    requires Assembles(kernel, enc, p) && i <= |p|
  {
    match x
    case Literal(u) => v == u
    case Ref(n) => exists j: nat :: j < |p| && Means(kernel, enc, p, i, n, j) && v == AddressAt(kernel, enc, p, j)
  }

  lemma OperandMeans(kernel: bool, enc: Encoder, p: seq<Stmt>, i: nat, x: Operand)
    requires Assembles(kernel, enc, p) && i <= |p|
    requires Value(Adjusted(kernel, Run1(kernel, p).value), Before(kernel, enc, p, i).file, x).Some?
    ensures StandsFor(kernel, enc, p, i, x,
                      Value(Adjusted(kernel, Run1(kernel, p).value), Before(kernel, enc, p, i).file, x).value)
  {
    hide Run1, Run2, Adjusted, Before, AddressAt, Means;
    if x.Ref? {
      Resolves(kernel, enc, p, i, x.name, 0);
      var j: nat :| Means(kernel, enc, p, i, x.name, j);
      Resolves(kernel, enc, p, i, x.name, j);
    }
  }

  /** An instruction is encoded with what its operand stands for and its own address. */
  lemma EncodedWord(kernel: bool, enc: Encoder, p: seq<Stmt>, i: nat, sec: Section) returns (v: int)
    requires Assembles(kernel, enc, p) && i < |p| && p[i].Instr? && SectionOf(kernel, p[..i]) == Some(sec)
    ensures StandsFor(kernel, enc, p, i, p[i].operand, v) && AddressAt(kernel, enc, p, i) >= 0
    ensures var out, at := Before(kernel, enc, p, |p|).out[Index(sec)], BytesIn(kernel, p[..i], sec);
            var w := enc(p[i].op, v, AddressAt(kernel, enc, p, i));
            w.Some? && at + 4 <= |out| && WordAt(out, at) == w.value % MODULUS
  {
    hide Step1, Step2, Adjusted, BytesIn, SectionOf, FilesIn, AlignUp, LoadBase, Value, Low, WordAt, StandsFor;
    var a, s := Run1(kernel, p).value, Before(kernel, enc, p, i);
    PlaceOf(kernel, enc, p, i);
    Keeps2(kernel, a, enc, p, i);
    Keeps2(kernel, a, enc, p, i + 1);
    assert p[..i + 1][..i] == p[..i] && p[..i + 1][i] == p[i];
    InstrStep(kernel, a, Adjusted(kernel, a), enc, s, p[i].op, p[i].operand);
    OperandMeans(kernel, enc, p, i, p[i].operand);
    v := Value(Adjusted(kernel, a), s.file, p[i].operand).value;
    var w := enc(p[i].op, v, AddressAt(kernel, enc, p, i));
    Emitted(kernel, enc, p, i, Index(sec), Low(w.value, 4));
    LowBytes(w.value);
    SameWord(Before(kernel, enc, p, |p|).out[Index(sec)], s.off[Index(sec)], Low(w.value, 4));
  }

  lemma SameWord(out: seq<Byte>, at: nat, w: seq<Byte>)
    requires at + 4 <= |out| && |w| == 4 && out[at..at + 4] == w
    ensures WordAt(out, at) == WordAt(w, 0)
  {
    var x := out[at..at + 4];
    assert x[0] == out[at] && x[1] == out[at + 1] && x[2] == out[at + 2] && x[3] == out[at + 3];
  }

  lemma SameHalf(out: seq<Byte>, at: nat, w: seq<Byte>)
    requires at + 2 <= |out| && |w| == 2 && out[at..at + 2] == w
    ensures HalfAt(out, at) == HalfAt(w, 0)
  {
    var x := out[at..at + 2];
    assert x[0] == out[at] && x[1] == out[at + 1];
  }
}
