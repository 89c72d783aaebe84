/** 32-bit machine words and the C integer values they represent.

    The compiler's target is a 32-bit machine: `int` and `unsigned` are both one
    word, and every TAC operand holds a word.  Source values are mathematical
    integers in the range of their type; `ToWord` is the two's-complement
    representation that connects the two views.
  */
module Words {

  const MODULUS := 0x1_0000_0000

  type Word = w: int | 0 <= w < 0x1_0000_0000

  type Int32 = v: int | -0x8000_0000 <= v < 0x8000_0000

  datatype Option<+T> = None | Some(value: T)

  /** The two integer types of the modelled subset. */
  datatype Ty = Int | UInt

  predicate InRange(ty: Ty, v: int) {
    match ty
    case Int => -0x8000_0000 <= v < 0x8000_0000
    case UInt => 0 <= v < MODULUS
  }

  function ToWord(v: int): Word {
    v % MODULUS
  }

  /** The value of type `ty` whose representation is `w`. */
  function Interpret(ty: Ty, w: Word): (v: int)
    ensures InRange(ty, v) && ToWord(v) == w
  {
    if ty == Int && w >= 0x8000_0000 then w - MODULUS else w
  }

  /** Conversion of a mathematical integer to type `ty`, modulo 2^32. */
  function Wrap(ty: Ty, v: int): (r: int)
    ensures InRange(ty, r) && ToWord(r) == ToWord(v)
    ensures InRange(ty, v) ==> r == v
  {
    Interpret(ty, ToWord(v))
  }

  /** The usual arithmetic conversions on `int` and `unsigned`. */
  function Common(a: Ty, b: Ty): Ty {
    if a == UInt || b == UInt then UInt else Int
  }

  function Pow2(n: nat): (p: nat)
    ensures p >= 1
  {
    if n == 0 then 1 else 2 * Pow2(n - 1)
  }

  datatype BitOp = BAnd | BOr | BXor

  function BitOf(op: BitOp, a: bool, b: bool): nat {
    match op
    case BAnd => if a && b then 1 else 0
    case BOr => if a || b then 1 else 0
    case BXor => if a != b then 1 else 0
  }

  /** Bitwise operation on the low `n` bits of `a` and `b`. */
  function Bits(op: BitOp, n: nat, a: nat, b: nat): (r: nat)
    ensures r < Pow2(n)
  {
    if n == 0 then 0
    else 2 * Bits(op, n - 1, a / 2, b / 2) + BitOf(op, a % 2 == 1, b % 2 == 1)
  }

  lemma Pow2Of32()
    ensures Pow2(32) == MODULUS
  {
    assert Pow2(8) == 256;
    assert Pow2(16) == 0x1_0000;
    assert Pow2(24) == 0x100_0000;
  }

  function BitsWord(op: BitOp, a: Word, b: Word): Word {
    Pow2Of32();
    Bits(op, 32, a, b)
  }

  /** Division truncated toward zero, as C defines it (`b` is not zero). */
  function TruncDiv(a: int, b: int): int
    requires b != 0
  {
    if a >= 0 then a / b else -((-a) / b)
  }

  function TruncMod(a: int, b: int): int
    requires b != 0
  {
    a - b * TruncDiv(a, b)
  }

  function Abs(a: int): int {
    if a < 0 then -a else a
  }

  /** Section 6.5.5 of ISO C11: the remainder is smaller than the divisor and has the sign of the
      dividend. */
  lemma QuotientAndRest(a: int, b: int)
    requires b != 0
    ensures a == b * TruncDiv(a, b) + TruncMod(a, b)
    ensures -Abs(b) < TruncMod(a, b) < Abs(b)
    ensures (a >= 0 ==> TruncMod(a, b) >= 0) && (a <= 0 ==> TruncMod(a, b) <= 0)
  {
    var n := Abs(a);
    assert n == b * (n / b) + n % b;
    if a < 0 { assert b * -(n / b) == -(b * (n / b)); }
  }

  /** Bit `k` of a number. */
  predicate BitAt(a: nat, k: nat)
    decreases k
  {
    if k == 0 then a % 2 == 1 else BitAt(a / 2, k - 1)
  }

  lemma {:induction false} BitsAt(op: BitOp, n: nat, a: nat, b: nat, k: nat)
    requires k < n
    ensures BitAt(Bits(op, n, a, b), k) <==>
            match op
            case BAnd => BitAt(a, k) && BitAt(b, k)
            case BOr => BitAt(a, k) || BitAt(b, k)
            case BXor => BitAt(a, k) != BitAt(b, k)
    decreases n
  {
    if k > 0 {
      BitsAt(op, n - 1, a / 2, b / 2, k - 1);
    }
  }

  /** The bitwise operations on words, bit for bit. */
  lemma Bitwise(a: Word, b: Word, k: nat)
    requires k < 32
    ensures BitAt(BitsWord(BAnd, a, b), k) <==> BitAt(a, k) && BitAt(b, k)
    ensures BitAt(BitsWord(BOr, a, b), k) <==> BitAt(a, k) || BitAt(b, k)
    ensures BitAt(BitsWord(BXor, a, b), k) <==> BitAt(a, k) != BitAt(b, k)
  {
    BitsAt(BAnd, 32, a, b, k);
    BitsAt(BOr, 32, a, b, k);
    BitsAt(BXor, 32, a, b, k);
  }

  // ----- Congruence modulo 2^32 -----

  lemma {:induction false} ModFactor(a: int, k: int)
    ensures (a + k * MODULUS) % MODULUS == a % MODULUS
  {
    var q := a / MODULUS;
    assert a + k * MODULUS == (q + k) * MODULUS + a % MODULUS;
    ModUnique(a + k * MODULUS, q + k, a % MODULUS);
  }

  lemma ModUnique(x: int, q: int, r: int)
    requires x == q * MODULUS + r && 0 <= r < MODULUS
    ensures x % MODULUS == r
  {
    assert x - r == q * MODULUS;
    var q' := x / MODULUS;
    var r' := x % MODULUS;
    assert x == q' * MODULUS + r';
    assert (q' - q) * MODULUS == r - r';
  }

  /** Multiplication respects representation in its left argument. */
  lemma MulCong(a: int, b: int)
    ensures ToWord(ToWord(a) * b) == ToWord(a * b)
  {
    var q := a / MODULUS;
    assert a == q * MODULUS + ToWord(a);
    assert a * b == ToWord(a) * b + (q * b) * MODULUS by {
      calc {
        a * b;
        (q * MODULUS + ToWord(a)) * b;
        (q * MODULUS) * b + ToWord(a) * b;
        { assert (q * MODULUS) * b == (q * b) * MODULUS; }
        ToWord(a) * b + (q * b) * MODULUS;
      }
    }
    ModFactor(ToWord(a) * b, q * b);
  }

  lemma AddCong(a: int, b: int)
    ensures ToWord(ToWord(a) + ToWord(b)) == ToWord(a + b)
    ensures ToWord(ToWord(a) - ToWord(b)) == ToWord(a - b)
  {
    var q, p := a / MODULUS, b / MODULUS;
    assert a + b == ToWord(a) + ToWord(b) + (q + p) * MODULUS;
    ModFactor(ToWord(a) + ToWord(b), q + p);
    assert a - b == ToWord(a) - ToWord(b) + (q - p) * MODULUS;
    ModFactor(ToWord(a) - ToWord(b), q - p);
  }

  // ----- Quotients -----

  lemma MulMono(a: int, b: int, d: int)
    requires d >= 0
    ensures a <= b ==> a * d <= b * d
  {
    if a <= b { assert (b - a) * d >= 0; }
  }

  lemma LargeMultiple(a: int, d: int)
    requires d > 0
    ensures a != 0 ==> a * d >= d || a * d <= -d
  {
    if a >= 1 { assert (a - 1) * d >= 0; }
    if a <= -1 { assert (a + 1) * d <= 0; }
  }

  lemma DivUnique(x: int, d: int, q: int, r: int)
    requires d > 0 && x == q * d + r && 0 <= r < d
    ensures x / d == q && x % d == r
  {
    var q' := x / d;
    assert x == q' * d + x % d;
    assert (q' - q) * d == q' * d - q * d;
    LargeMultiple(q' - q, d);
  }
}
