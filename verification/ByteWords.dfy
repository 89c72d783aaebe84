/** Bytes, and the four bytes of a 32-bit word, low byte first. */
module ByteWords {
  import opened Words

  type Byte = x: nat | x < 256

  function ByteOf(w: nat, k: nat): Byte
    decreases k
  {
    if k == 0 then w % 256 else ByteOf(w / 256, k - 1)
  }

  function Word4(a: int, b: int, c: int, d: int): int {
    a + 256 * (b + 256 * (c + 256 * d))
  }

  lemma WordBytes(w: nat)
    requires w < MODULUS
    ensures Word4(ByteOf(w, 0), ByteOf(w, 1), ByteOf(w, 2), ByteOf(w, 3)) == w
  {
    var x := w / 256;
    var y := x / 256;
    var z := y / 256;
    assert ByteOf(w, 1) == x % 256 && ByteOf(w, 2) == ByteOf(x, 1) == y % 256;
    assert ByteOf(w, 3) == ByteOf(x, 2) == ByteOf(y, 1) == z % 256;
  }

  /** `b` with `v` written at `at`. */
  function Patch(b: seq<Byte>, at: nat, v: seq<Byte>): (r: seq<Byte>)
    requires at + |v| <= |b|
    ensures |r| == |b|
    ensures forall k :: 0 <= k < |b| ==> r[k] == if at <= k < at + |v| then v[k - at] else b[k]
  {
    b[..at] + v + b[at + |v|..]
  }

  function Zeros(n: nat): seq<Byte> {
    seq(n, _ => 0)
  }
}
