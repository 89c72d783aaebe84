/** Section contents as growing arrays of words, and the program headers made from their sizes. */
module ElfImage {
  import opened Words
  import opened ByteWords
  import opened Assembler

  // ----- Bytes in words -----

  function ByteOr0(b: seq<Byte>, k: nat): Byte {
    if k < |b| then b[k] else 0
  }

  /** Bytes packed into words, low byte first, the last word filled up with zeros. */
  function Pack(b: seq<Byte>): (ws: seq<nat>)
    ensures |ws| == (|b| + 3) / 4
  {
    seq((|b| + 3) / 4,
        i requires 0 <= i => Word4(ByteOr0(b, 4 * i), ByteOr0(b, 4 * i + 1), ByteOr0(b, 4 * i + 2),
                                   ByteOr0(b, 4 * i + 3)))
  }

  /** Word `w` with byte `k` replaced. */
  function SetByte(w: nat, k: nat, v: Byte): nat
    requires k < 4
  {
    Word4(if k == 0 then v else ByteOf(w, 0), if k == 1 then v else ByteOf(w, 1),
          if k == 2 then v else ByteOf(w, 2), if k == 3 then v else ByteOf(w, 3))
  }

  lemma BytesOfWord(a: Byte, b: Byte, c: Byte, d: Byte)
    ensures var w := Word4(a, b, c, d); ByteOf(w, 0) == a && ByteOf(w, 1) == b && ByteOf(w, 2) == c && ByteOf(w, 3) == d
  {
    var w := Word4(a, b, c, d);
    DivUnique(w, 256, b + 256 * (c + 256 * d), a);
    DivUnique(b + 256 * (c + 256 * d), 256, c + 256 * d, b);
    DivUnique(c + 256 * d, 256, d, c);
    assert ByteOf(w, 1) == ByteOf(w / 256, 0);
    assert ByteOf(w, 2) == ByteOf(w / 256, 1) == ByteOf(w / 256 / 256, 0);
    assert ByteOf(w, 3) == ByteOf(w / 256, 2) == ByteOf(w / 256 / 256, 1) == ByteOf(w / 256 / 256 / 256, 0);
  }

  /** One more byte goes into the last word, or starts a new one. */
  lemma PackByte(b: seq<Byte>, v: Byte)
    ensures var ws, n := Pack(b), |b|;
            && (n % 4 == 0 ==> Pack(b + [v]) == ws + [SetByte(0, 0, v)])
            && (n % 4 != 0 ==> n / 4 == |ws| - 1 && Pack(b + [v]) == ws[|ws| - 1 := SetByte(ws[|ws| - 1], n % 4, v)])
  {
    hide Word4, ByteOf;
    var ws, n, c := Pack(b), |b|, b + [v];
    var q := n / 4;
    assert forall i :: 0 <= i < q ==> Pack(c)[i] == ws[i];
    BytesOfWord(ByteOr0(b, 4 * q), ByteOr0(b, 4 * q + 1), ByteOr0(b, 4 * q + 2), ByteOr0(b, 4 * q + 3));
    ZeroBytes();
    if n % 4 == 0 {
      assert Pack(c)[q] == SetByte(0, 0, v);
    } else {
      assert ws[q] == Word4(ByteOr0(b, 4 * q), ByteOr0(b, 4 * q + 1), ByteOr0(b, 4 * q + 2), ByteOr0(b, 4 * q + 3));
      assert Pack(c)[q] == SetByte(ws[q], n % 4, v);
    }
  }

  lemma ZeroBytes()
    ensures ByteOf(0, 0) == 0 && ByteOf(0, 1) == 0 && ByteOf(0, 2) == 0 && ByteOf(0, 3) == 0
  {
  }

  /** A whole word, on a word boundary. */
  lemma PackWord(b: seq<Byte>, w: nat)
    requires |b| % 4 == 0 && w < MODULUS
    ensures Pack(b + Low(w, 4)) == Pack(b) + [w]
  {
    hide Word4, ByteOf;
    var c, q := b + Low(w, 4), |b| / 4;
    assert forall i :: 0 <= i < q ==> Pack(c)[i] == Pack(b)[i];
    WordBytes(w);
    assert Low(w, 4)[0] == ByteOf(w, 0) && Low(w, 4)[1] == ByteOf(w, 1) && Low(w, 4)[2] == ByteOf(w, 2) &&
           Low(w, 4)[3] == ByteOf(w, 3);
    assert Pack(c)[q] == w;
  }

  class InstructionArray {
    var words: array<nat>
    var size: nat
    ghost var bytes: seq<Byte>

    ghost predicate Valid()
      reads this, words
    {
      0 < words.Length && size <= words.Length && words[..size] == Pack(bytes)
    }

    constructor (capacity: nat)
      requires capacity > 0
      ensures Valid() && bytes == [] && fresh(words)
    {
      words := new nat[capacity];
      size := 0;
      bytes := [];
    }

    /** Room for one more word: storage doubles when it is full. */
    method Grow()
      requires 0 < words.Length && size <= words.Length
      modifies this`words
      ensures size < words.Length && words[..size] == old(words[..size]) && (words == old(words) || fresh(words))
    {
      if size == words.Length {
        var more := new nat[2 * words.Length];
        var i := 0;
        while i < words.Length
          modifies more
          invariant i <= words.Length && more[..i] == words[..i]
        {
          more[i] := words[i];
          i := i + 1;
        }
        words := more;
      }
    }

    method AppendWord(w: nat)
      requires Valid() && |bytes| % 4 == 0 && w < MODULUS
      modifies this, words
      ensures Valid() && bytes == old(bytes) + Low(w, 4)
    {
      PackWord(bytes, w);
      Grow();
      words[size] := w;
      size := size + 1;
      bytes := bytes + Low(w, 4);
    }

    /** `pc` is where the byte goes; only its place in its word matters. */
    method AppendByte(v: Byte, pc: nat)
      requires Valid() && pc % 4 == |bytes| % 4
      modifies this, words
      ensures Valid() && bytes == old(bytes) + [v]
    {
      PackByte(bytes, v);
      if pc % 4 == 0 {
        Grow();
        words[size] := 0;
        size := size + 1;
      }
      words[size - 1] := SetByte(words[size - 1], pc % 4, v);
      bytes := bytes + [v];
    }
  }

  // ----- Program headers -----

  datatype Header = Header(offset: nat, vaddr: nat, filesz: nat, memsz: nat, flags: nat)

  const ELF_HEADER := 52
  const PROGRAM_HEADER := 32

  /** The next page, as the header table computes it. */
  function NextPage(v: nat): nat {
    if v % 0x1000 != 0 then v + (0x1000 - v % 0x1000) else v
  }

  /** `create_PHT`, from the sizes of the three arrays in words and of the uninitialised section. */
  function Headers(text: nat, rodata: nat, data: nat, bss: nat): seq<Header> {
    var o := ELF_HEADER + 3 * PROGRAM_HEADER;
    var v1 := NextPage(0x8000_0000 + 4 * text);
    var v2 := NextPage(v1 + 4 * rodata);
    [Header(o, 0x8000_0000, 4 * text, 4 * text, 5),
     Header(o + 4 * text, v1, 4 * rodata, 4 * rodata, 4),
     Header(o + 4 * text + 4 * rodata, v2, 4 * data, 4 * data + bss, 6)]
  }

  /** An array that holds all bytes of a section is as many words as the section was sized. */
  lemma PackedSize(b: seq<Byte>)
    ensures 4 * |Pack(b)| == AlignUp(|b|, 4)
  {
  }

  lemma PageIsAligned(v: nat)
    ensures NextPage(v) == AlignUp(v, PAGE)
  {
  }

  lemma HeadersMatch(off: seq<nat>, text: nat, rodata: nat, data: nat, bss: nat)
    requires |off| == SECTIONS && 4 * text == Size(false, off, 0) && 4 * rodata == Size(false, off, 1) &&
             4 * data == Size(false, off, 2)
    ensures var h := Headers(text, rodata, data, bss);
            && h[0].vaddr == Base(false, off, Text) && h[1].vaddr == Base(false, off, Rodata) &&
              h[2].vaddr == Base(false, off, Data)
            && h[2].vaddr + h[2].filesz == Base(false, off, Bss)
            && h[0].vaddr + h[0].memsz <= h[1].vaddr && h[1].vaddr + h[1].memsz <= h[2].vaddr
  {
    hide AlignUp, NextPage, Size;
    PageIsAligned(0x8000_0000 + 4 * text);
    PageIsAligned(AlignUp(0x8000_0000 + 4 * text, PAGE) + 4 * rodata);
  }

  /** The segments of the file are loaded where the assembler has put the sections, with the
      uninitialised section behind the bytes of the data segment; the file has them one after
      the other. */
  lemma SegmentsMatch(enc: Encoder, p: seq<Stmt>)
    requires Assembles(false, enc, p)
    ensures var a, b := Run1(false, p).value, Run2(false, Run1(false, p).value, enc, p).value;
            var h := Headers(|Pack(b.out[0])|, |Pack(b.out[1])|, |Pack(b.out[2])|, b.bss);
            && h[0].vaddr == Base(false, a.off, Text) && h[1].vaddr == Base(false, a.off, Rodata) &&
              h[2].vaddr == Base(false, a.off, Data)
            && h[2].vaddr + h[2].filesz == Base(false, a.off, Bss) && h[2].memsz == h[2].filesz + a.off[Index(Bss)]
            && h[0].filesz == Size(false, a.off, 0) && h[1].filesz == Size(false, a.off, 1) &&
              h[2].filesz == Size(false, a.off, 2)
            && h[0].vaddr + h[0].memsz <= h[1].vaddr && h[1].vaddr + h[1].memsz <= h[2].vaddr
            && h[0].offset == 148 && h[0].flags == 5 && h[1].flags == 4 && h[2].flags == 6
            && h[1].offset == h[0].offset + h[0].filesz && h[2].offset == h[1].offset + h[1].filesz
  {
    var a, b := Run1(false, p).value, Run2(false, Run1(false, p).value, enc, p).value;
    InStep(false, a, enc, p);
    hide Run1, Run2, Pack, AlignUp, Base, NextPage;
    PackedSize(b.out[0]);
    PackedSize(b.out[1]);
    PackedSize(b.out[2]);
    HeadersMatch(a.off, |Pack(b.out[0])|, |Pack(b.out[1])|, |Pack(b.out[2])|, b.bss);
  }
}
