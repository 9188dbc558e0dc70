/** The base64 encoding as section 4 of RFC 4648 describes it: the literal alphabet, and the input as one stream of
    bits of which each character stands for six. */
module Base64Standard {
  import opened Options
  import opened Bytes
  import opened Base64

  const UPPER := "ABCDEFGHIJKLMNOPQRSTUVWXYZ"
  const LOWER := "abcdefghijklmnopqrstuvwxyz"
  const DIGITS := "0123456789+/"

  const ALPHABET := UPPER + LOWER + DIGITS

  lemma UpperAt(i: nat)
    requires i < 26
    ensures UPPER[i] as int == 65 + i
  {
    assert UPPER == "ABCDEFGHIJKLMNOPQRSTUVWXYZ";
  }

  lemma LowerAt(i: nat)
    requires i < 26
    ensures LOWER[i] as int == 97 + i
  {
    assert LOWER == "abcdefghijklmnopqrstuvwxyz";
  }

  lemma DigitAt(i: nat)
    requires i < 12
    ensures DIGITS[i] as int == if i < 10 then 48 + i else if i == 10 then 43 else 47
  {
    assert DIGITS == "0123456789+/";
  }

  lemma LetterByRange(v: Byte)
    requires v < 64
    ensures var i := v as int;
            Letter(v) as int == if i < 26 then 65 + i else if i < 52 then 71 + i else if i < 62 then i - 4
                                else if i == 62 then 43 else 47
  {
  }

  /** The table is the alphabet of the standard, character by character. */
  lemma LetterIsAlphabet(v: Byte)
    requires v < 64
    ensures |ALPHABET| == 64 && Letter(v) as int == ALPHABET[v as int] as int
  {
    var i := v as int;
    assert i < 64;
    LetterByRange(v);
    if i < 26 { UpperAt(i); } else if i < 52 { LowerAt(i - 26); } else { DigitAt(i - 52); }
  }

  // And the decoder's table gives each character its place in the alphabet, and no other character one.
  lemma ValueIsPlace(c: Byte, v: Byte)
    requires v < 64
    ensures |ALPHABET| == 64 && (Value(c) == v <==> Slot(c) == ALPHABET[v as int] as int)
  {
    LetterIsAlphabet(v);
    ValueInvertsLetter(v, c);
    SlotInjective(c, Letter(v));
  }

  // ----------------------------------------------------------------------------------------- the stream of bits

  // Bit k of an octet, the most significant one first.
  function Bit(b: Byte, k: nat): bool {
    if k == 0 then b & 0x80 != 0
    else if k == 1 then b & 0x40 != 0
    else if k == 2 then b & 0x20 != 0
    else if k == 3 then b & 0x10 != 0
    else if k == 4 then b & 0x08 != 0
    else if k == 5 then b & 0x04 != 0
    else if k == 6 then b & 0x02 != 0
    else b & 0x01 != 0
  }

  // Bit n of the input, which is filled up with zeros at the end.
  function InputBit(x: seq<Byte>, n: nat): bool { Bit(ByteAt(x, n / 8), n % 8) }

  // Bit j of the six bits a letter stands for.
  function LetterBit(c: Byte, j: nat): bool { Bit(Value(c), j + 2) }

  lemma GroupBits(a: Byte, b: Byte, c: Byte, j: nat)
    requires j < 6
    ensures Bit(First6(a), j + 2) == Bit(a, j)
    ensures Bit(Second6(a, b), j + 2) == if j < 2 then Bit(a, j + 6) else Bit(b, j - 2)
    ensures Bit(Third6(b, c), j + 2) == if j < 4 then Bit(b, j + 4) else Bit(c, j - 4)
    ensures Bit(Fourth6(c), j + 2) == Bit(c, j + 2)
    ensures First6(a) < 64 && Second6(a, b) < 64 && Third6(b, c) < 64 && Fourth6(c) < 64
  {
    assert j == 0 || j == 1 || j == 2 || j == 3 || j == 4 || j == 5;
  }

  // Group i of a quad.
  function Group(a: Byte, b: Byte, c: Byte, i: nat): Byte {
    if i == 0 then First6(a) else if i == 1 then Second6(a, b) else if i == 2 then Third6(b, c) else Fourth6(c)
  }

  lemma QuadAt(a: Byte, b: Byte, c: Byte, n: nat, i: nat)
    requires 1 <= n <= 3 && i < 4
    ensures Quad(a, b, c, n)[i] == if i > n then PAD else Letter(Group(a, b, c, i))
  {
  }

  lemma GroupBit(x: seq<Byte>, i: nat, j: nat)
    requires x != [] && i < 4 && j < 6
    ensures var v := Group(x[0], ByteAt(x, 1), ByteAt(x, 2), i); v < 64 && Bit(v, j + 2) == InputBit(x, 6 * i + j)
  {
    GroupBits(x[0], ByteAt(x, 1), ByteAt(x, 2), j);
    hide First6, Second6, Third6, Fourth6, Bit;
    if i == 0 {
      Place(0, j);
    } else if i == 1 {
      if j < 2 { Place(0, j + 6); } else { Place(1, j - 2); }
    } else if i == 2 {
      if j < 4 { Place(1, j + 4); } else { Place(2, j - 4); }
    } else {
      Place(2, j + 2);
    }
  }

  /** c is character i of a base64 text for x, as far as bit j of its six: '=' if it has no bit of the input, and
      otherwise the letter of the alphabet whose place has that bit of the input, zero bits filling up the end. */
  ghost predicate StandsFor(c: Byte, x: seq<Byte>, i: nat, j: nat) {
    if 6 * i >= 8 * |x| then c == PAD
    else
      && c != PAD && Value(c) < 64 && LetterBit(c, j) == InputBit(x, 6 * i + j)
      && |ALPHABET| == 64 && c as int == ALPHABET[Value(c) as int] as int
  }

  lemma FirstQuadBits(x: seq<Byte>, i: nat, j: nat)
    requires x != [] && i < 4 && j < 6
    ensures var quad := Quad(x[0], ByteAt(x, 1), ByteAt(x, 2), if |x| < 3 then |x| else 3);
            StandsFor(quad[i], x, i, j)
  {
    var a, b, c := x[0], ByteAt(x, 1), ByteAt(x, 2);
    QuadAt(a, b, c, if |x| < 3 then |x| else 3, i);
    GroupBit(x, i, j);
    ValueInvertsLetter(Group(a, b, c, i), 0);
    LetterIsAlphabet(Group(a, b, c, i));
    hide Letter, Value, Group, Bit, Quad, InputBit;
  }

  lemma Place(octet: nat, k: nat)
    requires k < 8
    ensures (8 * octet + k) / 8 == octet && (8 * octet + k) % 8 == k
  {
  }

  /** Every character of an encoding, and so the whole encoding, is what the standard says. */
  lemma {:induction false} EncodesBits(x: seq<Byte>, i: nat, j: nat)
    requires i < |Encode(x)| && j < 6
    ensures StandsFor(Encode(x)[i], x, i, j)
    decreases i
  {
    var n := if |x| < 3 then |x| else 3;
    var quad, rest := Quad(x[0], ByteAt(x, 1), ByteAt(x, 2), n), Encode(x[n..]);
    assert Encode(x) == quad + rest;
    hide *;
    if i < 4 {
      FirstQuadBits(x, i, j);
    } else {
      EncodesBits(x[n..], i - 4, j);
      RestBits(rest[i - 4], x, n, i, j);
    }
  }

  lemma RestBits(c: Byte, x: seq<Byte>, n: nat, i: nat, j: nat)
    requires n == (if |x| < 3 then |x| else 3) && i >= 4 && StandsFor(c, x[n..], i - 4, j)
    ensures StandsFor(c, x, i, j)
  {
    if 6 * i < 8 * |x| {
      assert n == 3;
      Shifted(6 * (i - 4) + j);
      hide Bit, LetterBit, Value;
    }
  }

  lemma Shifted(m: nat)
    ensures (m + 24) / 8 == m / 8 + 3 && (m + 24) % 8 == m % 8
  {
  }

  // ---------------------------------------------------------------------------------------- padding when decoding

  // '=' read as the letter for zero.
  function AsZero(c: Byte): Byte { if c == PAD then 0x41 else c }

  lemma AsZeroReads(c: Byte)
    requires Readable(c)
    ensures Readable(AsZero(c)) && AsZero(c) != PAD && Sextet(AsZero(c)) == Sextet(c)
  {
  }

  /** Wherever it stands, '=' decodes as six zero bits and takes one byte off the end of its quad. */
  lemma PaddingIsZeros(a: Byte, b: Byte, c: Byte, d: Byte)
    requires Readable(a) && Readable(b) && Readable(c) && Readable(d)
    ensures var zeros := QuadBytes(AsZero(a), AsZero(b), AsZero(c), AsZero(d));
            var pads := Pads([a, b, c, d]);
            |zeros| == 3 && QuadBytes(a, b, c, d) == zeros[..if pads < 3 then 3 - pads else 0]
  {
    AsZeroReads(a);
    AsZeroReads(b);
    AsZeroReads(c);
    AsZeroReads(d);
    hide AsZero, Readable, Sextet, Byte0, Byte1, Byte2, Pads;
    PadsOf(a, b, c, d);
    PadsOf(AsZero(a), AsZero(b), AsZero(c), AsZero(d));
  }

  // ------------------------------------------------------------------------------------------------- examples

  // Of section 10 of RFC 4648: "", "f", "fo" and "foo". The last one has the letters for 62 only.
  lemma Examples()
    ensures Encode([]) == []
    ensures Encode([0x66]) == [0x5A, 0x67, PAD, PAD]
    ensures Encode([0x66, 0x6F]) == [0x5A, 0x6D, 0x38, PAD]
    ensures Encode([0x66, 0x6F, 0x6F]) == [0x5A, 0x6D, 0x39, 0x76]
    ensures Encode([0xFB, 0xEF, 0xBE]) == [0x2B, 0x2B, 0x2B, 0x2B]
    ensures PAD == 0x3D
  {
    EncodeOneQuad([0x66]);
    EncodeOneQuad([0x66, 0x6F]);
    EncodeOneQuad([0x66, 0x6F, 0x6F]);
    EncodeOneQuad([0xFB, 0xEF, 0xBE]);
  }
}
