/** The base64 codec of section 4 of RFC 4648. Bytes and characters are both 8-bit words, and the packing uses the
    code's own 32-bit shifts and masks. */
module Base64 {
  import opened Options
  import opened Bytes
  import opened Sequences

  datatype Error = BadLength | BadCharacter

  const PAD: Byte := 0x3D  // '='
  const INVALID: Byte := 0xFF

  // The alphabet: A-Z, a-z, 0-9, '+' and '/'.
  function Letter(v: Byte): Byte {
    if v < 26 then v + 65 else if v < 52 then v + 71 else if v < 62 then v - 4 else if v == 62 then 43 else 47
  }

  // The place of a character in the alphabet.
  function Value(c: Byte): Byte {
    if 65 <= c <= 90 then c - 65
    else if 97 <= c <= 122 then c - 71
    else if 48 <= c <= 57 then c + 4
    else if c == 43 then 62
    else if c == 47 then 63
    else INVALID
  }

  /** Value is the exact inverse of the alphabet, and marks everything else, '=' included, as invalid. */
  lemma ValueInvertsLetter(v: Byte, c: Byte)
    ensures v < 64 ==> Value(Letter(v)) == v && Letter(v) != PAD
    ensures Value(c) < 64 || Value(c) == INVALID
    ensures Value(c) != INVALID ==> Letter(Value(c)) == c
    ensures Value(PAD) == INVALID
  {
  }

  method MakeLookup() returns (table: array<Byte>)
    ensures fresh(table) && table.Length == 256
    ensures forall c: Byte :: table[Slot(c)] == Value(c)
  {
    table := new Byte[256](_ => INVALID);
    var i: Byte := 0;
    while i < 64
      invariant i <= 64
      invariant forall c: Byte :: table[Slot(c)] == if Value(c) < i then Value(c) else INVALID
      decreases 64 - i
    {
      Store(table, Letter(i), i);
      i := i + 1;
    }
  }

  // ------------------------------------------------------------------------------------------------- encoding

  function First6(a: Byte): Byte { a >> 2 }

  function Second6(a: Byte, b: Byte): Byte { ((a & 3) << 4) | (b >> 4) }

  function Third6(b: Byte, c: Byte): Byte { ((b & 15) << 2) | (c >> 6) }

  function Fourth6(c: Byte): Byte { c & 63 }

  // Three bytes are four groups of six bits, most significant first. With only n bytes, missing ones count as zero
  // and groups without any bit of a given byte become '='.
  function Quad(a: Byte, b: Byte, c: Byte, n: nat): (quad: seq<Byte>)
    ensures |quad| == 4
  {
    [Letter(First6(a)), Letter(Second6(a, b)),
     if n < 2 then PAD else Letter(Third6(b, c)), if n < 3 then PAD else Letter(Fourth6(c))]
  }

  function ByteAt(x: seq<Byte>, i: nat): Byte { if i < |x| then x[i] else 0 }

  function Encode(x: seq<Byte>): seq<Byte> {
    if x == [] then []
    else
      var n := if |x| < 3 then |x| else 3;
      Quad(x[0], ByteAt(x, 1), ByteAt(x, 2), n) + Encode(x[n..])
  }

  function Triple(a: Byte, b: Byte, c: Byte): bv32 {
    ((a as bv32) << 16) | ((b as bv32) << 8) | (c as bv32)
  }

  function Six(t: bv32, shift: bv6): Byte
    requires shift < 32
  {
    ((t >> shift) & 0x3F) as Byte
  }

  // The four characters pushed for a packed word.
  function Groups(t: bv32): (out: seq<Byte>)
    ensures |out| == 4
  {
    [Letter(Six(t, 18)), Letter(Six(t, 12)), Letter(Six(t, 6)), Letter(Six(t, 0))]
  }

  lemma TripleBits(a: Byte, b: Byte, c: Byte)
    ensures var t := Triple(a, b, c);
            && Six(t, 18) == First6(a) && Six(t, 12) == Second6(a, b)
            && Six(t, 6) == Third6(b, c) && Six(t, 0) == Fourth6(c)
  {
  }

  // Packing into one word and unpacking again gives the groups of the standard; n bytes were given.
  lemma GroupsOfTriple(a: Byte, b: Byte, c: Byte, n: nat)
    requires 1 <= n <= 3
    ensures var g := Groups(Triple(a, b, c));
            [g[0], g[1], if n < 2 then PAD else g[2], if n < 3 then PAD else g[3]] == Quad(a, b, c, n)
  {
    hide Letter, Triple, Six, First6, Second6, Third6, Fourth6;
    TripleBits(a, b, c);
  }

  lemma TriplePartial(a: Byte, b: Byte)
    ensures (a as bv32) << 16 == Triple(a, 0, 0)
    ensures ((a as bv32) << 16) | ((b as bv32) << 8) == Triple(a, b, 0)
  {
  }

  method EncodeB64(input: seq<Byte>) returns (out: seq<Byte>)
    ensures out == Encode(input)
  {
    hide Quad, Letter, Triple, Six;
    out := [];
    var i := 0;
    while i + 2 < |input|
      invariant i <= |input| && out + Encode(input[i..]) == Encode(input)
      decreases |input| - i
    {
      var triple := Triple(input[i], input[i + 1], input[i + 2]);
      GroupsOfTriple(input[i], input[i + 1], input[i + 2], 3);
      ghost var rest := Encode(input[i + 3..]);
      assert input[i..][3..] == input[i + 3..];
      assert Encode(input[i..]) == Groups(triple) + rest;
      assert (out + Groups(triple)) + rest == out + (Groups(triple) + rest);
      out := out + Groups(triple);
      i := i + 3;
    }
    if i < |input| {
      var last := EncodeRest(input[i..]);
      out := out + last;
    }
  }

  // The one or two bytes left after the whole triples.
  method EncodeRest(rest: seq<Byte>) returns (out: seq<Byte>)
    requires 1 <= |rest| <= 2
    ensures out == Encode(rest)
  {
    hide Quad, Letter, Triple, Six;
    var triple := (rest[0] as bv32) << 16;
    if 1 < |rest| { triple := triple | ((rest[1] as bv32) << 8); }
    TriplePartial(rest[0], ByteAt(rest, 1));
    GroupsOfTriple(rest[0], ByteAt(rest, 1), 0, |rest|);
    EncodeOneQuad(rest);
    var groups := Groups(triple);
    out := [groups[0], groups[1], if 1 < |rest| then groups[2] else PAD, PAD];
  }

  // ------------------------------------------------------------------------------------------------- decoding

  // The six bits a character contributes; padding contributes zeros.
  function Sextet(c: Byte): Byte { if c == PAD then 0 else Value(c) }

  predicate Readable(c: Byte) { c == PAD || Value(c) != INVALID }

  function Pads(quad: seq<Byte>): nat {
    if quad == [] then 0 else Pads(quad[..|quad| - 1]) + if quad[|quad| - 1] == PAD then 1 else 0
  }

  // Every '=', wherever it stands, takes one of a quad's three bytes off the end.
  function Trim(x: Byte, y: Byte, z: Byte, pads: nat): seq<Byte> {
    if pads == 0 then [x, y, z] else if pads == 1 then [x, y] else if pads == 2 then [x] else []
  }

  function Byte0(p: Byte, q: Byte): Byte { (p << 2) | (q >> 4) }

  function Byte1(q: Byte, r: Byte): Byte { (q << 4) | (r >> 2) }

  function Byte2(r: Byte, s: Byte): Byte { (r << 6) | s }

  // The bytes of four groups of six bits.
  function QuadBytes(a: Byte, b: Byte, c: Byte, d: Byte): seq<Byte> {
    var p, q, r, s := Sextet(a), Sextet(b), Sextet(c), Sextet(d);
    Trim(Byte0(p, q), Byte1(q, r), Byte2(r, s), Pads([a, b, c, d]))
  }

  function Prepend(out: seq<Byte>, r: Result<seq<Byte>, Error>): Result<seq<Byte>, Error> {
    if r.Err? then r else Ok(out + r.value)
  }

  // What one quad decodes to on its own.
  function OneQuad(quad: seq<Byte>): Result<seq<Byte>, Error>
    requires |quad| == 4
  {
    if exists j :: 0 <= j < 4 && !Readable(quad[j]) then Err(BadCharacter)
    else Ok(QuadBytes(quad[0], quad[1], quad[2], quad[3]))
  }

  function DecodeQuads(s: seq<Byte>): Result<seq<Byte>, Error>
    requires |s| % 4 == 0
  {
    if s == [] then Ok([])
    else
      var first := OneQuad(s[..4]);
      if first.Err? then first else Prepend(first.value, DecodeQuads(s[4..]))
  }

  function Decode(s: seq<Byte>): Result<seq<Byte>, Error> {
    if |s| % 4 != 0 then Err(BadLength) else DecodeQuads(s)
  }

  // One pass of the inner loop: six more bits at the low end.
  function Push6(word: bv32, v: Byte): bv32 { (word << 6) | (v as bv32) }

  // The word after the characters of a prefix of a quad.
  function Word(quad: seq<Byte>): bv32 {
    if quad == [] then 0 else Push6(Word(quad[..|quad| - 1]), Sextet(quad[|quad| - 1]))
  }

  lemma WordBits(a: Byte, b: Byte, c: Byte, d: Byte)
    requires a < 64 && b < 64 && c < 64 && d < 64
    ensures var w: bv32 := Push6(Push6(Push6(Push6(0, a), b), c), d);
            WordByte(w, 16) == Byte0(a, b) && WordByte(w, 8) == Byte1(b, c) && WordByte(w, 0) == Byte2(c, d)
  {
  }

  lemma WordOfQuad(a: Byte, b: Byte, c: Byte, d: Byte)
    ensures Word([a, b, c, d]) == Push6(Push6(Push6(Push6(0, Sextet(a)), Sextet(b)), Sextet(c)), Sextet(d))
  {
    hide Sextet, Push6;
    assert [a, b, c, d][..3] == [a, b, c] && [a, b, c][..2] == [a, b] && [a, b][..1] == [a] && [a][..0] == [];
    assert Word([a]) == Push6(0, Sextet(a));
    assert Word([a, b]) == Push6(Word([a]), Sextet(b));
    assert Word([a, b, c]) == Push6(Word([a, b]), Sextet(c));
  }

  // The byte pushed for each eight bits of the word.
  function WordByte(word: bv32, shift: bv6): Byte
    requires shift < 32
  {
    ((word >> shift) & 0xFF) as Byte
  }

  lemma WordBytes(a: Byte, b: Byte, c: Byte, d: Byte)
    requires Readable(a) && Readable(b) && Readable(c) && Readable(d)
    ensures var w := Word([a, b, c, d]);
            QuadBytes(a, b, c, d) == Trim(WordByte(w, 16), WordByte(w, 8), WordByte(w, 0), Pads([a, b, c, d]))
  {
    WordOfQuad(a, b, c, d);
    SextetSmall(a);
    SextetSmall(b);
    SextetSmall(c);
    SextetSmall(d);
    hide Sextet, Word, Readable, Pads, Push6, WordByte, Trim, Byte0, Byte1, Byte2;
    WordBits(Sextet(a), Sextet(b), Sextet(c), Sextet(d));
  }

  lemma SextetSmall(c: Byte)
    requires Readable(c)
    ensures Sextet(c) < 64
  {
  }

  method DecodeB64(input: seq<Byte>) returns (r: Result<seq<Byte>, Error>)
    ensures r == Decode(input)
  {
    hide OneQuad, DecodeQuads;
    var lookup := MakeLookup();
    if |input| % 4 != 0 { return Err(BadLength); }
    var out: seq<Byte> := [];
    var i := 0;
    assert input[0..] == input;
    PrependNothing(DecodeQuads(input));
    while i < |input|
      invariant i <= |input| && i % 4 == 0
      invariant forall c: Byte :: lookup[Slot(c)] == Value(c)
      invariant DecodeQuads(input) == Prepend(out, DecodeQuads(input[i..]))
      decreases |input| - i
    {
      var bytes := DecodeQuad(lookup, input[i..i + 4]);
      DecodeStep(input, i);
      if bytes.Err? { return bytes; }
      PrependTwice(out, bytes.value, DecodeQuads(input[i + 4..]));
      out := out + bytes.value;
      i := i + 4;
    }
    assert input[i..] == [] && out + [] == out;
    DecodeNothing();
    r := Ok(out);
  }

  lemma DecodeNothing()
    ensures DecodeQuads([]) == Ok([])
  {
  }

  lemma DecodeStep(s: seq<Byte>, i: nat)
    requires i + 4 <= |s| && i % 4 == |s| % 4 == 0
    ensures var first := OneQuad(s[i..i + 4]);
            DecodeQuads(s[i..]) == if first.Err? then first else Prepend(first.value, DecodeQuads(s[i + 4..]))
  {
    hide OneQuad;
    var rest := s[i..];
    assert rest[..4] == s[i..i + 4] && rest[4..] == s[i + 4..];
    assert DecodeQuads(rest) == (var first := OneQuad(rest[..4]);
                                if first.Err? then first else Prepend(first.value, DecodeQuads(rest[4..])));
  }

  lemma PrependNothing(r: Result<seq<Byte>, Error>)
    ensures Prepend([], r) == r
  {
    if r.Ok? { assert [] + r.value == r.value; }
  }

  lemma PrependTwice(a: seq<Byte>, b: seq<Byte>, r: Result<seq<Byte>, Error>)
    ensures Prepend(a, Prepend(b, r)) == Prepend(a + b, r)
  {
    if r.Ok? { assert a + (b + r.value) == (a + b) + r.value; }
  }

  lemma SextetOfLookup(c: Byte)
    ensures Readable(PAD) && Sextet(PAD) == 0
    ensures c != PAD ==> (Readable(c) <==> Value(c) != INVALID) && Sextet(c) == Value(c)
  {
  }

  // One pass of the outer loop: the inner loop over four characters, then the bytes it pushes.
  method DecodeQuad(lookup: array<Byte>, quad: seq<Byte>) returns (r: Result<seq<Byte>, Error>)
    requires |quad| == 4 && lookup.Length == 256
    requires forall c: Byte :: lookup[Slot(c)] == Value(c)
    ensures r == OneQuad(quad)
  {
    hide QuadBytes, Push6, WordByte, Value, Sextet, Readable, Trim;
    var word: bv32, pads := 0, 0;
    for j := 0 to 4
      invariant forall k :: 0 <= k < j ==> Readable(quad[k])
      invariant pads == Pads(quad[..j]) && word == Word(quad[..j])
    {
      var c := quad[j];
      SextetOfLookup(c);
      assert quad[..j + 1][..j] == quad[..j];
      if c == PAD {
        word := Push6(word, 0);
        pads := pads + 1;
      } else {
        var v := lookup[Slot(c)];
        if v == INVALID {
          assert !Readable(quad[j]);
          return Err(BadCharacter);
        }
        word := Push6(word, v);
      }
    }
    assert quad[..4] == quad && quad == [quad[0], quad[1], quad[2], quad[3]];
    assert forall k :: 0 <= k < 4 ==> Readable(quad[k]);
    WordBytes(quad[0], quad[1], quad[2], quad[3]);
    assert pads == Pads([quad[0], quad[1], quad[2], quad[3]]);
    var out := EmitBytes(word, pads);
    r := Ok(out);
  }

  // The pushes after the inner loop, each held back by one more pad.
  method EmitBytes(word: bv32, pads: nat) returns (out: seq<Byte>)
    ensures out == Trim(WordByte(word, 16), WordByte(word, 8), WordByte(word, 0), pads)
  {
    hide WordByte;
    out := [];
    if pads < 3 { out := out + [WordByte(word, 16)]; }
    if pads < 2 { out := out + [WordByte(word, 8)]; }
    if pads < 1 { out := out + [WordByte(word, 0)]; }
  }

  // -------------------------------------------------------------------------------------- what the codec promises

  lemma {:induction false} EncodedLength(x: seq<Byte>)
    ensures |Encode(x)| == 4 * ((|x| + 2) / 3)
  {
    hide Letter;
    if |x| >= 3 {
      EncodedLength(x[3..]);
      assert (|x| + 2) / 3 == (|x| - 3 + 2) / 3 + 1;
    } else if x != [] {
      assert Encode(x[|x|..]) == [];
    }
  }

  // Whole triples encode on their own.
  lemma {:induction false} EncodeConcat(a: seq<Byte>, b: seq<Byte>)
    requires |a| % 3 == 0
    ensures Encode(a + b) == Encode(a) + Encode(b)
  {
    if a == [] {
      assert a + b == b;
    } else {
      hide Encode;
      EncodeConcat(a[3..], b);
      ConcatStep(a, b);
    }
  }

  lemma ConcatStep(a: seq<Byte>, b: seq<Byte>)
    requires |a| >= 3 && Encode(a[3..] + b) == Encode(a[3..]) + Encode(b)
    ensures Encode(a + b) == Encode(a) + Encode(b)
  {
    hide Quad, Encode;
    EncodeTriple(a);
    EncodeTriple(a + b);
    assert (a + b)[3..] == a[3..] + b;
    Regroup(Quad(a[0], a[1], a[2], 3), Encode(a[3..]), Encode(b));
  }

  lemma EncodeTriple(x: seq<Byte>)
    requires |x| >= 3
    ensures Encode(x) == Quad(x[0], x[1], x[2], 3) + Encode(x[3..])
  {
    hide Quad;
  }

  // decode_b64 answers exactly when the length is right and every character is in the alphabet or '='.
  lemma {:induction false} DecodeAccepts(s: seq<Byte>)
    ensures Decode(s).Ok? <==> |s| % 4 == 0 && forall i :: 0 <= i < |s| ==> Readable(s[i])
    ensures Decode(s).Err? ==> Decode(s).error == if |s| % 4 == 0 then BadCharacter else BadLength
  {
    hide QuadBytes, Readable;
    if |s| % 4 == 0 && s != [] {
      DecodeAccepts(s[4..]);
      assert forall i :: 0 <= i < 4 ==> s[i] == s[..4][i];
      assert forall i :: 4 <= i < |s| ==> s[i] == s[4..][i - 4];
    }
  }

  lemma PadsOf(a: Byte, b: Byte, c: Byte, d: Byte)
    ensures Pads([a, b, c, d]) == (if a == PAD then 1 else 0) + (if b == PAD then 1 else 0)
                                  + (if c == PAD then 1 else 0) + (if d == PAD then 1 else 0)
  {
    assert [a, b, c, d][..3] == [a, b, c] && [a, b, c][..2] == [a, b] && [a, b][..1] == [a] && [a][..0] == [];
    assert Pads([a]) == if a == PAD then 1 else 0;
    assert Pads([a, b]) == Pads([a]) + if b == PAD then 1 else 0;
    assert Pads([a, b, c]) == Pads([a, b]) + if c == PAD then 1 else 0;
  }

  // Taking three bytes apart into groups and putting them together again.
  lemma BytesOfGroups(a: Byte, b: Byte, c: Byte)
    ensures var p, q, r, s := First6(a), Second6(a, b), Third6(b, c), Fourth6(c);
            && p < 64 && q < 64 && r < 64 && s < 64
            && Byte0(p, q) == a && Byte1(q, r) == b && Byte2(r, s) == c
  {
  }

  lemma LetterReads(v: Byte)
    requires v < 64
    ensures Letter(v) != PAD && Readable(Letter(v)) && Sextet(Letter(v)) == v
  {
  }

  lemma OneQuadOf(a: Byte, b: Byte, c: Byte, d: Byte)
    requires Readable(a) && Readable(b) && Readable(c) && Readable(d)
    ensures OneQuad([a, b, c, d]) == Ok(QuadBytes(a, b, c, d))
  {
    hide Readable, QuadBytes;
  }

  // The quad an encoder makes of n bytes decodes to them.
  lemma QuadDecodes(a: Byte, b: Byte, c: Byte, n: nat)
    requires 1 <= n <= 3 && (n < 2 ==> b == 0) && (n < 3 ==> c == 0)
    ensures OneQuad(Quad(a, b, c, n)) == Ok([a, b, c][..n])
  {
    var p, q, r, s := First6(a), Second6(a, b), Third6(b, c), Fourth6(c);
    BytesOfGroups(a, b, c);
    LetterReads(p);
    LetterReads(q);
    LetterReads(r);
    LetterReads(s);
    assert n < 2 ==> r == 0;
    assert n < 3 ==> s == 0;
    PadReads();
    var third, fourth := if n < 2 then PAD else Letter(r), if n < 3 then PAD else Letter(s);
    hide Letter, Sextet, Readable, Pads, Byte0, Byte1, Byte2, First6, Second6, Third6, Fourth6;
    hide OneQuad, QuadBytes, Trim;
    PadsOf(Letter(p), Letter(q), third, fourth);
    OneQuadOf(Letter(p), Letter(q), third, fourth);
    TrimIsPrefix(a, b, c, n);
  }

  lemma TrimIsPrefix(a: Byte, b: Byte, c: Byte, n: nat)
    requires 1 <= n <= 3
    ensures [a, b, c][..n] == Trim(a, b, c, 3 - n)
  {
  }

  lemma PadReads()
    ensures Readable(PAD) && Sextet(PAD) == 0
  {
  }

  lemma DecodeOneQuad(quad: seq<Byte>, rest: seq<Byte>)
    requires |quad| == 4 && |rest| % 4 == 0 && OneQuad(quad).Ok? && DecodeQuads(rest).Ok?
    ensures Decode(quad + rest) == Ok(OneQuad(quad).value + DecodeQuads(rest).value)
  {
    hide OneQuad;
    var s := quad + rest;
    assert s[..4] == quad;
    assert s[4..] == rest;
    assert DecodeQuads(s) == Prepend(OneQuad(s[..4]).value, DecodeQuads(s[4..]));
  }

  /** Round trip: every byte string is what its encoding decodes to. */
  lemma {:induction false} DecodeEncode(x: seq<Byte>)
    ensures Decode(Encode(x)) == Ok(x)
  {
    hide OneQuad, Quad;
    if x != [] {
      var n := if |x| < 3 then |x| else 3;
      var b, c := ByteAt(x, 1), ByteAt(x, 2);
      QuadDecodes(x[0], b, c, n);
      DecodeEncode(x[n..]);
      EncodedLength(x[n..]);
      DecodeOneQuad(Quad(x[0], b, c, n), Encode(x[n..]));
      assert [x[0], b, c][..n] + x[n..] == x;
    }
  }

  // -------------------------------------------------------------------------------------------- canonical form

  predicate IsLetter(c: Byte) { Value(c) != INVALID }

  // Padding only in the last place or the last two, and no bits set that the padding discards.
  predicate LastQuad(quad: seq<Byte>)
    requires |quad| == 4
  {
    && IsLetter(quad[0]) && IsLetter(quad[1])
    && (if quad[3] != PAD then IsLetter(quad[2]) && IsLetter(quad[3])
        else if quad[2] != PAD then IsLetter(quad[2]) && Value(quad[2]) & 3 == 0
        else Value(quad[1]) & 15 == 0)
  }

  // Section 3.5 of RFC 4648.
  ghost predicate Canonical(s: seq<Byte>) {
    && |s| % 4 == 0
    && (forall i :: 0 <= i < |s| - 4 ==> IsLetter(s[i]))
    && (s != [] ==> LastQuad(s[|s| - 4..]))
  }

  lemma GroupsOfBytes(p: Byte, q: Byte, r: Byte, s: Byte)
    requires p < 64 && q < 64 && r < 64 && s < 64
    ensures First6(Byte0(p, q)) == p && Second6(Byte0(p, q), Byte1(q, r)) == q
    ensures Third6(Byte1(q, r), Byte2(r, s)) == r && Fourth6(Byte2(r, s)) == s
    ensures q & 15 == 0 ==> Second6(Byte0(p, q), 0) == q
    ensures r & 3 == 0 ==> Third6(Byte1(q, r), 0) == r
  {
  }

  lemma ReadsLetter(c: Byte)
    requires IsLetter(c)
    ensures c != PAD && Readable(c) && Sextet(c) == Value(c) < 64 && Letter(Sextet(c)) == c
  {
  }

  // A canonical last quad decodes to the bytes it encodes, and encoding them gives it back.
  lemma LastQuadEncodes(quad: seq<Byte>)
    requires |quad| == 4 && LastQuad(quad)
    ensures OneQuad(quad).Ok? && 1 <= |OneQuad(quad).value| <= 3
    ensures (quad[3] != PAD) ==> |OneQuad(quad).value| == 3
    ensures var v := OneQuad(quad).value; Quad(v[0], ByteAt(v, 1), ByteAt(v, 2), |v|) == quad
  {
    ReadsLetter(quad[0]);
    ReadsLetter(quad[1]);
    if quad[2] != PAD { ReadsLetter(quad[2]); }
    if quad[3] != PAD { ReadsLetter(quad[3]); }
    PadReads();
    var p, q, r, s := Sextet(quad[0]), Sextet(quad[1]), Sextet(quad[2]), Sextet(quad[3]);
    GroupsOfBytes(p, q, r, s);
    hide Sextet, Letter, Readable, Pads, Value, Byte0, Byte1, Byte2, First6, Second6, Third6, Fourth6;
    PadsOf(quad[0], quad[1], quad[2], quad[3]);
    assert quad == [quad[0], quad[1], quad[2], quad[3]];
  }

  lemma EncodeOneQuad(v: seq<Byte>)
    requires 1 <= |v| <= 3
    ensures Encode(v) == Quad(v[0], ByteAt(v, 1), ByteAt(v, 2), |v|)
  {
    hide Quad;
    assert Encode(v[|v|..]) == [];
  }

  // A canonical string of more than one quad starts with a whole one.
  lemma FrontQuad(s: seq<Byte>)
    requires Canonical(s) && |s| > 4
    ensures LastQuad(s[..4]) && s[3] != PAD && Canonical(s[4..])
  {
    assert s[|s| - 4..] == s[4..][|s| - 8..];
    assert IsLetter(s[0]) && IsLetter(s[1]) && IsLetter(s[2]) && IsLetter(s[3]);
    assert s[3] != PAD by { ReadsLetter(s[3]); }
    assert s[2] != PAD by { ReadsLetter(s[2]); }
    hide IsLetter, Value;
  }

  lemma EncodesBefore(quad: seq<Byte>, rest: seq<Byte>)
    requires |quad| == 4 && LastQuad(quad) && (rest == [] || quad[3] != PAD)
    requires Decode(rest).Ok? && Encode(Decode(rest).value) == rest
    ensures Decode(quad + rest).Ok? && Encode(Decode(quad + rest).value) == quad + rest
  {
    LastQuadEncodes(quad);
    var v, w := OneQuad(quad).value, Decode(rest).value;
    DecodeOneQuad(quad, rest);
    EncodeOneQuad(v);
    if rest == [] {
      assert w == [] && v + w == v && quad + rest == quad;
    } else {
      hide Encode, Decode, OneQuad, Quad, LastQuad;
      EncodeConcat(v, w);
    }
  }

  lemma {:induction false} CanonicalEncodes(s: seq<Byte>)
    requires Canonical(s)
    ensures Decode(s).Ok? && Encode(Decode(s).value) == s
  {
    if s != [] {
      assert s[..4] + s[4..] == s;
      if |s| > 4 { FrontQuad(s); } else { assert s[0..] == s; }
      hide Encode, Decode, LastQuad;
      CanonicalEncodes(s[4..]);
      EncodesBefore(s[..4], s[4..]);
    }
  }

  lemma QuadIsLast(a: Byte, b: Byte, c: Byte, n: nat)
    requires 1 <= n <= 3 && (n < 2 ==> b == 0) && (n < 3 ==> c == 0)
    ensures LastQuad(Quad(a, b, c, n))
    ensures n == 3 ==> forall i :: 0 <= i < 4 ==> IsLetter(Quad(a, b, c, n)[i])
  {
    BytesOfGroups(a, b, c);
    LetterReads(First6(a));
    LetterReads(Second6(a, b));
    LetterReads(Third6(b, c));
    LetterReads(Fourth6(c));
    assert n < 2 ==> Second6(a, b) & 15 == 0;
    assert n < 3 ==> Third6(b, c) & 3 == 0;
  }

  lemma QuadThenCanonical(quad: seq<Byte>, rest: seq<Byte>)
    requires |quad| == 4 && LastQuad(quad) && Canonical(rest)
    requires rest != [] ==> forall i :: 0 <= i < 4 ==> IsLetter(quad[i])
    ensures Canonical(quad + rest)
  {
    hide LastQuad, IsLetter;
    var s := quad + rest;
    if rest == [] {
      assert s[|s| - 4..] == quad;
    } else {
      assert s[|s| - 4..] == rest[|rest| - 4..];
    }
  }

  lemma {:induction false} EncodeIsCanonical(x: seq<Byte>)
    ensures Canonical(Encode(x))
  {
    if x != [] {
      var n := if |x| < 3 then |x| else 3;
      QuadIsLast(x[0], ByteAt(x, 1), ByteAt(x, 2), n);
      hide Quad, LastQuad, IsLetter;
      var quad, rest := Quad(x[0], ByteAt(x, 1), ByteAt(x, 2), n), Encode(x[n..]);
      EncodeIsCanonical(x[n..]);
      EncodedLength(x[n..]);
      assert Encode(x) == quad + rest;
      QuadThenCanonical(quad, rest);
    }
  }

  /** Among the strings decode_b64 accepts, exactly the canonical ones are recovered by encoding the result. */
  lemma RecoveredIffCanonical(s: seq<Byte>)
    requires Decode(s).Ok?
    ensures Encode(Decode(s).value) == s <==> Canonical(s)
  {
    EncodeIsCanonical(Decode(s).value);
    if Canonical(s) { CanonicalEncodes(s); }
  }

  // decode_b64 is laxer than the standard: padding anywhere is accepted, and "====" decodes to nothing.
  lemma PaddingAnywhere()
    ensures Decode([PAD, PAD, PAD, PAD]) == Ok([])
    ensures Encode([]) != [PAD, PAD, PAD, PAD]
  {
    var four := [PAD, PAD, PAD, PAD];
    PadReads();
    PadsOf(PAD, PAD, PAD, PAD);
    assert forall i :: 0 <= i < 4 ==> four[i] == PAD;
    assert QuadBytes(PAD, PAD, PAD, PAD) == [];
    assert OneQuad(four) == Ok([]);
    DecodeOneQuad(four, []);
    var none: seq<Byte> := [];
    assert four + none == four && none + none == none;
  }
}
