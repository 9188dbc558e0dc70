/** The hexadecimal codec of section 8 of RFC 4648. */
module Hex {
  import opened Options
  import opened Bytes

  datatype Error = OddLength | BadCharacter

  const INVALID: Byte := 0xFF

  // "0123456789ABCDEF"
  function Digit(v: Byte): Byte { if v < 10 then v + 48 else v + 55 }

  // The value of a digit in either case.
  function Value(c: Byte): Byte {
    if 48 <= c <= 57 then c - 48
    else if 65 <= c <= 70 then c - 55
    else if 97 <= c <= 102 then c - 87
    else INVALID
  }

  method MakeLookup() returns (table: array<Byte>)
    ensures fresh(table) && table.Length == 256
    ensures forall c: Byte :: table[Slot(c)] == Value(c)
  {
    table := new Byte[256](_ => INVALID);
    var c: Byte := 48;
    while c <= 57
      invariant 48 <= c <= 58
      invariant forall d: Byte :: table[Slot(d)] == if d < c then Value(d) else INVALID
      decreases 58 - c
    {
      Store(table, c, c - 48);
      c := c + 1;
    }
    c := 65;
    while c <= 70
      invariant 65 <= c <= 71
      invariant forall d: Byte :: table[Slot(d)] == if d < c then Value(d) else INVALID
      decreases 71 - c
    {
      Store(table, c, c - 65 + 10);
      c := c + 1;
    }
    c := 97;
    while c <= 102
      invariant 97 <= c <= 103
      invariant forall d: Byte :: table[Slot(d)] == if d < c then Value(d) else INVALID
      decreases 103 - c
    {
      Store(table, c, c - 97 + 10);
      c := c + 1;
    }
  }

  function Hi(b: Byte): Byte { b >> 4 }

  function Lo(b: Byte): Byte { b & 0x0F }

  function Encode(x: seq<Byte>): seq<Byte> {
    if x == [] then [] else [Digit(Hi(x[0])), Digit(Lo(x[0]))] + Encode(x[1..])
  }

  method EncodeHex(input: seq<Byte>) returns (out: seq<Byte>)
    ensures out == Encode(input)
  {
    hide Digit, Hi, Lo;
    out := [];
    for i := 0 to |input|
      invariant out + Encode(input[i..]) == Encode(input)
    {
      assert input[i..][1..] == input[i + 1..];
      ghost var rest := Encode(input[i + 1..]);
      ghost var pair := [Digit(Hi(input[i])), Digit(Lo(input[i]))];
      assert Encode(input[i..]) == pair + rest;
      assert (out + pair) + rest == out + (pair + rest);
      assert (out + [Digit(Hi(input[i]))]) + [Digit(Lo(input[i]))] == out + pair;
      out := out + [Digit(Hi(input[i]))];
      out := out + [Digit(Lo(input[i]))];
    }
  }

  predicate IsDigit(c: Byte) { Value(c) != INVALID }

  function Joined(hi: Byte, lo: Byte): Byte { (hi << 4) | lo }

  function DecodePairs(s: seq<Byte>): Result<seq<Byte>, Error>
    requires |s| % 2 == 0
  {
    if s == [] then Ok([])
    else if !IsDigit(s[0]) || !IsDigit(s[1]) then Err(BadCharacter)
    else
      var rest := DecodePairs(s[2..]);
      if rest.Err? then rest else Ok([Joined(Value(s[0]), Value(s[1]))] + rest.value)
  }

  function Decode(s: seq<Byte>): Result<seq<Byte>, Error> {
    if |s| % 2 != 0 then Err(OddLength) else DecodePairs(s)
  }

  method DecodeHex(input: seq<Byte>) returns (r: Result<seq<Byte>, Error>)
    ensures r == Decode(input)
  {
    hide Value, Joined;
    var lookup := MakeLookup();
    if |input| % 2 != 0 { return Err(OddLength); }
    var out: seq<Byte> := [];
    var i := 0;
    while i < |input|
      invariant i <= |input| && i % 2 == 0
      invariant forall c: Byte :: lookup[Slot(c)] == Value(c)
      invariant DecodePairs(input).Err? <==> DecodePairs(input[i..]).Err?
      invariant DecodePairs(input).Err? ==> DecodePairs(input) == DecodePairs(input[i..])
      invariant DecodePairs(input).Ok? ==> DecodePairs(input).value == out + DecodePairs(input[i..]).value
      decreases |input| - i
    {
      var hi := lookup[Slot(input[i])];
      var lo := lookup[Slot(input[i + 1])];
      assert input[i..][2..] == input[i + 2..];
      if hi == INVALID || lo == INVALID { return Err(BadCharacter); }
      out := out + [Joined(hi, lo)];
      i := i + 2;
    }
    assert input[i..] == [] && out + [] == out;
    r := Ok(out);
  }

  // ---------------------------------------------------------------------------------- what the codec promises

  lemma NibblesOfByte(b: Byte)
    ensures IsDigit(Digit(Hi(b))) && IsDigit(Digit(Lo(b)))
    ensures Joined(Value(Digit(Hi(b))), Value(Digit(Lo(b)))) == b
  {
  }

  lemma {:induction false} EncodedLength(x: seq<Byte>)
    ensures |Encode(x)| == 2 * |x|
  {
    if x != [] { EncodedLength(x[1..]); }
  }

  /** Round trip: every byte string is what its encoding decodes to. */
  lemma {:induction false} DecodeEncode(x: seq<Byte>)
    ensures Decode(Encode(x)) == Ok(x)
  {
    EncodedLength(x);
    if x != [] {
      hide Digit, Hi, Lo, Value, Joined, IsDigit;
      NibblesOfByte(x[0]);
      DecodeEncode(x[1..]);
      EncodedLength(x[1..]);
      assert Encode(x)[2..] == Encode(x[1..]);
      assert [x[0]] + x[1..] == x;
    }
  }

  lemma {:induction false} DecodeAccepts(s: seq<Byte>)
    ensures Decode(s).Ok? <==> |s| % 2 == 0 && forall i :: 0 <= i < |s| ==> IsDigit(s[i])
    ensures Decode(s).Err? ==> Decode(s).error == if |s| % 2 == 0 then BadCharacter else OddLength
  {
    hide IsDigit, Joined;
    if |s| % 2 == 0 && s != [] {
      DecodeAccepts(s[2..]);
      assert forall i :: 2 <= i < |s| ==> s[i] == s[2..][i - 2];
    }
  }

  function Upper(c: Byte): Byte { if 97 <= c <= 122 then c - 32 else c }

  function UpperAll(s: seq<Byte>): (u: seq<Byte>)
    ensures |u| == |s| && forall i :: 0 <= i < |s| ==> u[i] == Upper(s[i])
  {
    seq(|s|, i requires 0 <= i < |s| => Upper(s[i]))
  }

  lemma DigitsOfPair(a: Byte, b: Byte)
    requires IsDigit(a) && IsDigit(b)
    ensures Digit(Hi(Joined(Value(a), Value(b)))) == Upper(a)
    ensures Digit(Lo(Joined(Value(a), Value(b)))) == Upper(b)
  {
  }

  /** Encoding what was decoded gives the accepted text back in upper case. */
  lemma {:induction false} EncodeDecode(s: seq<Byte>)
    requires Decode(s).Ok?
    ensures Encode(Decode(s).value) == UpperAll(s)
  {
    if s != [] {
      DigitsOfPair(s[0], s[1]);
      hide Digit, Hi, Lo, Value, Joined, IsDigit, Upper;
      EncodeDecode(s[2..]);
      var b, rest := Joined(Value(s[0]), Value(s[1])), Decode(s[2..]).value;
      assert ([b] + rest)[1..] == rest;
      assert UpperAll(s) == [Upper(s[0]), Upper(s[1])] + UpperAll(s[2..]);
    }
  }

  // --------------------------------------------------------------------------------------- the standard's digits

  const DIGITS := "0123456789ABCDEF"

  lemma DigitIsStandard(v: Byte)
    requires v < 16
    ensures Digit(v) as int == DIGITS[v as int] as int && Value(Digit(v)) == v
  {
    var i := v as int;
    assert i < 16;
    DigitAt(i);
    DigitByRange(v);
  }

  lemma DigitAt(i: nat)
    requires i < 16
    ensures DIGITS[i] as int == if i < 10 then 48 + i else 55 + i
  {
    assert DIGITS == "0123456789ABCDEF";
  }

  lemma DigitByRange(v: Byte)
    requires v < 16
    ensures var i := v as int; Digit(v) as int == if i < 10 then 48 + i else 55 + i
  {
  }

  lemma NibblesAre(b: Byte)
    ensures Hi(b) < 16 && Lo(b) < 16 && Hi(b) as int == b as int / 16 && Lo(b) as int == b as int % 16
  {
  }

  /** Section 8 of RFC 4648: each byte is its high digit and then its low digit, of the literal alphabet. */
  lemma {:induction false} EncodesDigits(x: seq<Byte>, i: nat)
    requires i < |x|
    ensures |Encode(x)| == 2 * |x|
    ensures Encode(x)[2 * i] as int == DIGITS[x[i] as int / 16] as int
    ensures Encode(x)[2 * i + 1] as int == DIGITS[x[i] as int % 16] as int
  {
    EncodedLength(x);
    EncodedLength(x[1..]);
    var pair := [Digit(Hi(x[0])), Digit(Lo(x[0]))];
    assert Encode(x) == pair + Encode(x[1..]);
    NibblesAre(x[0]);
    DigitIsStandard(Hi(x[0]));
    DigitIsStandard(Lo(x[0]));
    hide Encode, Digit, Hi, Lo;
    if i > 0 { EncodesDigits(x[1..], i - 1); }
  }
}
