/** What pins the scanners' numbers and units down: the literal digits, the place-value law, the units in seconds. */
module ScanDigits {
  import opened Options
  import opened Scan
  import opened Sequences

  const DIGITS := "0123456789"
  const HEX_DIGITS := "0123456789abcdef"

  lemma DigitsAre(c: char)
    ensures IsDigit(c) <==> c in DIGITS
    ensures IsDigit(c) ==> DigitValue(c) < 10 && DIGITS[DigitValue(c)] == c
  {
    assert DIGITS == "0123456789";
  }

  // Either case is read, and nothing else.
  lemma NibblesAre(c: char)
    ensures Nibble(c).Some? <==> ToLower(c) in HEX_DIGITS
    ensures Nibble(c).Some? ==> Nibble(c).value < 16 && HEX_DIGITS[Nibble(c).value] == ToLower(c)
    ensures c in "ABCDEF" ==> ToLower(c) in "abcdef" && c as int + 32 == ToLower(c) as int
    ensures c !in "ABCDEFGHIJKLMNOPQRSTUVWXYZ" ==> ToLower(c) == c
  {
    assert HEX_DIGITS == "0123456789abcdef";
  }

  // A digit in place k of n stands for itself times ten (or sixteen) to the number of places behind it.
  function Tens(n: nat): nat { if n == 0 then 1 else 10 * Tens(n - 1) }

  lemma NumberOfLast(s: string, c: char)
    requires AllDigits(s) && IsDigit(c)
    ensures AllDigits(s + [c]) && Number(s + [c]) == Number(s) * 10 + DigitValue(c)
  {
    assert (s + [c])[..|s|] == s;
  }

  lemma AllDigitsFront(b: string)
    requires b != [] && AllDigits(b)
    ensures AllDigits(b[..|b| - 1]) && IsDigit(b[|b| - 1]) && b == b[..|b| - 1] + [b[|b| - 1]]
  {
  }

  lemma {:induction false} NumberOfPair(a: string, b: string)
    requires AllDigits(a) && AllDigits(b)
    ensures AllDigits(a + b) && Number(a + b) == Number(a) * Tens(|b|) + Number(b)
  {
    if b == [] {
      assert a + b == a;
    } else {
      var front, c := b[..|b| - 1], b[|b| - 1];
      AllDigitsFront(b);
      hide *;
      NumberOfPair(a, front);
      NumberOfLast(a + front, c);
      NumberOfLast(front, c);
      Regroup(a, front, [c]);
      Distribute(Number(a), Tens(|front|), 10, Number(front));
    }
  }

  lemma HexNumberOfLast(s: string, c: char)
    requires AllHex(s) && Nibble(c).Some?
    ensures AllHex(s + [c]) && HexNumber(s + [c]) == HexNumber(s) * 16 + Nibble(c).value
  {
    assert (s + [c])[..|s|] == s;
  }

  lemma AllHexFront(b: string)
    requires b != [] && AllHex(b)
    ensures AllHex(b[..|b| - 1]) && Nibble(b[|b| - 1]).Some? && b == b[..|b| - 1] + [b[|b| - 1]]
  {
  }

  lemma {:induction false} HexNumberOfPair(a: string, b: string)
    requires AllHex(a) && AllHex(b)
    ensures AllHex(a + b) && HexNumber(a + b) == HexNumber(a) * Pow16(|b|) + HexNumber(b)
  {
    if b == [] {
      assert a + b == a;
    } else {
      var front, c := b[..|b| - 1], b[|b| - 1];
      AllHexFront(b);
      hide *;
      HexNumberOfPair(a, front);
      HexNumberOfLast(a + front, c);
      HexNumberOfLast(front, c);
      Regroup(a, front, [c]);
      Distribute(HexNumber(a), Pow16(|front|), 16, HexNumber(front));
    }
  }

  lemma Distribute(x: nat, y: nat, base: nat, z: nat)
    ensures (x * y + z) * base == x * (base * y) + z * base
  {
    assert (x * y) * base == x * (base * y);
  }

  lemma OneDigit(c: char)
    ensures IsDigit(c) ==> Number([c]) == DigitValue(c)
    ensures Nibble(c).Some? ==> HexNumber([c]) == Nibble(c).value
    ensures Number([]) == 0 && HexNumber([]) == 0
  {
    assert [c][..0] == [];
  }

  // One day, hour, minute and second in seconds, and the same in milliseconds.
  lemma Units()
    ensures Unit("d", false) == Unit("D", false) == Some(24 * 60 * 60)
    ensures Unit("h", false) == Unit("H", false) == Some(60 * 60)
    ensures Unit("m", false) == Unit("M", false) == Some(60)
    ensures Unit("s", false) == Unit("S", false) == Unit("", false) == Some(1)
    ensures Unit("d", true) == Some(24 * 60 * 60 * 1000) && Unit("h", true) == Some(60 * 60 * 1000)
    ensures Unit("m", true) == Some(60 * 1000) && Unit("s", true) == Some(1000)
    ensures Unit("ms", true) == Unit("", true) == Some(1) && Unit("ms", false) == None
    ensures forall suffix, ms :: Unit(suffix, ms).Some? ==>
                                   suffix in ["", "ms", "s", "S", "m", "M", "h", "H", "d", "D"]
  {
    assert |"ms"| == 2 && |"d"| == 1;
  }

  lemma DigitsLead(s: string)
    requires AllDigits(s)
    ensures Lead(s) == |s| && (s != [] ==> s[0] != '-')
  {
    assert s[..|s|] == s;
    LeadIsLongest(s, |s|);
  }

  // A plain number of up to 32 bits is a duration in the unit of the result, and a larger one is refused.
  lemma DurationOfNumber(n: nat, ms: bool)
    ensures Duration(Decimal(n), ms) == if n <= 4294967295 then Ok(n) else Err(OutOfRange)
  {
    var s := Decimal(n);
    DigitsLead(s);
    Units();
    BareDuration(s, ms);
  }

  // Digits and nothing else.
  lemma BareDuration(s: string, ms: bool)
    requires AllDigits(s) && Lead(s) == |s| && (s != [] ==> s[0] != '-') && Unit("", ms) == Some(1)
    ensures Duration(s, ms) == if Number(s) < WORD32 then Ok(Number(s)) else Err(OutOfRange)
  {
    hide Lead, Number, Decimal, Unit, AllDigits;
    assert s[..|s|] == s && s[|s|..] == "";
  }

  // What a type of w bytes calls its largest value.
  lemma Widths()
    ensures WORD32 == Pow16(8) && WORD64 == Pow16(16)
  {
    assert Pow16(8) == 0x1_0000_0000 by {
      assert Pow16(4) == 0x1_0000;
    }
    assert Pow16(12) == 0x1_0000_0000_0000;
  }
}
