/** The integer scanners of scan.hpp and the parsers built on them. Scanners return the text they left. */
module Scan {
  import opened Options
  import opened Sequences

  const WORD32 := 0x1_0000_0000
  const WORD64 := 0x1_0000_0000_0000_0000

  predicate IsDigit(c: char) { '0' <= c <= '9' }

  predicate AllDigits(s: string) { forall i :: 0 <= i < |s| ==> IsDigit(s[i]) }

  function DigitValue(c: char): nat
    requires IsDigit(c)
  {
    c as int - '0' as int
  }

  function Number(s: string): nat
    requires AllDigits(s)
  {
    if s == [] then 0 else Number(s[..|s| - 1]) * 10 + DigitValue(s[|s| - 1])
  }

  lemma {:induction false} NumberGrows(s: string, m: nat, n: nat)
    requires m <= n <= |s| && AllDigits(s[..n])
    ensures AllDigits(s[..m]) && Number(s[..m]) <= Number(s[..n])
  {
    if m < n {
      assert s[..n][..n - 1] == s[..n - 1];
      NumberGrows(s, m, n - 1);
    } else {
      assert s[..m] == s[..n];
    }
  }

  // A digit prefix with value at most max that no longer prefix shares.
  ghost predicate LongestWithin(s: string, max: nat, n: nat) {
    && n <= |s| && AllDigits(s[..n]) && Number(s[..n]) <= max
    && forall m :: n < m <= |s| && AllDigits(s[..m]) ==> Number(s[..m]) > max
  }

  lemma NumberStep(s: string, n: nat)
    requires n < |s| && AllDigits(s[..n]) && IsDigit(s[n])
    ensures AllDigits(s[..n + 1]) && Number(s[..n + 1]) == Number(s[..n]) * 10 + DigitValue(s[n])
  {
    assert s[..n + 1][..n] == s[..n] && s[..n + 1][n] == s[n];
  }

  // Where a scan stops: at a character that is no digit, or at a digit that would exceed max.
  lemma StopIsLongest(s: string, max: nat, n: nat)
    requires n <= |s| && AllDigits(s[..n]) && Number(s[..n]) <= max
    requires n < |s| && IsDigit(s[n]) ==> AllDigits(s[..n + 1]) && Number(s[..n + 1]) > max
    ensures LongestWithin(s, max, n)
  {
    forall m | n < m <= |s| && AllDigits(s[..m]) ensures Number(s[..m]) > max {
      assert IsDigit(s[..m][n]);
      NumberGrows(s, n + 1, m);
    }
  }

  // What get_integer has read and what text it leaves, from a value it has read so far, in wrapping 64-bit arithmetic.
  function Scanned(s: string, max: nat, value: nat): (nat, string) {
    if s == [] || !IsDigit(s[0]) then (value, s)
    else
      var next := (value * 10 + DigitValue(s[0])) % WORD64;
      if next > max then (value, s) else Scanned(s[1..], max, next)
  }

  // The scan takes exactly the longest digit prefix whose value is at most max, and reads that value.
  ghost predicate Exact(s: string, max: nat) {
    var (value, rest) := Scanned(s, max, 0);
    var n := |s| - |rest|;
    && 0 <= n && rest == s[n..] && LongestWithin(s, max, n) && value == Number(s[..n])
  }

  method GetInteger(input: string, max: nat) returns (result: nat, rest: string)
    requires max < WORD64
    ensures (result, rest) == Scanned(input, max, 0)
    ensures |rest| <= |input| && rest == input[|input| - |rest|..] && result <= max
    ensures AllDigits(input[..|input| - |rest|]) && result == Number(input[..|input| - |rest|]) % WORD64
    ensures 10 * max + 9 < WORD64 ==>
              result == Number(input[..|input| - |rest|]) && LongestWithin(input, max, |input| - |rest|)
  {
    hide Number, LongestWithin, Exact;
    ScanOfAll(input, max);
    result, rest := 0, input;
    while rest != []
      invariant Scanned(rest, max, result) == Scanned(input, max, 0)
      decreases |rest|
    {
      var ch := rest[0];
      if !IsDigit(ch) { break; }
      var next := (result * 10 + DigitValue(ch)) % WORD64;
      if next > max { break; }
      result := next;
      rest := rest[1..];
    }
  }

  lemma ModStep(a: nat, d: nat)
    ensures ((a % WORD64) * 10 + d) % WORD64 == (a * 10 + d) % WORD64
  {
  }

  // One digit more.
  lemma ScanOn(s: string, max: nat, n: nat, value: nat)
    requires n < |s| && IsDigit(s[n])
    ensures var next := (value * 10 + DigitValue(s[n])) % WORD64;
            Scanned(s[n..], max, value) == if next > max then (value, s[n..]) else Scanned(s[n + 1..], max, next)
  {
    assert s[n..][1..] == s[n + 1..];
  }

  lemma ScanEnds(s: string, max: nat, n: nat, value: nat)
    requires n <= |s| && (n < |s| ==> !IsDigit(s[n]))
    ensures Scanned(s[n..], max, value) == (value, s[n..])
  {
  }

  // A scan that has taken the first n characters ends at a suffix of the text and has read the digits before it.
  lemma {:induction false} ScanReads(s: string, max: nat, n: nat)
    requires n <= |s| && AllDigits(s[..n]) && Number(s[..n]) % WORD64 <= max
    ensures var (value, rest) := Scanned(s[n..], max, Number(s[..n]) % WORD64);
            && n <= |s| - |rest| && rest == s[|s| - |rest|..] && AllDigits(s[..|s| - |rest|])
            && value == Number(s[..|s| - |rest|]) % WORD64 <= max
    decreases |s| - n
  {
    hide Number, Scanned;
    if n < |s| && IsDigit(s[n]) {
      NumberStep(s, n);
      ModStep(Number(s[..n]), DigitValue(s[n]));
      ScanOn(s, max, n, Number(s[..n]) % WORD64);
      if Number(s[..n + 1]) % WORD64 <= max { ScanReads(s, max, n + 1); }
    } else {
      ScanEnds(s, max, n, Number(s[..n]) % WORD64);
    }
  }

  lemma {:induction false} ScanStops(s: string, max: nat, n: nat)
    requires 10 * max + 9 < WORD64
    requires n <= |s| && AllDigits(s[..n]) && Number(s[..n]) <= max
    ensures var (value, rest) := Scanned(s[n..], max, Number(s[..n]));
            && |rest| <= |s| && rest == s[|s| - |rest|..]
            && LongestWithin(s, max, |s| - |rest|) && value == Number(s[..|s| - |rest|])
    decreases |s| - n
  {
    hide Number, LongestWithin, Scanned;
    if n < |s| && IsDigit(s[n]) {
      NumberStep(s, n);
      ScanOn(s, max, n, Number(s[..n]));
      if Number(s[..n + 1]) <= max {
        ScanStops(s, max, n + 1);
      } else {
        StopIsLongest(s, max, n);
      }
    } else {
      StopIsLongest(s, max, n);
      ScanEnds(s, max, n, Number(s[..n]));
    }
  }

  // Both, for a scan from the first character.
  lemma ScanOfAll(s: string, max: nat)
    requires max < WORD64
    ensures var (value, rest) := Scanned(s, max, 0);
            && |rest| <= |s| && rest == s[|s| - |rest|..] && value <= max
            && AllDigits(s[..|s| - |rest|]) && value == Number(s[..|s| - |rest|]) % WORD64
            && (10 * max + 9 < WORD64 ==> Exact(s, max))
            && (Exact(s, max) ==> LongestWithin(s, max, |s| - |rest|) && value == Number(s[..|s| - |rest|]))
  {
    assert s[0..] == s && s[..0] == [];
    assert Number(s[..0]) == 0;
    hide Number, LongestWithin, Scanned;
    ScanReads(s, max, 0);
    if 10 * max + 9 < WORD64 { ScanStops(s, max, 0); }
  }

  function LastDigit(n: nat): (c: char)
    ensures IsDigit(c) && DigitValue(c) == n % 10
  {
    ('0' as int + n % 10) as char
  }

  // The digits of n, none for zero.
  function Decimal(n: nat): (s: string)
    ensures AllDigits(s) && Number(s) == n
  {
    if n == 0 then [] else Decimal(n / 10) + [LastDigit(n)]
  }

  lemma {:induction false} DecimalTaken(n: nat, max: nat, tail: string)
    requires n <= max < WORD64
    ensures Scanned(Decimal(n) + tail, max, 0) == Scanned(tail, max, n)
  {
    if n == 0 {
      assert Decimal(n) + tail == tail;
    } else {
      hide Scanned, LastDigit;
      DecimalTaken(n / 10, max, [LastDigit(n)] + tail);
      DigitTaken(Decimal(n / 10), n, max, tail);
    }
  }

  lemma DigitTaken(front: string, n: nat, max: nat, tail: string)
    requires n <= max < WORD64
    requires Scanned(front + ([LastDigit(n)] + tail), max, 0) == Scanned([LastDigit(n)] + tail, max, n / 10)
    ensures Scanned(front + [LastDigit(n)] + tail, max, 0) == Scanned(tail, max, n)
  {
    hide Scanned, LastDigit;
    TensAndUnits(n);
    Regroup(front, [LastDigit(n)], tail);
    ScanOnto(LastDigit(n), tail, max, n / 10);
  }

  lemma TensAndUnits(n: nat)
    ensures n < WORD64 ==> (n / 10 * 10 + n % 10) % WORD64 == n
  {
  }

  lemma ScanOnto(c: char, tail: string, max: nat, value: nat)
    requires IsDigit(c) && (value * 10 + DigitValue(c)) % WORD64 <= max
    ensures Scanned([c] + tail, max, value) == Scanned(tail, max, (value * 10 + DigitValue(c)) % WORD64)
  {
    assert ([c] + tail)[1..] == tail;
  }

  lemma WrapScanned(max: nat)
    requires max < WORD64 <= 10 * max + 9
    ensures Scanned(Decimal(WORD64), max, 0) == (0, "")
  {
    var front := WORD64 / 10;
    assert Decimal(WORD64) == Decimal(front) + [LastDigit(WORD64)];
    assert Scanned([], max, 0) == (0, "");
    hide *;
    DecimalTaken(front, max, [LastDigit(WORD64)]);
    ScanOnto(LastDigit(WORD64), [], max, front);
    assert [LastDigit(WORD64)] + [] == [LastDigit(WORD64)];
  }

  // Once 10 * max + 9 can wrap, the text 18446744073709551616 of 2^64 is consumed whole and read as 0.
  lemma WrapReadsZero(max: nat)
    requires max < WORD64 <= 10 * max + 9
    ensures Scanned(Decimal(WORD64), max, 0) == (0, "") && !Exact(Decimal(WORD64), max)
  {
    WrapScanned(max);
    var s := Decimal(WORD64);
    hide Scanned, Decimal, Number;
    assert s[..|s|] == s;
  }

  /** get_integer meets its promise on every input if and only if 10 * max + 9 does not wrap. */
  lemma ExactIff(max: nat)
    requires max < WORD64
    ensures (forall s: string :: Exact(s, max)) <==> 10 * max + 9 < WORD64
  {
    if 10 * max + 9 < WORD64 {
      forall s: string ensures Exact(s, max) { ScanOfAll(s, max); }
    } else {
      WrapReadsZero(max);
    }
  }

  // The longest digit prefix with value at most max, given that the first n characters are one.
  ghost function Longest(s: string, max: nat, n: nat): (m: nat)
    requires n <= |s| && AllDigits(s[..n]) && Number(s[..n]) <= max
    ensures n <= m && LongestWithin(s, max, m)
    decreases |s| - n
  {
    if n < |s| && IsDigit(s[n]) then
      NumberStep(s, n);
      if Number(s[..n + 1]) <= max then Longest(s, max, n + 1) else StopIsLongest(s, max, n); n
    else
      StopIsLongest(s, max, n);
      n
  }

  // Prefixes within max are read without wrapping.
  lemma {:induction false} ScanReaches(s: string, max: nat, n: nat)
    requires n <= |s| && AllDigits(s[..n]) && Number(s[..n]) <= max < WORD64
    ensures Scanned(s, max, 0) == Scanned(s[n..], max, Number(s[..n]))
  {
    if n == 0 {
      assert s[0..] == s;
    } else {
      var m := n - 1;
      NumberGrows(s, m, n);
      assert s[..n][m] == s[m];
      NumberStep(s, m);
      ScanReaches(s, max, m);
      hide Scanned, Number;
      ScanOn(s, max, m, Number(s[..m]));
    }
  }

  // The digit after the longest prefix makes a value that wraps round to one within max.
  ghost predicate WrapsOn(s: string, max: nat, n: nat)
    requires n <= |s| && AllDigits(s[..n])
  {
    n < |s| && IsDigit(s[n]) && (Number(s[..n]) * 10 + DigitValue(s[n])) % WORD64 <= max
  }

  /** Call by call: get_integer meets its promise if and only if the digit after the longest prefix within max, if there
      is one, does not wrap round to a value within max. */
  lemma ExactUnlessWraps(s: string, max: nat, n: nat)
    requires max < WORD64 && LongestWithin(s, max, n)
    ensures Exact(s, max) <==> !WrapsOn(s, max, n)
  {
    ScanReaches(s, max, n);
    if WrapsOn(s, max, n) {
      NumberStep(s, n);
      ScanOn(s, max, n, Number(s[..n]));
      ScanReads(s, max, n + 1);
      ReadTooFar(s, max, n);
    } else if n < |s| && IsDigit(s[n]) {
      ScanOn(s, max, n, Number(s[..n]));
      StoppedThere(s, max, n);
    } else {
      ScanEnds(s, max, n, Number(s[..n]));
      StoppedThere(s, max, n);
    }
  }

  lemma ReadTooFar(s: string, max: nat, n: nat)
    requires LongestWithin(s, max, n) && |s| - |Scanned(s, max, 0).1| > n
    ensures !Exact(s, max)
  {
  }

  lemma StoppedThere(s: string, max: nat, n: nat)
    requires LongestWithin(s, max, n) && Scanned(s, max, 0) == (Number(s[..n]), s[n..])
    ensures Exact(s, max)
  {
  }

  datatype Error = Negative | Trailing | OutOfRange

  // What parse_unsigned should answer: the number written, if it is one and within the bounds. The empty text is 0.
  function Unsigned(input: string, min: nat, max: nat): Result<nat, Error> {
    if AllDigits(input) && Number(input) <= max
    then if Number(input) < min then Err(OutOfRange) else Ok(Number(input))
    else if input != [] && input[0] == '-' then Err(Negative)
    else Err(Trailing)
  }

  // What it answers.
  function Parsed(input: string, min: nat, max: nat): Result<nat, Error> {
    if input != [] && input[0] == '-' then Err(Negative)
    else
      var (value, rest) := Scanned(input, max, 0);
      if rest != [] then Err(Trailing)
      else if value < min || value > max then Err(OutOfRange)
      else Ok(value)
  }

  method ParseUnsigned(input: string, min: nat, max: nat) returns (r: Result<nat, Error>)
    requires min < WORD64 && max < WORD64
    ensures r == Parsed(input, min, max)
    ensures 10 * max + 9 < WORD64 ==> r == Unsigned(input, min, max)
    ensures 10 * max + 9 < WORD64 ==> (r.Ok? <==> AllDigits(input) && min <= Number(input) <= max)
    ensures 10 * max + 9 < WORD64 ==>
              (r == Err(OutOfRange) <==> AllDigits(input) && Number(input) <= max && Number(input) < min)
    ensures r.Ok? ==> AllDigits(input) && r.value == Number(input) % WORD64
    ensures r == Err(Negative) <==> "-" <= input
  {
    if 10 * max + 9 < WORD64 { ParsedIsUnsigned(input, min, max); }
    if input != [] && input[0] == '-' {
      assert !IsDigit(input[0]);
      return Err(Negative);
    }
    assert input[..|input|] == input;
    var value, rest := GetInteger(input, max);
    if rest != [] { return Err(Trailing); }
    if value < min || value > max { return Err(OutOfRange); }
    return Ok(value);
  }

  lemma ParsedIsUnsigned(input: string, min: nat, max: nat)
    requires 10 * max + 9 < WORD64
    ensures Parsed(input, min, max) == Unsigned(input, min, max)
  {
    ScanOfAll(input, max);
    assert input[..|input|] == input;
    assert input != [] && input[0] == '-' ==> !AllDigits(input);
  }

  // A scan that has taken the first n characters takes all the others if and only if they are digits and every value
  // read on the way is within max, wrapped as it is.
  lemma {:induction false} TakesAllIff(s: string, max: nat, n: nat)
    requires n <= |s| && AllDigits(s[..n])
    ensures Scanned(s[n..], max, Number(s[..n]) % WORD64).1 == [] <==>
            AllDigits(s) && forall k :: n < k <= |s| ==> Number(s[..k]) % WORD64 <= max
    decreases |s| - n
  {
    if n == |s| {
      assert s[..n] == s;
    } else if IsDigit(s[n]) {
      NumberStep(s, n);
      ModStep(Number(s[..n]), DigitValue(s[n]));
      hide Scanned, Number;
      ScanOn(s, max, n, Number(s[..n]) % WORD64);
      TakesAllIff(s, max, n + 1);
    }
  }

  // Digits of which every prefix has, wrapped round, a value within max.
  ghost predicate ReadsThrough(s: string, max: nat) {
    AllDigits(s) && forall k :: 0 < k <= |s| ==> Number(s[..k]) % WORD64 <= max
  }

  lemma ScanOfThrough(s: string, max: nat)
    requires max < WORD64
    ensures Scanned(s, max, 0).1 == [] <==> ReadsThrough(s, max)
    ensures ReadsThrough(s, max) ==> Scanned(s, max, 0).0 == Number(s) % WORD64 <= max
  {
    assert s[0..] == s && s[..0] == [] && s[..|s|] == s;
    assert Number(s[..0]) == 0;
    hide Number, Scanned;
    TakesAllIff(s, max, 0);
    ScanOfAll(s, max);
  }

  lemma PrefixWithin(s: string, max: nat, k: nat)
    requires k <= |s| && AllDigits(s) && Number(s) <= max < WORD64
    ensures AllDigits(s[..k]) && Number(s[..k]) % WORD64 == Number(s[..k]) <= max
  {
    hide Number;
    assert s[..|s|] == s;
    NumberGrows(s, k, |s|);
    SmallWord(Number(s[..k]));
  }

  lemma SmallWord(a: nat)
    ensures a < WORD64 ==> a % WORD64 == a
  {
  }

  lemma WithinReadsThrough(s: string, max: nat)
    requires AllDigits(s) && Number(s) <= max < WORD64
    ensures ReadsThrough(s, max) && Number(s) % WORD64 == Number(s)
  {
    hide Number;
    SmallWord(Number(s));
    forall k | 0 < k <= |s| ensures Number(s[..k]) % WORD64 <= max { PrefixWithin(s, max, k); }
  }

  /** Call by call: parse_unsigned misses what it should answer exactly on digits that write a number above max and of
      which every prefix, wrapped round, is within max. */
  lemma ParsedFailsIff(s: string, min: nat, max: nat)
    requires max < WORD64
    ensures Parsed(s, min, max) != Unsigned(s, min, max) <==> ReadsThrough(s, max) && Number(s) > max
  {
    assert ReadsThrough(s, max) ==> AllDigits(s);
    assert s != [] && s[0] == '-' ==> !AllDigits(s);
    hide Number, Scanned, ReadsThrough, AllDigits;
    ScanOfThrough(s, max);
    if AllDigits(s) && Number(s) <= max { WithinReadsThrough(s, max); }
  }

  /** parse_unsigned answers as it should on every input, whatever the lower bound, if and only if 10 * max + 9 does
      not wrap 64 bits: on all types of up to 32 bits, and on 64-bit ones with a small enough upper bound. */
  lemma ParsedIff(max: nat)
    requires max < WORD64
    ensures (forall s: string, min: nat :: Parsed(s, min, max) == Unsigned(s, min, max)) <==> 10 * max + 9 < WORD64
  {
    if 10 * max + 9 < WORD64 {
      forall s: string, min: nat ensures Parsed(s, min, max) == Unsigned(s, min, max) { ParsedIsUnsigned(s, min, max); }
    } else {
      WrapReadsZero(max);
      assert IsDigit(Decimal(WORD64)[0]);
      assert Parsed(Decimal(WORD64), 0, max) == Ok(0) != Unsigned(Decimal(WORD64), 0, max);
    }
  }

  // ------------------------------------------------------------------------------------------------ durations

  // The length of the leading run of digits.
  function Lead(s: string): (n: nat)
    ensures n <= |s| && AllDigits(s[..n])
    ensures n < |s| ==> !IsDigit(s[n])
  {
    if s == [] || !IsDigit(s[0]) then 0
    else
      var n := Lead(s[1..]);
      assert s[..n + 1] == [s[0]] + s[1..][..n];
      n + 1
  }

  // How many result units one unit of the suffix is worth; results are seconds, or milliseconds when ms is set.
  function Unit(suffix: string, ms: bool): Option<nat> {
    var scale := if ms then 1000 else 1;
    if suffix == "" then Some(1)
    else if suffix == "ms" && ms then Some(1)
    else if suffix == "s" || suffix == "S" then Some(scale)
    else if suffix == "m" || suffix == "M" then Some(scale * 60)
    else if suffix == "h" || suffix == "H" then Some(scale * 3600)
    else if suffix == "d" || suffix == "D" then Some(scale * 86400)
    else None
  }

  function Duration(input: string, ms: bool): Result<nat, Error> {
    var n := Lead(input);
    if input != [] && input[0] == '-' then Err(Negative)
    else if Number(input[..n]) >= WORD32 then Err(OutOfRange)
    else match Unit(input[n..], ms)
      case None => Err(Trailing)
      case Some(unit) => Ok(Number(input[..n]) * unit % WORD32)
  }

  function ToLower(c: char): char {
    if 'A' <= c <= 'Z' then (c as int - 'A' as int + 'a' as int) as char else c
  }

  lemma LeadIsLongest(s: string, n: nat)
    requires n <= |s| && AllDigits(s[..n])
    ensures n <= Lead(s)
  {
    assert forall i :: 0 <= i < n ==> IsDigit(s[..n][i]) && s[..n][i] == s[i];
  }

  // The scan stops at the end of the digits, or inside them when the number is too large.
  lemma ScanVersusLead(s: string, max: nat, n: nat)
    requires LongestWithin(s, max, n)
    ensures if Number(s[..Lead(s)]) <= max then n == Lead(s) else n < |s| && IsDigit(s[n])
  {
    LeadIsLongest(s, n);
    var lead := Lead(s);
    hide Number, Lead;
    if n < lead {
      assert s[..lead][n] == s[n];
    }
  }

  lemma Product(value: nat, ms: bool, k: nat)
    requires value < WORD32 && k in {1, 60, 3600, 86400}
    ensures var scale := if ms then 1000 else 1; value * scale * k % WORD64 % WORD32 == value * (scale * k) % WORD32
  {
    if ms { assert value * 1000 * k == value * (1000 * k); }
  }

  lemma DurationExact(input: string, ms: bool)
    ensures var n := Lead(input);
            var value, unit := Number(input[..n]), Unit(input[n..], ms);
            Duration(input, ms).Ok? ==>
              unit.Some? && (value * unit.value < WORD32 ==> Duration(input, ms) == Ok(value * unit.value))
  {
    hide Lead, Number, Unit;
    var n := Lead(input);
    var unit := Unit(input[n..], ms);
    if unit.Some? { SmallMod(Number(input[..n]) * unit.value); }
  }

  lemma SmallMod(a: nat)
    ensures a < WORD32 ==> a % WORD32 == a
  {
  }

  /** parse_duration: the number times its unit in unsigned arithmetic, so exact whenever it fits. */
  method ParseDuration(input: string, ms: bool) returns (r: Result<nat, Error>)
    ensures r == Duration(input, ms)
    ensures r.Ok? ==>
              var n := Lead(input);
              var value, unit := Number(input[..n]), Unit(input[n..], ms);
              unit.Some? && (value * unit.value < WORD32 ==> r.value == value * unit.value)
    ensures r == Err(Negative) <==> "-" <= input
    ensures r == Err(OutOfRange) <==> !("-" <= input) && Number(input[..Lead(input)]) > 4294967295
  {
    hide Lead, Number, Scanned, LongestWithin, Unit;
    DurationExact(input, ms);
    if input != [] && input[0] == '-' { return Err(Negative); }
    var value, rest := GetInteger(input, WORD32 - 1);
    ScanVersusLead(input, WORD32 - 1, |input| - |rest|);
    if rest != [] && IsDigit(rest[0]) { return Err(OutOfRange); }
    assert value == Number(input[..Lead(input)]) < WORD32 && rest == input[Lead(input)..];
    r := Suffixed(value, rest, ms);
  }

  // The part of parse_duration after the number.
  method Suffixed(value: nat, rest: string, ms: bool) returns (r: Result<nat, Error>)
    requires value < WORD32
    ensures r == match Unit(rest, ms)
                 case None => Err(Trailing)
                 case Some(unit) => Ok(value * unit % WORD32)
  {
    var scale := if ms then 1000 else 1;
    if rest == [] { return Ok(value); }
    if rest == "ms" && ms { return Ok(value); }
    if |rest| == 1 {
      assert rest == [rest[0]];
      var unit := 0;
      match ToLower(rest[0]) {
        case 's' => unit := 1;
        case 'm' => unit := 60;
        case 'h' => unit := 3600;
        case 'd' => unit := 86400;
        case _ =>
      }
      if unit != 0 {
        Product(value, ms, unit);
        return Ok(value * scale * unit % WORD64 % WORD32);
      }
    }
    return Err(Trailing);
  }

  // ---------------------------------------------------------------------------------------------- hexadecimal

  // decode_hex: None stands for the sentinel 0xFF.
  function Nibble(c: char): Option<nat> {
    var ch := ToLower(c);
    if '0' <= ch <= '9' then Some(ch as int - '0' as int)
    else if 'a' <= ch <= 'f' then Some(ch as int - 'a' as int + 10)
    else None
  }

  predicate AllHex(s: string) { forall i :: 0 <= i < |s| ==> Nibble(s[i]).Some? }

  function HexNumber(s: string): nat
    requires AllHex(s)
  {
    if s == [] then 0 else HexNumber(s[..|s| - 1]) * 16 + Nibble(s[|s| - 1]).value
  }

  // get_hex: stops after digits characters, at the end, or with 0 in front of a character that is no digit.
  method GetHex(input: string, digits: nat) returns (result: nat, rest: string)
    ensures |rest| <= |input| && rest == input[|input| - |rest|..]
    ensures digits > 8 ==> result == 0 && rest == input
    ensures digits <= 8 ==>
              var n := |input| - |rest|;
              && n <= digits && AllHex(input[..n])
              && if n < digits && n < |input| then result == 0 && Nibble(input[n]) == None
                 else result == HexNumber(input[..n])
  {
    result, rest := 0, input;
    if digits > 8 { return; }
    var left := digits;
    ghost var n := 0;
    while left > 0 && rest != []
      invariant 0 <= left && n + left == digits && n <= |input| && rest == input[n..]
      invariant AllHex(input[..n]) && result == HexNumber(input[..n])
      decreases left
    {
      var nibble := Nibble(rest[0]);
      assert |input| - |rest| == n;
      if nibble == None { return 0, rest; }
      assert input[..n + 1][..n] == input[..n];
      result := result * 16 + nibble.value;
      rest := rest[1..];
      left, n := left - 1, n + 1;
    }
    assert |input| - |rest| == n;
  }

  function Stripped(input: string, prefix: string): string {
    if prefix <= input then input[|prefix|..]
    else if input != [] && input[0] == '$' then input[1..]
    else input
  }

  method ConsumePrefix(input: string, prefix: string) returns (found: bool, rest: string)
    ensures rest == Stripped(input, prefix) && (found <==> prefix <= input || "$" <= input)
    ensures input == (if prefix <= input then prefix else if "$" <= input then "$" else "") + rest
  {
    if |input| >= |prefix| && input[..|prefix|] == prefix { return true, input[|prefix|..]; }
    if input != [] && input[0] == '$' { return true, input[1..]; }
    return false, input;
  }

  // What parse_hex should answer on a type of size bytes: after one optional prefix, at most two hex digits per byte
  // with a value within the bounds.
  function Hex(input: string, min: nat, max: nat, size: nat): Result<nat, Error> {
    var body := Stripped(input, "0x");
    if |body| <= 2 * size && AllHex(body)
    then if min <= HexNumber(body) <= max then Ok(HexNumber(body)) else Err(OutOfRange)
    else Err(Trailing)
  }

  // What it answers: 64-bit types ask the scanner for more digits than it takes, so only the empty body is read.
  function HexParsed(input: string, min: nat, max: nat, size: nat): Result<nat, Error> {
    if size == 8 && Stripped(input, "0x") != [] then Err(Trailing) else Hex(input, min, max, size)
  }

  method ParseHex(input: string, min: nat, max: nat, size: nat) returns (r: Result<nat, Error>)
    requires size in {1, 2, 4, 8} && min < WORD64 && max < WORD64
    ensures r == HexParsed(input, min, max, size)
    ensures var body := Stripped(input, "0x");
            var read := AllHex(body) && |body| <= if size == 8 then 0 else 2 * size;
            && (r.Ok? <==> read && min <= HexNumber(body) <= max) && (r.Ok? ==> r.value == HexNumber(body))
            && (r == Err(Trailing) <==> !read) && r != Err(Negative)
  {
    var _, body := ConsumePrefix(input, "0x");
    var value, rest := GetHex(body, size * 2);
    assert body[..|body|] == body;
    if size < 8 { HexBound(body[..|body| - |rest|]); }
    if value == WORD64 - 1 || rest != [] { return Err(Trailing); }
    if value < min || value > max { return Err(OutOfRange); }
    return Ok(value);
  }

  /** parse_hex fails its promise exactly on a 64-bit type with a body of 1 to 16 hex digits; "1" is one. */
  lemma HexFailsIff(input: string, min: nat, max: nat, size: nat)
    ensures HexParsed(input, min, max, size) == Hex(input, min, max, size) <==>
            !(size == 8 && var body := Stripped(input, "0x"); 1 <= |body| <= 16 && AllHex(body))
    ensures HexParsed("1", 0, WORD64 - 1, 8) == Err(Trailing) && Hex("1", 0, WORD64 - 1, 8) == Ok(1)
  {
    assert Stripped("1", "0x") == "1" && "1"[..0] == [];
  }

  function Pow16(n: nat): nat { if n == 0 then 1 else 16 * Pow16(n - 1) }

  lemma {:induction false} HexBelow(s: string)
    requires AllHex(s)
    ensures HexNumber(s) < Pow16(|s|)
  {
    if s != [] { HexBelow(s[..|s| - 1]); }
  }

  // Eight hex digits fit 32 bits.
  lemma HexBound(s: string)
    requires AllHex(s) && |s| <= 8
    ensures HexNumber(s) < WORD32
  {
    HexBelow(s);
    assert Pow16(1) == 16 && Pow16(2) == 256 && Pow16(3) == 4096 && Pow16(4) == 65536;
    assert Pow16(5) == 0x10_0000 && Pow16(6) == 0x100_0000 && Pow16(7) == 0x1000_0000 && Pow16(8) == WORD32;
  }
}
