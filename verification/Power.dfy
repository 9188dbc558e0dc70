/** util::pow of common.hpp on an unsigned type: repeated squaring with both variables wrapping on every pass. */
module Power {

  function Pow(b: nat, e: nat): nat {
    if e == 0 then 1 else b * Pow(b, e - 1)
  }

  /** The law of exponents, which with the first power fixes the function. */
  lemma {:induction false} PowSum(b: nat, m: nat, n: nat)
    ensures Pow(b, m + n) == Pow(b, m) * Pow(b, n)
    ensures Pow(b, 1) == b && Pow(b, 0) == 1
  {
    assert Pow(b, 1) == b * Pow(b, 0);
    if m > 0 {
      PowSum(b, m - 1, n);
      assert m + n - 1 == m - 1 + n;
      assert b * (Pow(b, m - 1) * Pow(b, n)) == (b * Pow(b, m - 1)) * Pow(b, n);
    }
  }

  /** word is 2 to the width of the type (at least 32 bits, so no operand is promoted to a signed one). */
  method RepeatedSquaring(base: nat, exp: nat, word: nat) returns (result: nat)
    requires word >= 0x1_0000_0000 && base < word && exp < word
    ensures result == Pow(base, exp) % word
  {
    var b: nat, e: nat := base, exp;
    result := 1;
    assert 1 * Pow(base, exp) == Pow(base, exp);
    while e > 0
      invariant result < word && b < word
      invariant (result * Pow(b, e)) % word == Pow(base, exp) % word
      decreases e
    {
      PassKeepsProduct(result, b, e, word);
      if e % 2 == 1 { result := (result * b) % word; }
      e := e / 2;
      b := (b * b) % word;
    }
    assert result * Pow(b, e) == result;
    SmallMod(result, word);
  }

  lemma SmallMod(a: nat, m: nat)
    requires a < m
    ensures a % m == a
  {
  }

  // One pass: squaring the base and halving the exponent, with an odd factor moved into the result.
  lemma PassKeepsProduct(r: nat, b: nat, e: nat, m: nat)
    requires m > 0 && e > 0
    ensures var r' := if e % 2 == 1 then (r * b) % m else r;
            (r' * Pow((b * b) % m, e / 2)) % m == (r * Pow(b, e)) % m
  {
    var p, q := Pow(b * b, e / 2), Pow((b * b) % m, e / 2);
    PowHalves(b, e);
    PowOfMod(b * b, e / 2, m);
    if e % 2 == 1 {
      MulMod(r * b, q, m);
      MulModRight(r * b, q, p, m);
      assert (r * b) * p == r * (b * p);
    } else {
      MulModRight(r, q, p, m);
    }
  }

  lemma {:induction false} PowHalves(b: nat, e: nat)
    ensures Pow(b, e) == if e % 2 == 1 then b * Pow(b * b, e / 2) else Pow(b * b, e / 2)
  {
    if e >= 2 {
      PowHalves(b, e - 2);
      assert Pow(b, e) == b * (b * Pow(b, e - 2));
      assert (e - 2) / 2 == e / 2 - 1;
      var h := Pow(b * b, e / 2 - 1);
      assert Pow(b * b, e / 2) == (b * b) * h;
      assert b * (b * h) == (b * b) * h;
      assert b * (b * (b * h)) == b * ((b * b) * h);
    } else if e == 1 {
      assert Pow(b, 1) == b * Pow(b, 0);
    }
  }

  lemma {:induction false} PowOfMod(x: nat, n: nat, m: nat)
    requires m > 0
    ensures Pow(x % m, n) % m == Pow(x, n) % m
  {
    if n > 0 {
      PowOfMod(x, n - 1, m);
      MulModRight(x % m, Pow(x % m, n - 1), Pow(x, n - 1), m);
      MulMod(x, Pow(x, n - 1), m);
    }
  }

  // A factor may be reduced first.
  lemma MulMod(a: nat, c: nat, m: nat)
    requires m > 0
    ensures ((a % m) * c) % m == (a * c) % m
  {
    var q, r := a / m, a % m;
    assert a == q * m + r;
    assert a * c == (q * c) * m + r * c by {
      assert (q * m + r) * c == (q * m) * c + r * c;
      assert (q * m) * c == (q * c) * m;
    }
    ModOfSum(q * c, r * c, m);
  }

  lemma MulModRight(a: nat, c: nat, d: nat, m: nat)
    requires m > 0 && c % m == d % m
    ensures (a * c) % m == (a * d) % m
  {
    MulMod(c, a, m);
    MulMod(d, a, m);
    assert c * a == a * c && d * a == a * d;
  }

  lemma ModOfSum(k: nat, a: nat, m: nat)
    requires m > 0
    ensures (k * m + a) % m == a % m
  {
    var x := k * m + a;
    assert x == (x / m) * m + x % m;
    assert a == (a / m) * m + a % m;
    assert (k + a / m) * m == k * m + (a / m) * m;
    SameRemainder(m, x / m, x % m, k + a / m, a % m);
  }

  lemma SameRemainder(m: nat, q: int, r: nat, p: int, s: nat)
    requires q * m + r == p * m + s && r < m && s < m
    ensures r == s
  {
    assert (q - p) * m == q * m - p * m;
    if q > p {
      AtLeast(q - p, m);
    } else if p > q {
      assert (p - q) * m == p * m - q * m;
      AtLeast(p - q, m);
    }
  }

  lemma AtLeast(x: int, m: nat)
    requires x >= 1
    ensures x * m >= m
  {
    assert x * m == (x - 1) * m + m;
  }
}
