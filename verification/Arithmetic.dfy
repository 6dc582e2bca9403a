/** Integer arithmetic of the tuner library (src/libtunner/STFE_utilities.c:40-106, 165-210). */
module Arithmetic {
  const WORD := 0x1_0000_0000

  // ---- Powers of two ------------------------------------------------------------------------

  function Pow2(n: nat): (p: nat)
    ensures p >= 1
  {
    if n == 0 then 1 else 2 * Pow2(n - 1)
  }

  lemma {:induction false} Pow2Grows(m: nat, n: nat)
    requires m <= n
    ensures Pow2(m) <= Pow2(n)
  {
    if m < n {
      Pow2Grows(m, n - 1);
    }
  }

  lemma {:induction false} Pow2Beyond(n: nat)
    ensures n < Pow2(n)
  {
    if n > 0 {
      Pow2Beyond(n - 1);
    }
  }

  method PowOf2(number: nat) returns (result: nat)
    ensures result == Pow2(number)
  {
    result := 1;
    for i := 0 to number
      invariant result == Pow2(i)
    {
      result := result * 2;
    }
  }

  /** The least exponent that reaches a number. In 32 bits the search ends only up to 2 to the 30th. */
  method GetPowOf2(number: int) returns (i: nat)
    requires number <= Pow2(30)
    ensures number <= Pow2(i) && forall k: nat :: k < i ==> Pow2(k) < number
    ensures i <= 30
  {
    i := 0;
    var p := PowOf2(i);
    while p < number
      invariant i <= 30 && p == Pow2(i) && forall k: nat :: k < i ==> Pow2(k) < number
      decreases 30 - i
    {
      i := i + 1;
      p := PowOf2(i);
    }
  }

  function Abs(n: int): nat {
    if n < 0 then -n else n
  }

  /** The binary logarithm, rounded down, of the amount of a number; 0 for 0. */
  method Log2Int(number: int) returns (r: nat)
    requires Abs(number) < Pow2(30)
    ensures number == 0 ==> r == 0
    ensures number != 0 ==> Pow2(r) <= Abs(number) < Pow2(r + 1)
  {
    var i: nat := 0;
    var p := PowOf2(i);
    while p <= Abs(number)
      invariant i <= 30 && p == Pow2(i) && (i > 0 ==> Pow2(i - 1) <= Abs(number))
      decreases 30 - i
    {
      i := i + 1;
      p := PowOf2(i);
    }
    if number == 0 {
      i := 1;
    }
    return i - 1;
  }

  // ---- Binary fractions -----------------------------------------------------------------------

  /** After i digits: what is left of the dividend. It stays below twice the divisor, so it
      fits 32 bits. */
  ghost predicate Digits(n1: nat, n2: nat, i: nat, digits: nat, rest: nat) {
    rest == n1 * Pow2(i) - 2 * (digits * n2) && rest < 2 * n2
  }

  /** The first precision + 1 binary digits of n1 / n2, in 32 bits. For operands as the
      function wants them that is the whole part of n1 * 2^precision / n2. */
  method BinaryFloatDiv(n1: nat, n2: nat, precision: nat) returns (result: nat)
    requires n1 < n2 <= 0x8000_0000
    ensures result == (n1 * Pow2(precision) / n2) % WORD
    ensures precision <= 31 ==> result == n1 * Pow2(precision) / n2
  {
    hide Digits, Pow2;
    var i: nat, rest: nat := 0, n1;
    ghost var digits: nat := 0;
    NoDigits(n1, n2);
    result := 0;
    while i <= precision
      invariant i <= precision + 1
      invariant result == digits % WORD && Digits(n1, n2, i, digits, rest)
      decreases precision + 1 - i
    {
      DigitStep(n1, n2, i, digits, rest);
      DoubleMod(digits, if rest < n2 then 0 else 1);
      if rest < n2 {
        result := result * 2 % WORD;
        rest := rest * 2;
        digits := 2 * digits;
      } else {
        result := (result * 2 + 1) % WORD;
        rest := (rest - n2) * 2;
        digits := 2 * digits + 1;
      }
      i := i + 1;
    }
    QuotientIs(n1, n2, precision, digits, rest);
    if precision <= 31 {
      FractionFits(n1, n2, precision);
    }
  }

  lemma NoDigits(n1: nat, n2: nat)
    requires n1 < n2
    ensures Digits(n1, n2, 0, 0, n1)
  {
  }

  /** One digit more: the double of what is left, less the divisor if that goes into it. */
  lemma DigitStep(n1: nat, n2: nat, i: nat, digits: nat, rest: nat)
    requires Digits(n1, n2, i, digits, rest)
    ensures rest < n2 ==> Digits(n1, n2, i + 1, 2 * digits, rest * 2)
    ensures rest >= n2 ==> Digits(n1, n2, i + 1, 2 * digits + 1, (rest - n2) * 2)
  {
    var p := Pow2(i);
    assert n1 * (2 * p) == 2 * (n1 * p);
    assert 2 * digits * n2 == 2 * (digits * n2) && (2 * digits + 1) * n2 == 2 * (digits * n2) + n2;
  }

  lemma DoubleMod(digits: nat, bit: nat)
    ensures (digits % WORD * 2 + bit) % WORD == (2 * digits + bit) % WORD
  {
    var q, r := digits / WORD, digits % WORD;
    assert 2 * digits + bit == (r * 2 + bit) + 2 * q * WORD;
    ModMultiple(r * 2 + bit, 2 * q);
  }

  lemma ModMultiple(a: nat, q: nat)
    ensures (a + q * WORD) % WORD == a % WORD
  {
    var d, m := a / WORD, a % WORD;
    assert a + q * WORD == (d + q) * WORD + m;
  }

  /** What is left decides the quotient. */
  lemma QuotientIs(n1: nat, n2: nat, precision: nat, digits: nat, rest: nat)
    requires n2 > 0 && Digits(n1, n2, precision + 1, digits, rest)
    ensures digits == n1 * Pow2(precision) / n2
  {
    var p := Pow2(precision);
    assert n1 * (2 * p) == 2 * (n1 * p);
    assert digits * n2 <= n1 * p < digits * n2 + n2;
    DivUnique(n1 * p, n2, digits);
  }

  lemma MulKeepsOrder(x: nat, y: nat, b: nat)
    ensures x >= y ==> x * b >= y * b
  {
  }

  lemma MulCancels(x: nat, y: nat, b: nat)
    requires x * b < y * b
    ensures x < y
  {
    MulKeepsOrder(x, y, b);
  }

  lemma QuotientBounds(a: nat, b: nat)
    requires b > 0
    ensures (a / b) * b <= a < (a / b + 1) * b
  {
    assert a == b * (a / b) + a % b;
  }

  lemma DivUnique(a: nat, b: nat, q: nat)
    requires b > 0 && q * b <= a < (q + 1) * b
    ensures a / b == q
  {
    QuotientBounds(a, b);
    MulCancels(q, a / b + 1, b);
    MulCancels(a / b, q + 1, b);
  }

  lemma FractionFits(n1: nat, n2: nat, precision: nat)
    requires n1 < n2 && precision <= 31
    ensures n1 * Pow2(precision) / n2 < WORD
  {
    Pow2Grows(precision, 31);
    Pow2Of31();
    QuotientBelow(n1, n2, Pow2(precision));
  }

  lemma QuotientBelow(n1: nat, n2: nat, p: nat)
    requires n1 < n2 && p >= 1
    ensures n1 * p / n2 < p
  {
    QuotientBounds(n1 * p, n2);
    assert n1 * p < n2 * p;
    MulCancels(n1 * p / n2, p, n2);
  }

  lemma Pow2Of31()
    ensures Pow2(31) == 0x8000_0000
  {
    assert Pow2(4) == 16 && Pow2(8) == 256 && Pow2(12) == 4096 && Pow2(16) == 0x1_0000;
    assert Pow2(20) == 0x10_0000 && Pow2(24) == 0x100_0000 && Pow2(28) == 0x1000_0000;
  }

  // ---- Square roots ----------------------------------------------------------------------------

  predicate IsRoot(r: nat, sq: nat) {
    r * r <= sq < (r + 1) * (r + 1)
  }

  lemma {:induction false} RootExists(sq: nat) returns (r: nat)
    ensures IsRoot(r, sq)
  {
    if sq == 0 {
      r := 0;
    } else {
      r := RootExists(sq - 1);
      if sq == (r + 1) * (r + 1) {
        r := r + 1;
      }
    }
  }

  /** One step of Newton's iteration. */
  function NewtonStep(sq: nat, a: nat): nat
    requires a > 0
  {
    (a + sq / a) / 2
  }

  lemma ProductOfHalves(x: nat, y: nat, r: nat)
    requires x + y <= 2 * r
    ensures x * y <= r * r
  {
    var d: int := x - r;
    assert x == r + d && y <= r - d;
    assert x * y <= x * (r - d);
    assert x * (r - d) == r * r - d * d;
    assert d * d >= 0;
  }

  lemma HalvesProduct(x: nat, y: nat, r: nat)
    requires x * y > r * r
    ensures x + y > 2 * r
  {
    if x + y <= 2 * r {
      ProductOfHalves(x, y, r);
    }
  }

  /** A step never falls below the root. */
  lemma StepStaysAbove(sq: nat, a: nat, r: nat)
    requires a > 0 && IsRoot(r, sq)
    ensures NewtonStep(sq, a) >= r
  {
    var q := sq / a;
    QuotientBounds(sq, a);
    HalvesProduct(a, q + 1, r);
  }

  /** From above the root a step halves the excess; at the root it goes up by one at most. */
  lemma StepHalvesExcess(sq: nat, a: nat, r: nat)
    requires a > 0 && IsRoot(r, sq) && a >= r
    ensures NewtonStep(sq, a) - r <= if a == r then 1 else (a - r) / 2
  {
    var q := sq / a;
    QuotientBounds(sq, a);
    assert (r + 1) * (r + 1) == r * r + 2 * r + 1;
    if a == r {
      assert (r + 3) * r == r * r + 3 * r;
      MulCancels(q, r + 3, r);
    } else {
      MulKeepsOrder(a, r + 1, r + 1);
      MulCancels(q, r + 1, a);
    }
  }

  function Larger(a: int, b: int): int {
    if a >= b then a else b
  }

  /** What n halvings leave of a number, one at least. */
  function Halved(b: nat, n: nat): int {
    Larger(1, b / Pow2(n))
  }

  lemma HalveBound(e: nat, b: nat, n: nat)
    requires e <= Halved(b, n)
    ensures e / 2 <= Halved(b, n + 1) && 1 <= Halved(b, n + 1)
  {
    var p := Pow2(n);
    assert Pow2(n + 1) == 2 * p;
    HalfOfQuotient(b, p);
  }

  lemma HalfOfQuotient(b: nat, p: nat)
    requires p > 0
    ensures b / p / 2 == b / (2 * p)
  {
    var k := b / p;
    var q := k / 2;
    QuotientBounds(b, p);
    MulKeepsOrder(k, 2 * q, p);
    MulKeepsOrder(2 * q + 2, k + 1, p);
    assert 2 * q * p == q * (2 * p) && (2 * q + 2) * p == (q + 1) * (2 * p);
    DivUnique(b, 2 * p, q);
  }

  /** Fifteen steps from the number itself. No step is below the root, so none divides by
      zero, and the result exceeds the root by at most one, or by a part of the number that
      fifteen halvings leave: for numbers below 65536 it is the root or the root plus one. */
  method SqrtInt(sq: nat, ghost r: nat) returns (an: nat)
    requires sq >= 1 && IsRoot(r, sq)
    ensures r <= an <= r + Larger(1, sq / 32768)
    ensures sq < 65536 ==> an == r || an == r + 1
  {
    RootPositive(sq, r);
    var increment: nat := 0;
    an := sq;
    assert sq / Pow2(0) == sq;
    while increment < 15
      invariant 0 <= increment <= 15
      invariant r <= an && an - r <= Halved(sq, increment)
      decreases 15 - increment
    {
      StepStaysAbove(sq, an, r);
      StepHalvesExcess(sq, an, r);
      HalveBound(an - r, sq, increment);
      increment := increment + 1;
      an := (an + sq / an) / 2;
    }
    Pow2Of15();
  }

  lemma Pow2Of15()
    ensures Pow2(15) == 32768
  {
    assert Pow2(5) == 32 && Pow2(10) == 1024;
  }

  lemma RootPositive(sq: nat, r: nat)
    requires sq >= 1 && IsRoot(r, sq)
    ensures 1 <= r <= sq
  {
    if r > 0 {
      MulKeepsOrder(r, 1, r);
    }
  }
}
