/** Printing a single-precision number in decimal (src/nanoprintf.h, lines 526 to 641, 895 to
    921 and 945 to 1006, without field widths): its digits are cut off, never rounded. */
module FloatText {
  import opened Bytes
  import opened FloatDigits

  const MANTISSA_BITS := 23
  const MAX_FRACTION_DIGITS := 8
  const BUFFER_SIZE := 32

  /** The bits of a number: sign, biased exponent and mantissa. */
  datatype Float = Float(negative: bool, biased: nat, mantissa: nat)

  predicate IsFloat(x: Float) {
    x.biased < 256 && x.mantissa < 0x80_0000
  }

  function Pow2(n: nat): (p: nat)
    ensures p >= 1
  {
    if n == 0 then 1 else 2 * Pow2(n - 1)
  }

  /** The mantissa with its leading one; a number is this times two to the exponent. */
  function Norm(x: Float): (n: nat)
    requires IsFloat(x)
    ensures 0x80_0000 <= n < 0x100_0000
  {
    x.mantissa + 0x80_0000
  }

  function Exponent(x: Float): int {
    x.biased - 127 - MANTISSA_BITS
  }

  /** The absolute value in units of two to the minus 60. Below two to the minus 37 (exponents
      under -60, among them 0 and all denormal numbers) it is taken for 0. */
  function Units(x: Float): nat
    requires IsFloat(x)
  {
    if Exponent(x) < -60 then 0 else Norm(x) * Pow2(60 + Exponent(x))
  }

  function Fraction(x: Float): (f: nat)
    requires IsFloat(x)
    ensures f < UNIT
  {
    Units(x) % UNIT
  }

  lemma {:induction false} Pow2Add(a: nat, b: nat)
    ensures Pow2(a + b) == Pow2(a) * Pow2(b)
  {
    if b > 0 {
      Pow2Add(a, b - 1);
      assert Pow2(a + b) == 2 * Pow2(a + (b - 1));
    }
  }

  lemma Pow2Values()
    ensures Pow2(20) == 0x10_0000 && Pow2(23) == 0x80_0000 && Pow2(24) == 0x100_0000
    ensures Pow2(36) == 0x10_0000_0000 && Pow2(37) == 0x20_0000_0000
    ensures Pow2(40) == 0x100_0000_0000 && Pow2(60) == UNIT
  {
    assert Pow2(10) == 1024;
    Pow2Add(10, 10);
    Pow2Add(20, 3);
    Pow2Add(20, 4);
    assert Pow2(3) == 8 && Pow2(4) == 16;
    Pow2Add(20, 20);
    Pow2Add(40, 20);
    assert Pow2(6) == 64 && Pow2(7) == 128;
    Pow2Add(10, 6);
    Pow2Add(10, 7);
    Pow2Add(16, 20);
    Pow2Add(17, 20);
  }

  lemma {:induction false} Pow2Grows(a: nat, b: nat)
    requires a <= b
    ensures Pow2(a) <= Pow2(b)
  {
    if a < b {
      Pow2Grows(a, b - 1);
    }
  }

  lemma CancelFactor(n: nat, a: nat, b: nat)
    requires a > 0 && b > 0
    ensures n * a / (b * a) == n / b
  {
    var q, r := n / b, n % b;
    assert n * a == q * (b * a) + r * a;
    assert r * a < b * a;
    QuotientOf(n * a, b * a, q, r * a);
  }

  lemma QuotientOf(x: nat, y: nat, q: nat, r: nat)
    requires y > 0 && x == q * y + r && r < y
    ensures x / y == q
  {
    var k := x / y;
    assert x == k * y + x % y;
    if k < q {
      Apart(k, q, y);
    } else if q < k {
      Apart(q, k, y);
    }
  }

  lemma {:induction false} Apart(a: nat, b: nat, y: nat)
    requires a < b
    ensures a * y + y <= b * y
    decreases b
  {
    assert b * y == (b - 1) * y + y;
    if a < b - 1 {
      Apart(a, b - 1, y);
    }
  }

  /** The integer part, computed by shifts. */
  lemma IntegerPart(x: Float)
    requires IsFloat(x) && Exponent(x) < 41
    ensures var e := Exponent(x);
      Units(x) / UNIT == if e >= 0 then Norm(x) * Pow2(e) else if -e > MANTISSA_BITS then 0 else Norm(x) / Pow2(-e)
    ensures Units(x) / UNIT < TWO64
    ensures Exponent(x) >= 0 ==> Fraction(x) == 0
  {
    hide Pow2;
    var e, n := Exponent(x), Norm(x);
    Pow2Values();
    if e >= 0 {
      Pow2Add(e, 60);
      assert Units(x) == n * Pow2(e) * UNIT;
      Quotient(n * Pow2(e), 0);
      Pow2Grows(e, 40);
      Product(n, 0x100_0000, Pow2(e), 0x100_0000_0000);
    } else if e >= -23 {
      Pow2Add(60 + e, -e);
      CancelFactor(n, Pow2(60 + e), Pow2(-e));
    } else if e >= -60 {
      Pow2Grows(60 + e, 36);
      Product(n, 0x100_0000, Pow2(60 + e), 0x10_0000_0000);
    }
  }

  lemma Product(a: nat, a': nat, b: nat, b': nat)
    requires a < a' && b <= b' && b' > 0
    ensures a * b < a' * b'
  {
    assert a * b <= a * b' < a' * b';
  }

  /** What splitting a number yields: the number of zeros behind the point, how many digits
      follow them, and their value. */
  ghost predicate SplitOf(f: nat, z: nat, k: nat, fracPart: nat)
    requires f < UNIT
  {
    && fracPart == Value(Digits(f, z + k)) && k <= MAX_FRACTION_DIGITS
    && (k == MAX_FRACTION_DIGITS || Rest(f, z + k) == 0)
    && (forall i :: 0 <= i < z ==> Digit(f, i) == 0) && (k > 0 ==> Digit(f, z) > 0)
    && (k == 0 ==> f == 0 && z == 0)
  }

  /** The zeros behind the point. The remainder grows tenfold each time, so there is an end. */
  method CountZeros(f: nat) returns (frac: nat, negExp: nat)
    requires f < UNIT
    ensures frac == 10 * Rest(f, negExp) && (forall i :: 0 <= i < negExp ==> Digit(f, i) == 0)
    ensures if f == 0 then negExp == 0 && frac == 0 else Digit(f, negExp) > 0
  {
    hide Rest, Digit;
    FirstRest(f);
    frac, negExp := f * 10 % TWO64, 0;
    while frac != 0 && frac / UNIT == 0
      invariant frac == 10 * Rest(f, negExp) && (forall i :: 0 <= i < negExp ==> Digit(f, i) == 0)
      invariant f == 0 ==> frac == 0 && negExp == 0
      invariant f != 0 ==> frac != 0
      decreases if frac < UNIT then UNIT - frac else 0
    {
      ZeroDigit(f, negExp);
      negExp := negExp + 1;
      frac := frac % UNIT * 10 % TWO64;
    }
    DigitShown(f, negExp);
  }

  lemma FirstRest(f: nat)
    requires f < UNIT
    ensures f * 10 % TWO64 == 10 * Rest(f, 0)
  {
  }

  lemma ZeroDigit(f: nat, n: nat)
    requires f < UNIT && 10 * Rest(f, n) < UNIT
    ensures Digit(f, n) == 0 && Rest(f, n + 1) == 10 * Rest(f, n)
    ensures 10 * Rest(f, n) % UNIT * 10 % TWO64 == 10 * Rest(f, n + 1)
  {
  }

  lemma DigitShown(f: nat, n: nat)
    requires f < UNIT
    ensures 10 * Rest(f, n) / UNIT != 0 ==> Digit(f, n) > 0
  {
  }

  method SplitAbs(x: Float) returns (ok: bool, intPart: nat, fracPart: nat, negExp: nat, ghost k: nat)
    requires IsFloat(x)
    ensures ok <==> Exponent(x) < 41
    ensures ok ==> intPart == Units(x) / UNIT < TWO64 && SplitOf(Fraction(x), negExp, k, fracPart)
  {
    hide Pow2;
    ok, intPart, fracPart, negExp, k := false, 0, 0, 0, 0;
    var e := Exponent(x);
    if e >= 64 - MANTISSA_BITS {
      return;
    }
    ok := true;
    IntegerPart(x);
    if e >= 0 {
      intPart := Norm(x) * Pow2(e);
    } else if -e <= MANTISSA_BITS {
      intPart := Norm(x) / Pow2(-e);
    }
    var frac: nat := 0;
    var shift := 64 + e - 4;
    if 0 <= shift < 60 {
      frac := Norm(x) * Pow2(shift) % TWO64;
      LowBits(Norm(x) * Pow2(shift));
    }
    frac := frac % UNIT;
    frac, negExp := CountZeros(frac);
    fracPart, k := FractionDigits(Fraction(x), frac, negExp);
  }

  lemma LowBits(n: nat)
    ensures n % TWO64 % UNIT == n % UNIT
  {
  }

  /** Up to eight digits behind the zeros. */
  method FractionDigits(ghost f: nat, frac0: nat, ghost z: nat) returns (fracPart: nat, ghost k: nat)
    requires f < UNIT && frac0 == 10 * Rest(f, z) && (forall i :: 0 <= i < z ==> Digit(f, i) == 0)
    requires if f == 0 then z == 0 && frac0 == 0 else Digit(f, z) > 0
    ensures SplitOf(f, z, k, fracPart)
  {
    hide Digit, Rest, Digits, Value;
    LeadingZeros(f, z);
    var frac, i: nat := frac0, 0;
    fracPart := 0;
    while frac != 0 && i < MAX_FRACTION_DIGITS
      invariant i <= MAX_FRACTION_DIGITS && frac == 10 * Rest(f, z + i) && fracPart == Value(Digits(f, z + i))
      invariant (i == 0 && frac == 0 ==> f == 0) && (f == 0 ==> i == 0 && frac == 0)
      decreases MAX_FRACTION_DIGITS - i
    {
      NextDigit(f, z + i);
      fracPart := fracPart * 10 + frac / UNIT;
      frac := frac % UNIT * 10;
      i := i + 1;
    }
    k := i;
  }

  lemma NextDigit(f: nat, n: nat)
    requires f < UNIT
    ensures Rest(f, n + 1) == 10 * Rest(f, n) % UNIT
    ensures Value(Digits(f, n + 1)) == Value(Digits(f, n)) * 10 + 10 * Rest(f, n) / UNIT
  {
    assert Digits(f, n + 1)[..n] == Digits(f, n);
  }

  /** How many zeros there can be. */
  lemma FewZeros(x: Float, z: nat)
    requires IsFloat(x) && Exponent(x) < 41 && Fraction(x) > 0
    requires forall i :: 0 <= i < z ==> Digit(Fraction(x), i) == 0
    ensures z <= 11 && (Exponent(x) >= -23 ==> z <= 6)
  {
    hide Pow2, Pow10, Units, Digit;
    var f := Fraction(x);
    LeadingZeros(f, z);
    FractionLarge(x);
    Pow10Values();
    if Exponent(x) >= -23 {
      ZerosBound(f, 0x20_0000_0000, z, 6);
    } else {
      ZerosBound(f, 0x80_0000, z, 11);
    }
  }

  lemma FractionLarge(x: Float)
    requires IsFloat(x) && Exponent(x) < 41 && Fraction(x) > 0
    ensures Fraction(x) >= 0x80_0000 && (Exponent(x) >= -23 ==> Fraction(x) >= 0x20_0000_0000)
  {
    hide Pow2;
    var e := Exponent(x);
    IntegerPart(x);
    Pow2Values();
    if e >= -23 {
      Pow2Grows(37, 60 + e);
      MultipleOf(Norm(x), e);
    } else {
      assert Units(x) < UNIT;
      Apart(0, Pow2(60 + e), Norm(x));
    }
  }

  lemma ZerosBound(f: nat, b: nat, z: nat, n: nat)
    requires f >= b && f * Pow10(z) < UNIT && b * Pow10(n + 1) >= UNIT
    ensures z <= n
  {
    hide Pow10;
    if z > n {
      Pow10Grows(n + 1, z);
      TooBig(f, b, Pow10(z), Pow10(n + 1));
    }
  }

  lemma Pow10Values()
    ensures Pow10(7) == 10000000 && Pow10(12) == 1000000000000
  {
    assert Pow10(6) == 1000000;
    assert Pow10(11) == 100000000000;
  }

  lemma {:induction false} Pow10Grows(a: nat, b: nat)
    requires a <= b
    ensures Pow10(a) <= Pow10(b)
  {
    if a < b {
      Pow10Grows(a, b - 1);
    }
  }

  lemma TooBig(f: nat, f': nat, p: nat, p': nat)
    requires f >= f' && p >= p' && f' * p' >= UNIT
    ensures f * p >= UNIT
  {
    assert f * p >= f' * p >= f' * p';
  }

  /** A fraction that is not 0 is at least as large as the last bit of the mantissa. */
  lemma MultipleOf(n: nat, e: int)
    requires -23 <= e < 0 && n * Pow2(60 + e) % UNIT > 0
    ensures n * Pow2(60 + e) % UNIT >= Pow2(60 + e)
  {
    hide Pow2;
    Pow2Add(60 + e, -e);
    Pow2Values();
    ModFactor(n, Pow2(60 + e), Pow2(-e), UNIT);
  }

  lemma ModFactor(n: nat, p: nat, q: nat, u: nat)
    requires p > 0 && q > 0 && u == p * q && n * p % u > 0
    ensures n * p % u >= p
  {
    var d, m := n / q, n % q;
    Distribute(d, q, m, p);
    assert n == d * q + m;
    Apart(m, q, p);
    RestOf(n * p, u, d, m * p);
    if m > 0 {
      Apart(0, m, p);
    }
  }

  lemma Distribute(d: nat, q: nat, m: nat, p: nat)
    ensures (d * q + m) * p == d * (p * q) + m * p
  {
  }

  lemma RestOf(x: nat, y: nat, q: nat, r: nat)
    requires y > 0 && x == q * y + r && r < y
    ensures x % y == r
  {
    QuotientOf(x, y, q, r);
  }
}
