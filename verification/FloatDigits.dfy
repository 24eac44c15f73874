/** Decimal digits of a binary fraction, one at a time, and what the digits say
    (src/nanoprintf.h, lines 576 to 603). */
module FloatDigits {

  /** A fraction is counted in units of two to the minus 60. */
  const UNIT := 0x1000_0000_0000_0000
  const TWO64 := 0x1_0000_0000_0000_0000

  function Pow10(n: nat): (p: nat)
    ensures p >= 1
  {
    if n == 0 then 1 else 10 * Pow10(n - 1)
  }

  /** What is left of a fraction when `n` digits have been taken off and moved up. */
  function Rest(f: nat, n: nat): (r: nat)
    requires f < UNIT
    ensures r < UNIT
  {
    if n == 0 then f else 10 * Rest(f, n - 1) % UNIT
  }

  function Digit(f: nat, n: nat): (d: nat)
    requires f < UNIT
    ensures d < 10
  {
    10 * Rest(f, n) / UNIT
  }

  /** The first `n` digits after the point. */
  function Digits(f: nat, n: nat): (ds: seq<nat>)
    requires f < UNIT
    ensures |ds| == n
  {
    if n == 0 then [] else Digits(f, n - 1) + [Digit(f, n - 1)]
  }

  /** The number that decimal digits stand for. */
  function Value(ds: seq<nat>): nat {
    if ds == [] then 0 else Value(ds[..|ds| - 1]) * 10 + ds[|ds| - 1]
  }

  /** The digits are the fraction, cut off: exactly as many units as there are, and what is
      left is less than one. */
  lemma {:induction false} DigitsTruncate(f: nat, n: nat)
    requires f < UNIT
    ensures f * Pow10(n) == Value(Digits(f, n)) * UNIT + Rest(f, n)
    ensures Value(Digits(f, n)) == f * Pow10(n) / UNIT
  {
    if n > 0 {
      DigitsTruncate(f, n - 1);
      var ds, r, d := Digits(f, n - 1), Rest(f, n - 1), Digit(f, n - 1);
      assert Digits(f, n)[..n - 1] == ds;
      assert 10 * r == d * UNIT + Rest(f, n);
      TenTimes(f, Pow10(n - 1), Value(ds), r, d, Rest(f, n));
    }
    Quotient(Value(Digits(f, n)), Rest(f, n));
  }

  lemma TenTimes(f: nat, p: nat, v: nat, r: nat, d: nat, r': nat)
    requires f * p == v * UNIT + r && 10 * r == d * UNIT + r'
    ensures f * (10 * p) == (v * 10 + d) * UNIT + r'
  {
    assert f * (10 * p) == 10 * (f * p);
  }

  lemma Quotient(q: nat, r: nat)
    requires r < UNIT
    ensures (q * UNIT + r) / UNIT == q
  {
  }

  function Zeros(n: nat): (z: seq<nat>)
    ensures |z| == n
  {
    seq(n, i => 0)
  }

  /** All digits so far are 0. */
  lemma {:induction false} LeadingZeros(f: nat, z: nat)
    requires f < UNIT && forall i :: 0 <= i < z ==> Digit(f, i) == 0
    ensures Digits(f, z) == Zeros(z) && Value(Digits(f, z)) == 0
    ensures Rest(f, z) == f * Pow10(z)
  {
    if z > 0 {
      LeadingZeros(f, z - 1);
      assert Digits(f, z)[..z - 1] == Digits(f, z - 1);
    }
    DigitsTruncate(f, z);
  }

  /** Nothing is left: all further digits are 0. */
  lemma {:induction false} Exhausted(f: nat, n: nat, m: nat)
    requires f < UNIT && Rest(f, n) == 0
    ensures Rest(f, n + m) == 0 && Digits(f, n + m) == Digits(f, n) + Zeros(m)
  {
    hide Rest, Digit;
    NothingMore(f, n, n + m);
    if m > 0 {
      Exhausted(f, n, m - 1);
      NothingMore(f, n, n + m - 1);
      assert Zeros(m) == Zeros(m - 1) + [0];
    } else {
      assert Digits(f, n) + [] == Digits(f, n);
    }
  }

  lemma {:induction false} DigitsPrefix(f: nat, n: nat, m: nat)
    requires f < UNIT && n <= m
    ensures Digits(f, m)[..n] == Digits(f, n)
  {
    if n < m {
      DigitsPrefix(f, n, m - 1);
      assert Digits(f, m)[..m - 1][..n] == Digits(f, m)[..n];
      assert Digits(f, m)[..m - 1] == Digits(f, m - 1);
    }
  }

  /** Decimal digits of a number, last first; none for 0. */
  function Reversed(n: nat): seq<nat> {
    if n == 0 then [] else [n % 10] + Reversed(n / 10)
  }

  function Backwards<T>(s: seq<T>): (r: seq<T>)
    ensures |r| == |s|
  {
    seq(|s|, i requires 0 <= i < |s| => s[|s| - 1 - i])
  }

  predicate AllDigits(ds: seq<nat>) {
    forall i :: 0 <= i < |ds| ==> ds[i] < 10
  }

  /** Taking a number apart gives back the digits it was put together from, if the first is
      not 0. */
  lemma {:induction false} TakenApart(ds: seq<nat>)
    requires AllDigits(ds) && (ds != [] ==> ds[0] != 0)
    ensures Reversed(Value(ds)) == Backwards(ds) && (ds != [] ==> Value(ds) > 0)
    decreases |ds|
  {
    if ds != [] {
      var init, last := ds[..|ds| - 1], ds[|ds| - 1];
      TakenApart(init);
      assert Value(ds) % 10 == last && Value(ds) / 10 == Value(init);
      assert Backwards(ds) == [last] + Backwards(init);
    }
  }

  /** Leading zeros do not change a number. */
  lemma {:induction false} ValueOfTail(a: seq<nat>, b: seq<nat>)
    requires Value(a) == 0
    ensures Value(a + b) == Value(b)
    decreases |b|
  {
    if b == [] {
      assert a + b == a;
    } else {
      assert (a + b)[..|a + b| - 1] == a + b[..|b| - 1];
      ValueOfTail(a, b[..|b| - 1]);
    }
  }

  /** How many zeros a fraction has behind the point; none counts for 0. */
  function LeadCount(r: nat): nat
    decreases if r < UNIT then UNIT - r else 0
  {
    if r == 0 || 10 * r >= UNIT then 0 else 1 + LeadCount(10 * r)
  }

  lemma {:induction false} LeadCountIs(f: nat, n: nat, z: nat)
    requires f < UNIT && n <= z && Digit(f, z) > 0 && forall i :: n <= i < z ==> Digit(f, i) == 0
    ensures LeadCount(Rest(f, n)) == z - n
    decreases z - n
  {
    if n < z {
      LeadCountIs(f, n + 1, z);
      assert Digit(f, n) == 0;
      assert Rest(f, n + 1) == 10 * Rest(f, n);
      if Rest(f, n) == 0 {
        NothingMore(f, n, z);
      }
    }
  }

  lemma {:induction false} NothingMore(f: nat, n: nat, z: nat)
    requires f < UNIT && n <= z && Rest(f, n) == 0
    ensures Digit(f, z) == 0 && Rest(f, z) == 0
    decreases z - n
  {
    if n < z {
      NothingMore(f, n, z - 1);
    }
  }

  /** All digits that matter are there, or eight behind the leading zeros. */
  predicate Enough(f: nat, n: nat)
    requires f < UNIT
  {
    n == LeadCount(f) + 8 || (n < LeadCount(f) + 8 && Rest(f, n) == 0)
  }
}
