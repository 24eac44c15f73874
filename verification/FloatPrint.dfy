/** The text of a single-precision number (src/nanoprintf.h, lines 606 to 641, 895 to 921 and
    945 to 1006, without field widths). */
module FloatPrint {
  import opened Bytes
  import opened FloatDigits
  import opened FloatText

  function Char(d: nat): char
    requires d < 10
  {
    '0' + d as char
  }

  function Chars(ds: seq<nat>): (s: string)
    requires AllDigits(ds)
    ensures |s| == |ds|
  {
    seq(|ds|, i requires 0 <= i < |ds| => Char(ds[i]))
  }

  lemma {:induction false} ReversedDigits(n: nat)
    ensures AllDigits(Reversed(n))
  {
    if n > 0 {
      ReversedDigits(n / 10);
    }
  }

  lemma {:induction false} DigitsAreDigits(f: nat, n: nat)
    requires f < UNIT
    ensures AllDigits(Digits(f, n))
  {
    if n > 0 {
      DigitsAreDigits(f, n - 1);
    }
  }

  function ReversedChars(n: nat): string {
    ReversedDigits(n);
    Chars(Reversed(n))
  }

  /** An integer in decimal, last digit first. */
  function IntReversed(n: nat): string {
    if n == 0 then "0" else ReversedChars(n)
  }

  lemma {:induction false} ReversedLength(n: nat, k: nat)
    requires n < Pow10(k)
    ensures |Reversed(n)| <= k
  {
    if n > 0 {
      assert k > 0;
      ReversedLength(n / 10, k - 1);
    }
  }

  lemma ReversedStep(n: nat)
    requires n > 0
    ensures ReversedChars(n) == [Char(n % 10)] + ReversedChars(n / 10)
  {
    ReversedDigits(n);
    ReversedDigits(n / 10);
  }

  lemma ReversedNone()
    ensures ReversedChars(0) == ""
  {
  }

  /** The digits behind the point. */
  function FractionChars(f: nat, n: nat): (s: string)
    requires f < UNIT
    ensures |s| == n
  {
    DigitsAreDigits(f, n);
    Chars(Digits(f, n))
  }

  function ZeroChars(n: nat): (s: string)
    ensures |s| == n
  {
    seq(n, i => '0')
  }

  /** Digits taken off the value of the fraction, and the zeros behind the point, are the
      digits of the fraction from the last to the first. */
  lemma FractionReversed(f: nat, z: nat, k: nat, fracPart: nat)
    requires f < UNIT && SplitOf(f, z, k, fracPart)
    ensures ReversedChars(fracPart) + ZeroChars(z) == Backwards(FractionChars(f, z + k))
    ensures |Reversed(fracPart)| == k
  {
    hide Reversed, Digit, Rest, Digits, Value, Chars, Backwards;
    var ds := Digits(f, z + k);
    var tail := ds[z..];
    DigitsAreDigits(f, z + k);
    SplitDigits(f, z, k, fracPart);
    TakenApart(tail);
    ReversedDigits(fracPart);
    BackwardsDigits(tail);
    BackwardsJoin(Zeros(z), tail);
    BackwardsZeros(z);
    CharsJoin(Backwards(tail), Zeros(z));
    ZerosAreZeros(z);
    BackwardsChars(ds);
  }

  /** The digits behind the zeros. */
  lemma SplitDigits(f: nat, z: nat, k: nat, fracPart: nat)
    requires f < UNIT && SplitOf(f, z, k, fracPart)
    ensures var tail := Digits(f, z + k)[z..];
      Digits(f, z + k) == Zeros(z) + tail && Value(tail) == fracPart && AllDigits(tail) && (k > 0 ==> tail[0] > 0)
  {
    hide Digit, Rest, Value;
    var ds := Digits(f, z + k);
    DigitsAreDigits(f, z + k);
    LeadingZeros(f, z);
    DigitsPrefix(f, z, z + k);
    assert ds == ds[..z] + ds[z..];
    ValueOfTail(Zeros(z), ds[z..]);
    if k > 0 {
      DigitAt(f, z, z + k);
    }
  }

  lemma BackwardsJoin<T>(a: seq<T>, b: seq<T>)
    ensures Backwards(a + b) == Backwards(b) + Backwards(a)
  {
  }

  lemma BackwardsTwice<T>(a: seq<T>)
    ensures Backwards(Backwards(a)) == a
  {
  }

  lemma BackwardsZeros(n: nat)
    ensures Backwards(Zeros(n)) == Zeros(n)
  {
  }

  lemma BackwardsDigits(ds: seq<nat>)
    requires AllDigits(ds)
    ensures AllDigits(Backwards(ds))
  {
  }

  lemma BackwardsChars(ds: seq<nat>)
    requires AllDigits(ds)
    ensures AllDigits(Backwards(ds)) && Backwards(Chars(ds)) == Chars(Backwards(ds))
  {
  }

  lemma CharsJoin(a: seq<nat>, b: seq<nat>)
    requires AllDigits(a) && AllDigits(b)
    ensures AllDigits(a + b) && Chars(a + b) == Chars(a) + Chars(b)
  {
  }

  lemma ZerosAreZeros(n: nat)
    ensures AllDigits(Zeros(n)) && Chars(Zeros(n)) == ZeroChars(n)
  {
  }

  lemma {:induction false} DigitAt(f: nat, i: nat, n: nat)
    requires f < UNIT && i < n
    ensures Digits(f, n)[i] == Digit(f, i)
  {
    if i < n - 1 {
      DigitAt(f, i, n - 1);
    }
  }

  /** Writes the digits of a number, last first; none for 0. */
  method WriteDigits(buf: array<char>, at: nat, value: nat) returns (n: nat)
    requires at + |Reversed(value)| <= buf.Length
    modifies buf
    ensures n == at + |Reversed(value)| && buf[..n] == old(buf[..at]) + ReversedChars(value)
  {
    hide Chars;
    var v := value;
    n := at;
    ReversedDigits(value);
    assert old(buf[..at]) == buf[..at];
    while v > 0
      invariant n + |Reversed(v)| == at + |Reversed(value)|
      invariant buf[..n] + ReversedChars(v) == old(buf[..at]) + ReversedChars(value)
    {
      ReversedStep(v);
      Assoc(buf[..n], [Char(v % 10)], ReversedChars(v / 10));
      buf[n] := Char(v % 10);
      assert buf[..n + 1] == buf[..n] + [Char(v % 10)];
      v, n := v / 10, n + 1;
    }
    ReversedNone();
    assert buf[..n] + "" == buf[..n];
  }

  /** Writes a decimal integer, last digit first. */
  method WriteInt(buf: array<char>, at: nat, value: nat) returns (n: nat)
    requires at + |IntReversed(value)| <= buf.Length
    modifies buf
    ensures n == at + |IntReversed(value)| && buf[..n] == old(buf[..at]) + IntReversed(value)
  {
    hide Chars;
    if value == 0 {
      buf[at] := '0';
      n := at + 1;
      assert buf[..n] == buf[..at] + "0";
    } else {
      ReversedDigits(value);
      n := WriteDigits(buf, at, value);
    }
  }

  method WriteZeros(buf: array<char>, at: nat, count: nat) returns (n: nat)
    requires at + count <= buf.Length
    modifies buf
    ensures n == at + count && buf[..n] == old(buf[..at]) + ZeroChars(count)
  {
    n := at;
    for i := 0 to count
      invariant n == at + i && buf[..n] == old(buf[..at]) + ZeroChars(i)
    {
      buf[n] := '0';
      n := n + 1;
    }
  }

  /** What is printed for infinities, what is no number, and numbers out of range. */
  function Special(x: Float): Option<string>
    requires IsFloat(x)
  {
    if x.biased == 0xFF then Some(if x.mantissa != 0 then "NAN" else "INF")
    else if Exponent(x) >= 41 then Some("OOR")
    else None
  }

  /** The digits of the integer part, a point, and `n` digits behind it. */
  function Body(x: Float, n: nat): string
    requires IsFloat(x)
  {
    Backwards(IntReversed(Units(x) / UNIT)) + "." + FractionChars(Fraction(x), n)
  }

  lemma BodyBackwards(x: Float, n: nat)
    requires IsFloat(x)
    ensures Backwards(Body(x, n))
         == Backwards(FractionChars(Fraction(x), n)) + "." + IntReversed(Units(x) / UNIT)
  {
    hide Backwards, Units, FractionChars, IntReversed;
    var i, f := IntReversed(Units(x) / UNIT), FractionChars(Fraction(x), n);
    BackwardsJoin(Backwards(i) + ".", f);
    BackwardsJoin(Backwards(i), ".");
    BackwardsTwice(i);
    assert Backwards(".") == "." by { BackwardsOne('.'); }
    Assoc(Backwards(f), ".", i);
  }

  lemma BackwardsOne(c: char)
    ensures Backwards([c]) == [c]
  {
  }

  /** Integer digits and digits behind the point never fill the buffer. */
  lemma BufferBound(x: Float, z: nat, k: nat, fracPart: nat)
    requires IsFloat(x) && Special(x).None? && SplitOf(Fraction(x), z, k, fracPart)
    ensures z + k + 1 + |IntReversed(Units(x) / UNIT)| <= 22
  {
    hide Pow2, Pow10, Digit, Units, Chars, Norm;
    IntegerPart(x);
    if Fraction(x) > 0 {
      FewZeros(x, z);
    } else {
      NothingMore(0, 0, z);
    }
    IntDigits(x);
  }

  lemma IntDigits(x: Float)
    requires IsFloat(x) && Exponent(x) < 41
    ensures |IntReversed(Units(x) / UNIT)| <= if Exponent(x) >= 0 then 20 else if Exponent(x) >= -23 then 7 else 1
  {
    hide Pow2, Chars, Units;
    var e, i := Exponent(x), Units(x) / UNIT;
    IntegerPart(x);
    ReversedDigits(i);
    Pow10Values();
    assert Pow10(20) == 10000000000000 * Pow10(7) by { assert Pow10(14) == 10000000 * Pow10(7); }
    if e >= 0 {
      ReversedLength(i, 20);
    } else if e >= -23 {
      Halved(Norm(x), Pow2(-e));
      AtLeastTwo(-e);
      ReversedLength(i, 7);
    }
  }

  lemma AtLeastTwo(n: nat)
    requires n > 0
    ensures Pow2(n) >= 2
  {
  }

  lemma Halved(n: nat, p: nat)
    requires n < 0x100_0000
    ensures p >= 2 ==> n / p < 0x80_0000
  {
    if p >= 2 {
      var q := n / p;
      assert n == q * p + n % p;
      assert q * 2 <= q * p;
    }
  }

  /** Names in capitals, or in small letters. */
  function Cased(s: string, lower: bool): (r: string)
    requires forall i :: 0 <= i < |s| ==> 'A' <= s[i] <= 'Z'
    ensures |r| == |s|
  {
    seq(|s|, i requires 0 <= i < |s| => if lower then s[i] + 32 as char else s[i])
  }

  method WriteName(buf: array<char>, name: string, lower: bool)
    requires buf.Length == BUFFER_SIZE && |name| == 3 && forall i :: 0 <= i < |name| ==> 'A' <= name[i] <= 'Z'
    modifies buf
    ensures buf[..3] == Cased(name, lower)
  {
    for i := 0 to 3
      invariant buf[..i] == Cased(name, lower)[..i]
    {
      buf[i] := if lower then name[i] + 32 as char else name[i];
    }
  }

  lemma SplitEnough(f: nat, z: nat, k: nat, fracPart: nat)
    requires f < UNIT && SplitOf(f, z, k, fracPart)
    ensures Enough(f, z + k)
  {
    if k > 0 {
      LeadCountIs(f, 0, z);
    }
  }

  /** Writes a number backwards. `fracChars` digits of it are behind the point. */
  method FtoaRev(buf: array<char>, x: Float, lower: bool) returns (len: int, fracChars: nat, ghost k: nat)
    requires IsFloat(x) && buf.Length == BUFFER_SIZE
    modifies buf
    ensures Special(x).Some? ==> len == -3 && buf[..3] == Backwards(Cased(Special(x).value, lower))
    ensures Special(x).None? ==>
      && 0 <= len <= 22 && buf[..len] == Backwards(Body(x, fracChars))
      && Enough(Fraction(x), fracChars)
  {
    hide Pow2, Chars, Units, Reversed, IntReversed, ReversedChars, FractionChars, Digits, Digit, Rest, Value,
         Body, Enough, SplitOf;
    len, fracChars, k := -3, 0, 0;
    if x.biased == 0xFF {
      WriteName(buf, if x.mantissa != 0 then "NAN" else "FNI", lower);
      return;
    }
    var ok, intPart, fracPart, negExp;
    ok, intPart, fracPart, negExp, k := SplitAbs(x);
    if !ok {
      WriteName(buf, "ROO", lower);
      return;
    }
    BufferBound(x, negExp, k, fracPart);
    Reverse(x, negExp, k, fracPart);
    SplitEnough(Fraction(x), negExp, k, fracPart);
    var n := WriteDigits(buf, 0, fracPart);
    n := WriteZeros(buf, n, negExp);
    fracChars := n;
    buf[n] := '.';
    assert buf[..n + 1] == buf[..n] + ".";
    n := WriteInt(buf, n + 1, intPart);
    len := n;
  }

  lemma Reverse(x: Float, z: nat, k: nat, fracPart: nat)
    requires IsFloat(x) && SplitOf(Fraction(x), z, k, fracPart)
    ensures |Reversed(fracPart)| == k
    ensures Backwards(Body(x, z + k)) == ReversedChars(fracPart) + ZeroChars(z) + "." + IntReversed(Units(x) / UNIT)
  {
    hide ReversedChars, FractionChars, Units, IntReversed, SplitOf, Body;
    FractionReversed(Fraction(x), z, k, fracPart);
    BodyBackwards(x, z + k);
  }

  predicate Below0(x: Float) {
    x.negative && (x.biased != 0 || x.mantissa != 0) && !(x.biased == 0xFF && x.mantissa != 0)
  }

  function Sign(x: Float, prepend: string): string {
    if Below0(x) then "-" else prepend
  }

  function Min(a: nat, b: nat): nat {
    if a <= b then a else b
  }

  /** The point and what is behind it: the digits of the fraction cut off after the precision,
      or after eight digits behind the leading zeros, and zeros from there on. */
  function FractionShown(f: nat, prec: nat, alt: bool): string
    requires f < UNIT
  {
    var m := Min(prec, LeadCount(f) + 8);
    if prec == 0 then (if alt then "." else "") else "." + FractionChars(f, m) + ZeroChars(prec - m)
  }

  /** Cutting off and filling up what has been written comes to that. */
  lemma CutAndFill(f: nat, n: nat, prec: nat)
    requires f < UNIT && Enough(f, n)
    ensures var m, shown := Min(prec, LeadCount(f) + 8), Min(prec, n);
      shown <= n && FractionChars(f, n)[..shown] == FractionChars(f, shown)
      && FractionChars(f, shown) + ZeroChars(prec - shown) == FractionChars(f, m) + ZeroChars(prec - m)
  {
    hide Chars, Digits, LeadCount, Rest;
    var m, shown := Min(prec, LeadCount(f) + 8), Min(prec, n);
    FractionPrefix(f, shown, n);
    if shown < m {
      FractionFilled(f, n, m - n);
      ZerosJoin(m - n, prec - m);
      Assoc(FractionChars(f, n), ZeroChars(m - n), ZeroChars(prec - m));
    }
  }

  lemma FractionPrefix(f: nat, n: nat, m: nat)
    requires f < UNIT && n <= m
    ensures FractionChars(f, m)[..n] == FractionChars(f, n)
  {
    hide Digits;
    DigitsPrefix(f, n, m);
    DigitsAreDigits(f, n);
    DigitsAreDigits(f, m);
    assert forall i :: 0 <= i < n ==> Digits(f, m)[..n][i] == Digits(f, m)[i];
  }

  lemma FractionFilled(f: nat, n: nat, k: nat)
    requires f < UNIT && Rest(f, n) == 0
    ensures FractionChars(f, n + k) == FractionChars(f, n) + ZeroChars(k)
  {
    hide Digits, Chars, Rest;
    Exhausted(f, n, k);
    DigitsAreDigits(f, n);
    ZerosAreZeros(k);
    CharsJoin(Digits(f, n), Zeros(k));
  }

  lemma ZerosJoin(a: nat, b: nat)
    ensures ZeroChars(a) + ZeroChars(b) == ZeroChars(a + b)
  {
  }

  /** How much of the buffer's beginning, the end of the text, is left out. */
  function CutStart(n: nat, prec: nat, alt: bool): nat {
    (if n > prec then n - prec else 0) + if prec == 0 && !alt then 1 else 0
  }

  lemma CutBody(x: Float, n: nat, prec: nat, alt: bool)
    requires IsFloat(x) && Enough(Fraction(x), n)
    ensures var whole, start := Body(x, n), CutStart(n, prec, alt);
      && start <= |whole|
      && whole[..|whole| - start] + ZeroChars(if prec > n then prec - n else 0)
         == Backwards(IntReversed(Units(x) / UNIT)) + FractionShown(Fraction(x), prec, alt)
  {
    hide Units, IntReversed, FractionChars, Enough, LeadCount;
    var f, integer := Fraction(x), Backwards(IntReversed(Units(x) / UNIT));
    var shown := Min(prec, n);
    CutAndFill(f, n, prec);
    var whole, start, pad := Body(x, n), CutStart(n, prec, alt), ZeroChars(if prec > n then prec - n else 0);
    if prec == 0 {
      assert pad == "";
      if alt {
        assert whole[..|whole| - start] == integer + ".";
      } else {
        assert whole[..|whole| - start] == integer;
      }
    } else {
      assert whole[..|whole| - start] == integer + "." + FractionChars(f, n)[..shown];
      Assoc(integer, ".", FractionChars(f, shown));
      Assoc(integer, "." + FractionChars(f, shown), pad);
      Assoc(".", FractionChars(f, shown), pad);
      var m := Min(prec, LeadCount(f) + 8);
      Assoc(".", FractionChars(f, m), ZeroChars(prec - m));
    }
  }

  /** A negative precision, which only an argument can give, drops the fraction, the point and,
      below -1, digits off the end of the integer part. */
  function IntegerShown(digits: string, prec: int): string
    requires prec < 0
  {
    var cut := -prec - 1;
    if cut <= |digits| then digits[..|digits| - cut] else ""
  }

  lemma CutInteger(x: Float, n: nat, prec: int)
    requires IsFloat(x) && prec < 0
    ensures var whole, digits := Body(x, n), Backwards(IntReversed(Units(x) / UNIT));
      IntegerShown(digits, prec) == if n - prec <= |whole| then whole[..|whole| - (n - prec)] else ""
  {
    hide Units, IntReversed, FractionChars;
  }

  /** What is left of the text of a number between sign and padding. */
  function Shown(x: Float, prec: int, alt: bool): string
    requires IsFloat(x)
  {
    var digits := Backwards(IntReversed(Units(x) / UNIT));
    if prec < 0 then IntegerShown(digits, prec) else digits + FractionShown(Fraction(x), prec, alt)
  }

  /** Prints a number with `prec` digits behind the point. */
  method PrintDecimal(x: Float, prec: int, alt: bool, prepend: string, lower: bool) returns (out: string)
    requires IsFloat(x)
    ensures Special(x).Some? ==>
      var name := Cased(Special(x).value, lower);
      out == Sign(x, prepend) + if prec == 0 && !alt then name[..2] else name
    ensures Special(x).None? && prec >= 0 ==>
      out == Sign(x, prepend) + (Backwards(IntReversed(Units(x) / UNIT)) + FractionShown(Fraction(x), prec, alt))
    ensures Special(x).None? && prec < 0 ==>
      out == Sign(x, prepend) + IntegerShown(Backwards(IntReversed(Units(x) / UNIT)), prec)
  {
    hide Pow2, Units, IntReversed, FractionChars, Cased, Enough, LeadCount, IntegerShown, FractionShown;
    var cbuf := new char[BUFFER_SIZE];
    var len, fracChars;
    ghost var k;
    len, fracChars, k := FtoaRev(cbuf, x, lower);
    var start: nat, pad: nat := 0, 0;
    var special := len < 0;
    if special {
      len := -len;
    } else {
      start := if fracChars > prec then fracChars - prec else 0;
      pad := if prec > fracChars then prec - fracChars else 0;
    }
    if prec == 0 && !alt {
      start := start + 1;
    }
    ghost var whole := if special then Cased(Special(x).value, lower) else Body(x, fracChars);
    if !special {
      BodyCut(x, fracChars, prec, alt, start, pad);
    }
    var payload := "";
    if start <= len {
      PutBack(whole, cbuf[..len], start);
      payload := PutReversed(cbuf, start, len);
    }
    out := Sign(x, prepend) + (payload + ZeroChars(pad));
    assert payload + "" == payload;
  }

  lemma BodyCut(x: Float, n: nat, prec: int, alt: bool, start: nat, pad: nat)
    requires IsFloat(x) && Enough(Fraction(x), n)
    requires start == (if n > prec then n - prec else 0) + if prec == 0 && !alt then 1 else 0
    requires pad == if prec > n then prec - n else 0
    ensures var whole := Body(x, n);
      (if start <= |whole| then whole[..|whole| - start] else "") + ZeroChars(pad) == Shown(x, prec, alt)
  {
    hide Units, IntReversed, FractionChars, Enough, LeadCount, Body, IntegerShown, FractionShown;
    if prec < 0 {
      CutInteger(x, n, prec);
      assert ZeroChars(0) == "";
    } else {
      CutBody(x, n, prec, alt);
    }
  }

  /** The payload is put out from its end. */
  method PutReversed(cbuf: array<char>, start: nat, len: nat) returns (s: string)
    requires start <= len <= cbuf.Length
    ensures s == Backwards(cbuf[start..len])
  {
    var i: nat := len;
    s := "";
    while i > start
      invariant start <= i <= len && s == Backwards(cbuf[i..len])
    {
      i := i - 1;
      assert cbuf[i..len] == [cbuf[i]] + cbuf[i + 1..len];
      BackwardsJoin([cbuf[i]], cbuf[i + 1..len]);
      BackwardsOne(cbuf[i]);
      s := s + [cbuf[i]];
    }
  }

  /** What was written backwards comes out forwards, less the end that was cut off. */
  lemma PutBack(whole: string, buf: string, start: nat)
    requires buf == Backwards(whole) && start <= |buf|
    ensures Backwards(buf[start..]) == whole[..|whole| - start]
  {
  }

  /** The absolute value. Denormal numbers (biased exponent 0) have no leading one, but they
      are far below what is printed. */
  function AbsValue(x: Float): real
    requires IsFloat(x)
  {
    if Exponent(x) >= 0 then (Norm(x) * Pow2(Exponent(x))) as real
    else Norm(x) as real / Pow2(-Exponent(x)) as real
  }

  function TwoTo(k: int): real {
    if k >= 0 then Pow2(k) as real else 1.0 / Pow2(-k) as real
  }

  /** The value of a normal number, section 3.4 of IEEE 754: one and 23 bits of fraction, times
      two to the biased exponent less 127. */
  lemma IeeeValue(x: Float)
    requires IsFloat(x)
    ensures AbsValue(x) == (1.0 + x.mantissa as real / 8388608.0) * TwoTo(x.biased - 127)
  {
    hide Pow2;
    var e, k, m := Exponent(x), x.biased - 127, x.mantissa as real;
    Pow2Values();
    assert Norm(x) as real == 8388608.0 * (1.0 + m / 8388608.0);
    if e >= 0 {
      Pow2Add(e, 23);
      Scaled(1.0 + m / 8388608.0, 8388608.0, Pow2(e) as real);
    } else if k >= 0 {
      Pow2Add(k, -e);
      Halves(1.0 + m / 8388608.0, Pow2(k) as real, Pow2(-e) as real, 8388608.0);
    } else {
      Pow2Add(-k, 23);
      Fractions(1.0 + m / 8388608.0, Pow2(-k) as real, 8388608.0);
    }
  }

  lemma Scaled(n: real, u: real, a: real)
    ensures u * n * a == n * (a * u)
  {
  }

  lemma Halves(n: real, a: real, b: real, u: real)
    requires b > 0.0 && u == a * b
    ensures u * n / b == n * a
  {
    assert u * n == n * a * b;
  }

  lemma Fractions(n: real, a: real, u: real)
    requires a > 0.0 && u > 0.0
    ensures u * n / (a * u) == n * (1.0 / a)
  {
    assert n * (1.0 / a) * (a * u) == n * u * (1.0 / a * a);
  }

  /** From two to the minus 37 on, the units are exact. */
  lemma UnitsExact(x: Float)
    requires IsFloat(x) && Exponent(x) >= -60
    ensures Units(x) as real == AbsValue(x) * UNIT as real
  {
    hide Pow2;
    var e, n := Exponent(x), Norm(x);
    Pow2Values();
    if e >= 0 {
      Pow2Add(e, 60);
      assert Units(x) == n * Pow2(e) * UNIT;
    } else {
      Pow2Add(60 + e, -e);
      RealCancel(n as real, Pow2(60 + e) as real, Pow2(-e) as real, UNIT as real);
    }
  }

  lemma RealCancel(n: real, a: real, b: real, u: real)
    requires b > 0.0 && u == a * b
    ensures n / b * u == n * a
  {
    assert n / b * u == n / b * b * a;
  }

  /** The digits in front of the point and `p` behind it are the value times ten to the p,
      cut off to an integer. */
  lemma ExactTruncation(x: Float, p: nat)
    requires IsFloat(x)
    ensures Units(x) / UNIT * Pow10(p) + Value(Digits(Fraction(x), p)) == Units(x) * Pow10(p) / UNIT
  {
    hide Units, Pow10, Digits, Value;
    var u, i, f, t := Units(x), Units(x) / UNIT, Fraction(x), Pow10(p);
    DigitsTruncate(f, p);
    var v, r := Value(Digits(f, p)), Rest(f, p);
    Spread(i, f, t);
    Gather(i, t, v, r);
    Quotient(i * t + v, r);
  }

  lemma Spread(i: nat, f: nat, t: nat)
    ensures (i * UNIT + f) * t == i * t * UNIT + f * t
  {
  }

  lemma Gather(i: nat, t: nat, v: nat, r: nat)
    ensures i * t * UNIT + (v * UNIT + r) == (i * t + v) * UNIT + r
  {
  }
}
