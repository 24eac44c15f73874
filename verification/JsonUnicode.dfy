/** The \u escapes of JSON strings and the UTF-8 they stand for (section 7 of RFC 8259,
    section 3 of RFC 3629; src/cJSON/cJSON.c, lines 630 to 785). */
module JsonUnicode {
  import opened Bytes
  import opened JsonText

  function HexDigit(b: byte): (d: Option<nat>)
    ensures d.Some? ==> d.value < 16
  {
    if 48 <= b <= 57 then Some(b - 48)
    else if 65 <= b <= 70 then Some(b - 55)
    else if 97 <= b <= 102 then Some(b - 87)
    else None
  }

  /** The number that hexadecimal digits stand for. */
  function HexValue(h: seq<byte>): Option<nat> {
    if h == [] then Some(0)
    else
      var n := |h| - 1;
      var high, low := HexValue(h[..n]), HexDigit(h[n]);
      if high.Some? && low.Some? then Some(high.value * 16 + low.value) else None
  }

  /** Four hexadecimal digits; anything else counts as 0. */
  function Hex4(h: seq<byte>): (u: nat)
    requires |h| == 4
    ensures u < 0x1_0000
  {
    HexBound(h);
    var v := HexValue(h);
    if v.Some? then v.value else 0
  }

  lemma HexBound(h: seq<byte>)
    requires |h| == 4
    ensures HexValue(h).Some? ==> HexValue(h).value < 0x1_0000
  {
    var a, b, c := h[..3], h[..3][..2], h[..3][..2][..1];
    assert HexValue(c).Some? ==> HexValue(c).value < 16 by { assert c[..0] == []; }
    assert HexValue(b).Some? ==> HexValue(b).value < 256;
    assert HexValue(a).Some? ==> HexValue(a).value < 4096;
  }

  method ParseHex4(input: seq<byte>) returns (h: nat)
    requires |input| == 4
    ensures h == Hex4(input)
  {
    h := 0;
    for i := 0 to 4
      invariant HexValue(input[..i]) == Some(if i == 0 || i == 4 then h else h / 16)
      invariant 0 < i < 4 ==> h % 16 == 0
    {
      assert input[..i + 1][..i] == input[..i];
      var d := HexDigit(input[i]);
      if d.None? {
        NoHex(input, i + 1);
        return 0;
      }
      h := h + d.value;
      if i < 3 {
        h := h * 16;
      }
    }
    assert input[..4] == input;
  }

  /** One bad digit spoils the number. */
  lemma {:induction false} NoHex(h: seq<byte>, k: nat)
    requires 1 <= k <= |h| && HexDigit(h[k - 1]).None?
    ensures HexValue(h) == None
    decreases |h|
  {
    if k < |h| {
      NoHex(h[..|h| - 1], k);
    }
  }

  predicate HighSurrogate(u: nat) {
    0xD800 <= u <= 0xDBFF
  }

  predicate LowSurrogate(u: nat) {
    0xDC00 <= u <= 0xDFFF
  }

  predicate ScalarValue(cp: nat) {
    cp <= 0x10FFFF && !(0xD800 <= cp <= 0xDFFF)
  }

  /** Section 3 of RFC 3629. */
  function Utf8(cp: nat): (bs: seq<byte>)
    requires cp <= 0x10FFFF
    ensures 1 <= |bs| <= 4
  {
    if cp < 0x80 then [cp]
    else if cp < 0x800 then [0xC0 + cp / 64, 0x80 + cp % 64]
    else if cp < 0x10000 then [0xE0 + cp / 4096, 0x80 + cp / 64 % 64, 0x80 + cp % 64]
    else [0xF0 + cp / 262144, 0x80 + cp / 4096 % 64, 0x80 + cp / 64 % 64, 0x80 + cp % 64]
  }

  /** What UTF-8 bytes say: the payload bits of the lead byte and of those that follow it. */
  function Utf8Value(bs: seq<byte>): nat
    requires 1 <= |bs| <= 4
  {
    var lead := if |bs| == 1 then bs[0] % 128
                else if |bs| == 2 then bs[0] % 32
                else if |bs| == 3 then bs[0] % 16 else bs[0] % 8;
    Tail(lead, bs[1..])
  }

  function Tail(high: nat, bs: seq<byte>): nat
    decreases |bs|
  {
    if bs == [] then high else Tail(high * 64 + bs[0] % 64, bs[1..])
  }

  /** The encoding can be read back, and is the shortest. */
  lemma Utf8RoundTrip(cp: nat)
    requires cp <= 0x10FFFF
    ensures Utf8Value(Utf8(cp)) == cp
    ensures |Utf8(cp)| == if cp < 0x80 then 1 else if cp < 0x800 then 2 else if cp < 0x10000 then 3 else 4
  {
    hide Utf8Value;
    Sextets(cp);
    if 0x80 <= cp < 0x800 {
      ValueOfTwo(cp / 64, cp % 64);
    } else if cp < 0x10000 {
      ValueOfThree(cp / 4096, cp / 64 % 64, cp % 64);
    } else {
      ValueOfFour(cp / 262144, cp / 4096 % 64, cp / 64 % 64, cp % 64);
    }
    ValueOfOne(cp % 128);
  }

  /** The lead bytes and those that follow them, section 3 of RFC 3629. */
  lemma Utf8Form(cp: nat)
    requires cp <= 0x10FFFF
    ensures var bs := Utf8(cp);
      && (forall k :: 0 < k < |bs| ==> 0x80 <= bs[k] <= 0xBF)
      && match |bs|
         case 1 => bs[0] <= 0x7F
         case 2 => 0xC2 <= bs[0] <= 0xDF
         case 3 => 0xE0 <= bs[0] <= 0xEF
         case _ => 0xF0 <= bs[0] <= 0xF4
  {
  }

  lemma Sextets(cp: nat)
    ensures cp == cp / 64 * 64 + cp % 64
    ensures cp / 64 == cp / 4096 * 64 + cp / 64 % 64
    ensures cp / 4096 == cp / 262144 * 64 + cp / 4096 % 64
  {
  }

  lemma ValueOfOne(d: nat)
    requires d < 128
    ensures Utf8Value([d]) == d
  {
    assert [d][1..] == [];
  }

  lemma ValueOfTwo(c: nat, d: nat)
    requires c < 32 && d < 64
    ensures Utf8Value([0xC0 + c, 0x80 + d]) == c * 64 + d
  {
    TailOne(c, d, []);
    assert [0xC0 + c, 0x80 + d][1..] == [0x80 + d] + [];
  }

  lemma ValueOfThree(b: nat, c: nat, d: nat)
    requires b < 16 && c < 64 && d < 64
    ensures Utf8Value([0xE0 + b, 0x80 + c, 0x80 + d]) == (b * 64 + c) * 64 + d
  {
    TailOne(b, c, [0x80 + d]);
    TailOne(b * 64 + c, d, []);
    assert [0xE0 + b, 0x80 + c, 0x80 + d][1..] == [0x80 + c] + [0x80 + d];
    assert [0x80 + d] + [] == [0x80 + d];
  }

  lemma ValueOfFour(a: nat, b: nat, c: nat, d: nat)
    requires a < 8 && b < 64 && c < 64 && d < 64
    ensures Utf8Value([0xF0 + a, 0x80 + b, 0x80 + c, 0x80 + d]) == ((a * 64 + b) * 64 + c) * 64 + d
  {
    hide Tail;
    TailOne(a, b, [0x80 + c, 0x80 + d]);
    TailTwo(a * 64 + b, c, d);
    var bs: seq<byte> := [0xF0 + a, 0x80 + b, 0x80 + c, 0x80 + d];
    assert bs[1..] == [0x80 + b] + [0x80 + c, 0x80 + d];
    assert bs[0] % 8 == a;
  }

  lemma TailTwo(high: nat, c: nat, d: nat)
    requires c < 64 && d < 64
    ensures Tail(high, [0x80 + c, 0x80 + d]) == (high * 64 + c) * 64 + d
  {
    TailOne(high, c, [0x80 + d]);
    TailOne(high * 64 + c, d, []);
    assert [0x80 + c, 0x80 + d] == [0x80 + c] + [0x80 + d];
    assert [0x80 + d] + [] == [0x80 + d];
  }

  lemma TailOne(high: nat, bits: nat, more: seq<byte>)
    requires bits < 64
    ensures Tail(high, [0x80 + bits] + more) == Tail(high * 64 + bits, more)
  {
    var first: byte := 0x80 + bits;
    assert first % 64 == bits;
    assert ([first] + more)[1..] == more;
  }

  /** UTF-16 code units of a scalar value. */
  function Units(cp: nat): seq<nat>
    requires ScalarValue(cp)
  {
    if cp < 0x10000 then [cp] else [0xD800 + (cp - 0x10000) / 1024, 0xDC00 + (cp - 0x10000) % 1024]
  }

  datatype Literal = Literal(codepoint: nat, used: nat) | Invalid

  function Unit(c: seq<byte>, p: nat): nat
    requires p + 6 <= |c|
  {
    Hex4(c[p + 2..p + 6])
  }

  /** The literal of one or two \uXXXX sequences at `p`, before `end`. */
  function LiteralAt(c: seq<byte>, p: nat, end: nat): (r: Literal)
    requires p <= end <= |c|
    ensures r.Literal? ==> ScalarValue(r.codepoint) && r.used in {6, 12} && p + r.used <= end
    ensures r.Literal? ==> 2 * |Utf8(r.codepoint)| <= r.used
  {
    if end - p < 6 then Invalid
    else
      var first := Unit(c, p);
      if LowSurrogate(first) then Invalid
      else if HighSurrogate(first) then
        if end - p < 12 || c[p + 6] != BACKSLASH || c[p + 7] != LETTER_U then Invalid
        else
          var second := Unit(c, p + 6);
          if !LowSurrogate(second) then Invalid
          else Literal(0x10000 + first % 1024 * 1024 + second % 1024, 12)
      else Literal(first, 6)
  }

  /** Escapes of code units, whatever the case of their digits. */
  predicate EscapesUnit(lit: seq<byte>, u: nat) {
    |lit| == 6 && lit[0] == BACKSLASH && lit[1] == LETTER_U && HexValue(lit[2..]) == Some(u)
  }

  predicate EscapesScalar(lit: seq<byte>, cp: nat)
    requires ScalarValue(cp)
  {
    if cp < 0x10000 then EscapesUnit(lit, cp)
    else |lit| == 12 && EscapesUnit(lit[..6], Units(cp)[0]) && EscapesUnit(lit[6..], Units(cp)[1])
  }

  /** Every Unicode scalar value, escaped in one or two units, is read back as itself. */
  lemma EscapedScalar(c: seq<byte>, p: nat, end: nat, lit: seq<byte>, cp: nat)
    requires ScalarValue(cp) && EscapesScalar(lit, cp)
    requires p + |lit| <= end <= |c| && c[p..p + |lit|] == lit
    ensures LiteralAt(c, p, end) == Literal(cp, |lit|)
  {
    hide Utf8, HexValue, Unit;
    if cp < 0x10000 {
      UnitRead(c, p, lit, cp);
    } else {
      assert c[p..p + 6] == lit[..6] && c[p + 6..p + 12] == lit[6..];
      UnitRead(c, p, lit[..6], Units(cp)[0]);
      UnitRead(c, p + 6, lit[6..], Units(cp)[1]);
      assert c[p + 6] == lit[6..][0] && c[p + 7] == lit[6..][1];
    }
  }

  lemma UnitRead(c: seq<byte>, p: nat, lit: seq<byte>, u: nat)
    requires EscapesUnit(lit, u) && p + 6 <= |c| && c[p..p + 6] == lit
    ensures Unit(c, p) == u
  {
    assert c[p + 2..p + 6] == c[p..p + 6][2..];
  }

  /** Bits of the lead byte that tell the length. */
  function LeadMark(n: nat): byte {
    if n == 2 then 0xC0 else if n == 3 then 0xE0 else if n == 4 then 0xF0 else 0
  }

  /** The code point after `k` times six bits have been shifted out. */
  function Shifted(cp: nat, k: nat): nat {
    if k == 0 then cp else Shifted(cp, k - 1) / 64
  }

  lemma Utf8At(cp: nat)
    requires cp <= 0x10FFFF
    ensures var n := |Utf8(cp)|;
      Shifted(cp, n - 1) + LeadMark(n) == Utf8(cp)[0]
      && forall k :: 0 < k < n ==> Utf8(cp)[k] == 0x80 + Shifted(cp, n - 1 - k) % 64
  {
    assert Shifted(cp, 1) == cp / 64;
    assert Shifted(cp, 2) == cp / 64 / 64 == cp / 4096;
    assert Shifted(cp, 3) == cp / 64 / 64 / 64 == cp / 262144;
  }

  /** Writes the UTF-8 bytes of a code point, last byte first. Setting and clearing the mark
      bits of a byte that has six payload bits is adding the mark. */
  method EncodeUtf8(codepoint: nat, n: nat, out: array<byte>, pos: nat)
    requires codepoint <= 0x10FFFF && n == |Utf8(codepoint)| && pos + n <= out.Length
    modifies out
    ensures out[..pos + n] == old(out[..pos]) + Utf8(codepoint)
  {
    hide Utf8, Shifted, LeadMark;
    ghost var bs := Utf8(codepoint);
    Utf8At(codepoint);
    ShiftedNone(codepoint);
    var cp: nat, k: nat := codepoint, n - 1;
    while k > 0
      invariant 0 <= k < n && cp == Shifted(codepoint, n - 1 - k)
      invariant out[..pos] == old(out[..pos])
      invariant forall j :: k < j < n ==> out[pos + j] == bs[j]
    {
      ShiftedMore(codepoint, n - 1 - k);
      out[pos + k] := 0x80 + cp % 64;
      cp := cp / 64;
      k := k - 1;
    }
    out[pos] := cp + LeadMark(n);
    assert out[pos..pos + n] == bs;
    assert out[..pos + n] == out[..pos] + out[pos..pos + n];
  }

  lemma ShiftedNone(cp: nat)
    ensures Shifted(cp, 0) == cp
  {
  }

  lemma ShiftedMore(cp: nat, k: nat)
    ensures Shifted(cp, k + 1) == Shifted(cp, k) / 64
  {
  }

  /** Converts the literal at `p`; `used` is 0 if it is invalid. */
  method Utf16LiteralToUtf8(c: seq<byte>, p: nat, end: nat, out: array<byte>, pos: nat) returns (used: nat, next: nat)
    requires p <= end <= |c| && pos <= out.Length
    requires var r := LiteralAt(c, p, end); r.Literal? ==> pos + |Utf8(r.codepoint)| <= out.Length
    modifies out
    ensures var r := LiteralAt(c, p, end);
      if r.Invalid? then used == 0 && next == pos && out[..] == old(out[..])
      else used == r.used && next == pos + |Utf8(r.codepoint)| && out[..next] == old(out[..pos]) + Utf8(r.codepoint)
  {
    hide Utf8, Unit;
    if end - p < 6 {
      return 0, pos;
    }
    var first := ParseHex4(c[p + 2..p + 6]);
    UnitIs(c, p);
    var codepoint: nat := first;
    used := 6;
    if LowSurrogate(first) {
      return 0, pos;
    }
    if HighSurrogate(first) {
      used := 12;
      if end - p < 12 || c[p + 6] != BACKSLASH || c[p + 7] != LETTER_U {
        return 0, pos;
      }
      var second := ParseHex4(c[p + 8..p + 12]);
      UnitIs(c, p + 6);
      if !LowSurrogate(second) {
        return 0, pos;
      }
      codepoint := 0x10000 + first % 1024 * 1024 + second % 1024;
    }
    var n := if codepoint < 0x80 then 1 else if codepoint < 0x800 then 2 else if codepoint < 0x10000 then 3 else 4;
    Utf8RoundTrip(codepoint);
    EncodeUtf8(codepoint, n, out, pos);
    next := pos + n;
  }

  lemma UnitIs(c: seq<byte>, p: nat)
    requires p + 6 <= |c|
    ensures Unit(c, p) == Hex4(c[p + 2..p + 6])
  {
  }
}
