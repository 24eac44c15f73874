/** Reading a JSON string literal, and that it undoes printing one (src/cJSON/cJSON.c, lines
    788 to 914 and 917 to 1036). */
module JsonStrings {
  import opened Bytes
  import opened JsonText
  import opened JsonUnicode

  /** The quote that ends a literal whose contents start at `k`: the first one that no
      backslash takes along. */
  function FindEnd(c: seq<byte>, k: nat): (r: Option<nat>)
    ensures r.Some? ==> k <= r.value < |c| && c[r.value] == QUOTE
    decreases |c| - k
  {
    if k >= |c| then None
    else if c[k] == QUOTE then Some(k)
    else if c[k] == BACKSLASH then FindEnd(c, k + 2)
    else FindEnd(c, k + 1)
  }

  /** Backslashes on the way to that quote that take a byte along. */
  function Skipped(c: seq<byte>, k: nat): nat
    decreases |c| - k
  {
    if k >= |c| || c[k] == QUOTE then 0
    else if c[k] == BACKSLASH then 1 + Skipped(c, k + 2)
    else Skipped(c, k + 1)
  }

  /** What a backslash with one letter stands for. */
  function ShortUnescape(b: byte): Option<byte> {
    match b
    case 98 => Some(8) case 102 => Some(12) case 110 => Some(10) case 114 => Some(13) case 116 => Some(9)
    case 34 => Some(34) case 92 => Some(92) case 47 => Some(47) case _ => None
  }

  /** One unit of a literal: the bytes it stands for and how many it is written with. */
  datatype Token = Token(bytes: seq<byte>, used: nat) | NoToken

  function NextToken(c: seq<byte>, p: nat, end: nat): (r: Token)
    requires p < end < |c|
    ensures r.Token? ==> 1 <= r.used && (p + r.used <= end || r.used == 2)
  {
    if c[p] != BACKSLASH then Token([c[p]], 1)
    else if ShortUnescape(c[p + 1]).Some? then Token([ShortUnescape(c[p + 1]).value], 2)
    else if c[p + 1] == LETTER_U && LiteralAt(c, p, end).Literal? then
      Token(Utf8(LiteralAt(c, p, end).codepoint), LiteralAt(c, p, end).used)
    else NoToken
  }

  function Decode(c: seq<byte>, p: nat, end: nat): Option<seq<byte>>
    requires end < |c|
    decreases if p < end then end - p else 0
  {
    if p >= end then Some([])
    else
      var t := NextToken(c, p, end);
      if t.NoToken? then None
      else Prepended(t.bytes, Decode(c, p + t.used, end))
  }

  function Prepended(a: seq<byte>, b: Option<seq<byte>>): Option<seq<byte>> {
    if b.Some? then Some(a + b.value) else None
  }

  lemma PrependedTwice(a: seq<byte>, b: seq<byte>, c: Option<seq<byte>>)
    ensures Prepended(a, Prepended(b, c)) == Prepended(a + b, c)
    ensures Prepended([], c) == c
  {
    if c.Some? {
      Assoc(a, b, c.value);
      assert [] + c.value == c.value;
    }
  }

  /** The outcome of a parse: a value and where it ends, a syntax error, a read past the end
      of the text, or a number that is not a 32-bit integer. */
  datatype Parse<+T> = Done(value: T, off: nat) | Failed | OutOfBounds | Unmodelled

  /** What a C string holds: nothing from the first NUL on. */
  function CString(s: seq<byte>): (r: seq<byte>)
    ensures NoNul(r) && |r| <= |s|
    ensures NoNul(s) ==> r == s
  {
    if s == [] || s[0] == 0 then [] else [s[0]] + CString(s[1..])
  }

  function ParseString(c: seq<byte>, off: nat): (r: Parse<seq<byte>>)
    ensures r.Done? ==> off < r.off <= |c| && NoNul(r.value)
  {
    if off >= |c| then OutOfBounds
    else if c[off] != QUOTE then Failed
    else
      var end := FindEnd(c, off + 1);
      if end.None? then Failed
      else
        var s := Decode(c, off + 1, end.value);
        if s.Some? then Done(CString(s.value), end.value + 1) else Failed
  }

  /** Where the search for the end goes on from `p` or just behind it, having left at most
      every second byte out. */
  predicate OnTheWay(c: seq<byte>, p: nat, s: nat, end: nat) {
    p <= s <= p + 1 && s <= end && FindEnd(c, s) == Some(end)
  }

  /** The search steps over a stretch: it goes on at its end or just behind it. */
  lemma {:induction false} Advance(c: seq<byte>, s: nat, p: nat, end: nat) returns (s': nat)
    requires s <= p <= end && FindEnd(c, s) == Some(end)
    ensures OnTheWay(c, p, s', end)
    ensures 2 * (Skipped(c, s) - Skipped(c, s')) <= s' - s
    decreases p - s
  {
    if s == p {
      s' := s;
    } else if c[s] == BACKSLASH {
      if s + 1 == p {
        s' := s + 2;
      } else {
        s' := Advance(c, s + 2, p, end);
      }
    } else {
      s' := Advance(c, s + 1, p, end);
    }
  }

  /** A unit yields no more bytes than it is written with, less the backslashes skipped. */
  lemma TokenFits(c: seq<byte>, p: nat, s: nat, end: nat) returns (s': nat)
    requires p < end < |c| && OnTheWay(c, p, s, end) && NextToken(c, p, end).Token?
    ensures var t := NextToken(c, p, end);
      && (p + t.used <= end ==> OnTheWay(c, p + t.used, s', end))
      && |t.bytes| + Skipped(c, s) <= t.used + Skipped(c, s')
      && (p + t.used > end ==> p + t.used == end + 1 && s == s' == end && |t.bytes| == 1 && Skipped(c, end) == 0)
  {
    hide LiteralAt, Utf8, ShortUnescape;
    var t := NextToken(c, p, end);
    if t.used == 1 {
      s' := p + 1;
    } else if p + t.used > end {
      s' := s;
    } else if t.used == 2 {
      s' := if s == p || c[p + 1] != BACKSLASH then p + 2 else p + 3;
    } else {
      LiteralBytes(c, p, end);
      s' := Advance(c, s, p + t.used, end);
    }
  }

  lemma LiteralBytes(c: seq<byte>, p: nat, end: nat)
    requires p <= end <= |c| && LiteralAt(c, p, end).Literal?
    ensures var r := LiteralAt(c, p, end);
      r.used in {6, 12} && p + r.used <= end && 2 * |Utf8(r.codepoint)| <= r.used
  {
  }

  /** The number of bytes the literal is given room for. */
  function Estimate(c: seq<byte>, start: nat, end: nat): int {
    1 + end - start - Skipped(c, start)
  }

  /** Decodes the contents of a literal into the room that was estimated for it. The room is
      never exceeded, whatever the literal holds; a terminator still fits behind. */
  method Unescape(c: seq<byte>, start: nat, end: nat, out: array<byte>) returns (ok: bool, n: nat)
    requires FindEnd(c, start) == Some(end) && out.Length == Estimate(c, start, end) + 1
    modifies out
    ensures ok <==> Decode(c, start, end).Some?
    ensures ok ==> n < out.Length - 1 && out[..n] == Decode(c, start, end).value
  {
    hide LiteralAt, FindEnd, Skipped, Utf8, NextToken, Prepended;
    var p: nat := start;
    ghost var s: nat := start;
    n := 0;
    WayFits(c, start, start, end);
    PrependedTwice([], [], Decode(c, start, end));
    ok := true;
    while p < end
      invariant p > end ==> p == end + 1
      invariant if p <= end then OnTheWay(c, p, s, end) else s == end
      invariant n + Skipped(c, start) <= (if p <= end then p else end) - start + Skipped(c, s)
      invariant n + Skipped(c, start) <= end - start && ok
      invariant Decode(c, start, end) == Prepended(out[..n], Decode(c, p, end))
      decreases if p < end then end - p else 0
    {
      ghost var t, sofar := NextToken(c, p, end), out[..n];
      if t.Token? {
        s := TokenFits(c, p, s, end);
        PrependedTwice(sofar, t.bytes, Decode(c, p + t.used, end));
        if p + t.used <= end {
          WayFits(c, p + t.used, s, end);
        }
      }
      ok, p, n := UnescapeOne(c, p, end, out, n);
      if !ok {
        NothingPrepended(sofar);
        return;
      }
    }
    assert out[..n] + [] == out[..n];
    NothingMore(out[..n]);
  }

  lemma NothingPrepended(a: seq<byte>)
    ensures Prepended(a, None) == None
  {
  }

  lemma NothingMore(a: seq<byte>)
    ensures Prepended(a, Some([])) == Some(a)
  {
    assert a + [] == a;
  }

  /** Decodes one unit. */
  method UnescapeOne(c: seq<byte>, p: nat, end: nat, out: array<byte>, n: nat) returns (ok: bool, p': nat, n': nat)
    requires p < end < |c| && n <= out.Length
    requires var t := NextToken(c, p, end); t.Token? ==> n + |t.bytes| <= out.Length
    modifies out
    ensures var t := NextToken(c, p, end);
      ok == t.Token? && (ok ==>
        p' == p + t.used && n' == n + |t.bytes| && out[..n'] == old(out[..n]) + t.bytes)
  {
    hide LiteralAt, Utf8, ShortUnescape;
    ok, p', n' := true, p, n;
    if c[p] != BACKSLASH {
      out[n] := c[p];
      p', n' := p + 1, n + 1;
    } else if ShortUnescape(c[p + 1]).Some? {
      out[n] := ShortUnescape(c[p + 1]).value;
      p', n' := p + 2, n + 1;
    } else if c[p + 1] == LETTER_U {
      var used;
      used, n' := Utf16LiteralToUtf8(c, p, end, out, n);
      ok, p' := used != 0, p + used;
    } else {
      ok := false;
    }
  }

  lemma WayFits(c: seq<byte>, p: nat, s: nat, end: nat)
    requires OnTheWay(c, p, s, end)
    ensures p <= s && s + 2 * Skipped(c, s) <= end && end < |c|
    decreases end - s
  {
    if s < end {
      if c[s] == BACKSLASH {
        WayFits(c, s + 2, s + 2, end);
      } else {
        WayFits(c, s + 1, s + 1, end);
      }
    }
  }

  lemma HexOfLower(d: nat)
    requires d < 16
    ensures HexDigit(LowerHex(d)) == Some(d)
  {
  }

  /** The text of a byte is the unit that stands for it, unless a quote or the end of the
      text comes in between. */
  lemma EscapedByte(c: seq<byte>, p: nat, b: byte, end: nat)
    requires b != 0 && Reads(c, p, EscapeByte(b)) && p + |EscapeByte(b)| <= end < |c|
    ensures NextToken(c, p, end) == Token([b], |EscapeByte(b)|)
  {
    var t := EscapeByte(b);
    ReadsItem(c, p, t, 0);
    if ShortEscape(b).Some? {
      ReadsItem(c, p, t, 1);
    } else if b < 32 {
      ReadsItem(c, p, t, 1);
      ControlHex(b);
      EscapedScalar(c, p, end, t, b);
    }
  }

  lemma ControlHex(b: byte)
    requires b < 32 && ShortEscape(b).None?
    ensures EscapesScalar(EscapeByte(b), b)
  {
    var h := EscapeByte(b)[2..];
    HexOfLower(b / 16);
    HexOfLower(b % 16);
    assert h == [48, 48, LowerHex(b / 16), LowerHex(b % 16)];
    assert h[..3] == [48, 48, LowerHex(b / 16)];
    assert h[..3][..2] == [48, 48];
    assert [48, 48][..1] == [48] && [48][..0] == [];
    assert [48 as byte, 48][1] == 48;
    assert HexValue([48]) == Some(0);
    assert HexValue([48, 48]) == Some(0);
    assert HexValue(h[..3]) == Some(b / 16);
  }

  /** The search for the end steps over the text of a byte. */
  lemma EndPastByte(c: seq<byte>, p: nat, b: byte)
    requires Reads(c, p, EscapeByte(b))
    ensures FindEnd(c, p) == FindEnd(c, p + |EscapeByte(b)|)
  {
    var t := EscapeByte(b);
    ReadsItem(c, p, t, 0);
    if ShortEscape(b).None? && b < 32 {
      ReadsItem(c, p, t, 2);
      ReadsItem(c, p, t, 3);
      ReadsItem(c, p, t, 4);
      ReadsItem(c, p, t, 5);
      assert FindEnd(c, p) == FindEnd(c, p + 2);
      assert FindEnd(c, p + 4) == FindEnd(c, p + 5) == FindEnd(c, p + 6);
    }
  }

  lemma {:induction false} EndPastText(c: seq<byte>, p: nat, s: seq<byte>)
    requires Reads(c, p, Escape(s))
    ensures FindEnd(c, p) == FindEnd(c, p + |Escape(s)|)
    decreases |s|
  {
    hide FindEnd, EscapeByte, Reads;
    if s != [] {
      ReadsSplit(c, p, EscapeByte(s[0]), Escape(s[1..]));
      EndPastByte(c, p, s[0]);
      EndPastText(c, p + |EscapeByte(s[0])|, s[1..]);
    }
  }

  lemma {:induction false} DecodeText(c: seq<byte>, p: nat, s: seq<byte>, end: nat)
    requires NoNul(s) && Reads(c, p, Escape(s)) && p + |Escape(s)| == end < |c|
    ensures Decode(c, p, end) == Some(s)
    decreases |s|
  {
    hide EscapeByte, Reads, NextToken;
    if s != [] {
      var b := EscapeByte(s[0]);
      ReadsSplit(c, p, b, Escape(s[1..]));
      EscapedByte(c, p, s[0], end);
      DecodeText(c, p + |b|, s[1..], end);
      assert s == [s[0]] + s[1..];
    }
  }

  lemma {:induction false} AllVisible(ptrSize: nat, s: seq<byte>)
    requires ptrSize > 0 && Printable(ptrSize, s)
    ensures VisibleEscape(ptrSize, s) == Escape(s)
    decreases |s|
  {
    hide EscapeByte;
    if s != [] {
      AllVisible(ptrSize, s[1..]);
    }
  }

  /** Reading undoes printing, wherever the text of a string stands. */
  lemma StringRead(c: seq<byte>, off: nat, ptrSize: nat, s: seq<byte>)
    requires ptrSize > 0 && NoNul(s) && Printable(ptrSize, s) && Reads(c, off, StringText(ptrSize, s))
    ensures ParseString(c, off) == Done(s, off + |StringText(ptrSize, s)|)
  {
    hide FindEnd, Decode, Reads, Escape, StringText, Printable, CString;
    var e := Escape(s);
    StringShape(ptrSize, s);
    ReadsItem(c, off, StringText(ptrSize, s), 0);
    ReadsSplit(c, off, [QUOTE], e + [QUOTE]);
    ReadsSplit(c, off + 1, e, [QUOTE]);
    ReadsItem(c, off + 1 + |e|, [QUOTE], 0);
    EndPastText(c, off + 1, s);
    QuoteEnds(c, off + 1 + |e|);
    DecodeText(c, off + 1, s, off + 1 + |e|);
  }

  lemma StringShape(ptrSize: nat, s: seq<byte>)
    requires ptrSize > 0 && Printable(ptrSize, s)
    ensures StringText(ptrSize, s) == [QUOTE] + (Escape(s) + [QUOTE])
  {
    hide VisibleEscape, Escape;
    AllVisible(ptrSize, s);
  }

  lemma QuoteEnds(c: seq<byte>, k: nat)
    requires k < |c| && c[k] == QUOTE
    ensures FindEnd(c, k) == Some(k)
  {
  }

  /** The contents up to the first control byte that does not fit. */
  lemma {:induction false} NotVisible(ptrSize: nat, s: seq<byte>) returns (k: nat)
    requires ptrSize > 0 && !Printable(ptrSize, s)
    ensures k < |s| && Control(s[k])
    ensures VisibleEscape(ptrSize, s) == Escape(s[..k]) + FittingControl(ptrSize, s[k])
    decreases |s|
  {
    hide EscapeByte, FittingControl;
    if Control(s[0]) {
      k := 0;
      assert s[..0] == [];
    } else {
      assert !Printable(ptrSize, s[1..]) by {
        var i :| 0 <= i < |s| && Control(s[i]);
        assert s[1..][i - 1] == s[i];
      }
      var j := NotVisible(ptrSize, s[1..]);
      k := j + 1;
      assert s[..k][1..] == s[1..][..j];
      Assoc(EscapeByte(s[0]), Escape(s[1..][..j]), FittingControl(ptrSize, s[k]));
    }
  }

  /** A control byte's text, cut off, leaves the literal without an end. */
  lemma NoEnd(c: seq<byte>, p: nat, ptrSize: nat, b: byte)
    requires 0 < ptrSize < 6 && Control(b) && Reads(c, p, FittingControl(ptrSize, b))
    requires |c| == p + |FittingControl(ptrSize, b)| + 1 && c[|c| - 1] == 0
    ensures FindEnd(c, p).None?
  {
    var f := FittingControl(ptrSize, b);
    ReadsItem(c, p, f, 0);
    if ptrSize > 2 { ReadsItem(c, p, f, 2); }
    if ptrSize > 3 { ReadsItem(c, p, f, 3); }
    if ptrSize > 4 { ReadsItem(c, p, f, 4); }
    assert FindEnd(c, p) == FindEnd(c, p + 2);
    if ptrSize > 2 { assert FindEnd(c, p + 2) == FindEnd(c, p + 3); }
    if ptrSize > 3 { assert FindEnd(c, p + 3) == FindEnd(c, p + 4); }
    if ptrSize > 4 { assert FindEnd(c, p + 4) == FindEnd(c, p + 5); }
  }

  /** A string printed on its own is read back exactly if pointers are large enough for the
      text of a control byte, or there is none. */
  lemma StringRoundTripIff(ptrSize: nat, s: seq<byte>)
    requires ptrSize > 0 && NoNul(s)
    ensures var t := StringText(ptrSize, s);
      ParseString(t + [0], 0) == Done(s, |t|) <==> Printable(ptrSize, s)
  {
    hide FindEnd, Decode, VisibleEscape, FittingControl, Printable, Escape, CString;
    var t := StringText(ptrSize, s);
    var c := t + [0];
    assert c[0..|t|] == t;
    if Printable(ptrSize, s) {
      StringRead(c, 0, ptrSize, s);
    } else {
      var k := NotVisible(ptrSize, s);
      SmallPointer(ptrSize, s);
      var e, f := Escape(s[..k]), FittingControl(ptrSize, s[k]);
      assert t == [QUOTE] + (e + f);
      ReadsSplit(c, 0, [QUOTE], e + f);
      ReadsSplit(c, 1, e, f);
      EndPastText(c, 1, s[..k]);
      NoEnd(c, 1 + |e|, ptrSize, s[k]);
    }
  }

  lemma SmallPointer(ptrSize: nat, s: seq<byte>)
    requires !Printable(ptrSize, s)
    ensures ptrSize < 6
  {
  }
}
