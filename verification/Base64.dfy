/** Base64 in both directions (src/base64/base64.c; section 4 of RFC 4648). */
module Base64 {
  import opened Bytes

  const UPPER := "ABCDEFGHIJKLMNOPQRSTUVWXYZ"
  const LOWER := "abcdefghijklmnopqrstuvwxyz"
  const DIGITS := "0123456789"
  /** The encoder's table. */
  const ALPHABET := UPPER + LOWER + DIGITS + "+/"
  const PAD := '='

  /** A digit of base 64. */
  function Char(d: nat): (c: char)
    requires d < 64
    ensures c != PAD
  {
    if d < 26 then 'A' + d as char
    else if d < 52 then 'a' + (d - 26) as char
    else if d < 62 then '0' + (d - 52) as char
    else if d == 62 then '+' else '/'
  }

  /** The formula gives the characters of the encoder's table. */
  lemma CharFromTable(d: nat)
    requires d < 64
    ensures |ALPHABET| == 64 && Char(d) == ALPHABET[d]
  {
  }

  /** The digit a character stands for. */
  function Inverse(c: char): (d: Option<nat>)
    ensures d.Some? ==> d.value < 64
  {
    if 'A' <= c <= 'Z' then Some((c - 'A') as nat)
    else if 'a' <= c <= 'z' then Some((c - 'a') as nat + 26)
    else if '0' <= c <= '9' then Some((c - '0') as nat + 52)
    else if c == '+' then Some(62)
    else if c == '/' then Some(63)
    else None
  }

  lemma InverseOfChar(d: nat)
    requires d < 64
    ensures Inverse(Char(d)) == Some(d) && Char(d) != PAD
  {
  }

  const NO_DIGIT := -1
  const SIGNS := [62, NO_DIGIT, NO_DIGIT, NO_DIGIT, 63]
  const NUMERALS := [52, 53, 54, 55, 56, 57, 58, 59, 60, 61]
  const BETWEEN := [NO_DIGIT, NO_DIGIT, NO_DIGIT, NO_DIGIT, NO_DIGIT, NO_DIGIT]
  const CAPITALS := [0, 1, 2, 3, 4, 5, 6, 7, 8, 9, 10, 11, 12, 13, 14, 15, 16, 17, 18, 19, 20, 21, 22, 23, 24, 25]
  const SMALL := [26, 27, 28, 29, 30, 31, 32, 33, 34, 35, 36, 37, 38, 39, 40, 41, 42, 43, 44, 45, 46, 47, 48, 49, 50, 51]
  /** The decoder's table, from '+' to 'z'. */
  const DECODING := SIGNS + NUMERALS + [NO_DIGIT] + BETWEEN + CAPITALS + BETWEEN + SMALL

  lemma TableParts(k: nat)
    requires k < 80
    ensures |DECODING| == 80
    ensures DECODING[k] == if k < 5 then SIGNS[k] else if k < 15 then NUMERALS[k - 5] else if k < 22 then NO_DIGIT
                           else if k < 48 then CAPITALS[k - 22] else if k < 54 then NO_DIGIT else SMALL[k - 54]
  {
    if 15 <= k < 22 {
      assert DECODING[k] == ([NO_DIGIT] + BETWEEN)[k - 15];
    }
  }

  lemma Letters(k: nat)
    requires k < 26
    ensures CAPITALS[k] == k && SMALL[k] == k + 26
  {
  }

  /** The digits are those of the decoder's table. */
  lemma InverseFromTable(c: char)
    requires '+' <= c <= 'z'
    ensures |DECODING| == 80
    ensures Inverse(c) == var d := DECODING[(c - '+') as nat]; if d == NO_DIGIT then None else Some(d)
  {
    var k := (c - '+') as nat;
    TableParts(k);
    if 22 <= k < 48 {
      Letters(k - 22);
    } else if k >= 54 {
      Letters(k - 54);
    }
  }

  function Word(a: nat, b: nat, c: nat): nat {
    a * 65536 + b * 256 + c
  }

  /** The k-th of the four digits of a 24-bit word. */
  function DigitOf(v: nat, k: nat): (d: nat)
    requires k < 4
    ensures d < 64
  {
    if k == 0 then v / 262144 % 64 else if k == 1 then v / 4096 % 64 else if k == 2 then v / 64 % 64 else v % 64
  }

  /** One group of up to three bytes. */
  function Group(x: seq<byte>): (s: string)
    requires 1 <= |x|
    ensures |s| == 4
  {
    var v := Word(x[0], if |x| > 1 then x[1] else 0, if |x| > 2 then x[2] else 0);
    [Char(DigitOf(v, 0)), Char(DigitOf(v, 1)),
     if |x| > 1 then Char(DigitOf(v, 2)) else PAD,
     if |x| > 2 then Char(DigitOf(v, 3)) else PAD]
  }

  function Encode(x: seq<byte>): string {
    if x == [] then "" else if |x| <= 3 then Group(x) else Group(x[..3]) + Encode(x[3..])
  }

  /** Four times the number of groups. */
  function EncodedSize(n: nat): nat {
    (if n % 3 != 0 then n + 3 - n % 3 else n) / 3 * 4
  }

  /** The bytes four characters stand for, if the padding is in its place. */
  function Ungroup(s: string): Option<seq<byte>>
    requires |s| == 4
  {
    var a, b, c, d := Inverse(s[0]), Inverse(s[1]), Inverse(s[2]), Inverse(s[3]);
    if a.None? || b.None? then None
    else
      var v := a.value * 262144 + b.value * 4096;
      if s[2] == PAD && s[3] == PAD then Some([v / 65536 % 256])
      else if c.None? then None
      else
        var w := v + c.value * 64;
        if s[3] == PAD then Some([w / 65536 % 256, w / 256 % 256])
        else if d.None? then None
        else
          var u := w + d.value;
          Some([u / 65536 % 256, u / 256 % 256, u % 256])
  }

  lemma Digits24(v: nat)
    requires v < 0x100_0000
    ensures v == DigitOf(v, 0) * 262144 + DigitOf(v, 1) * 4096 + DigitOf(v, 2) * 64 + DigitOf(v, 3)
  {
    assert v / 64 == v / 4096 * 64 + v / 64 % 64;
    assert v / 4096 == v / 262144 * 64 + v / 4096 % 64;
  }

  lemma WordBytes(a: byte, b: byte, c: byte)
    ensures var v := Word(a, b, c);
      v < 0x100_0000 && v / 65536 % 256 == a && v / 256 % 256 == b && v % 256 == c
  {
    var h := a * 256 + b;
    assert Word(a, b, c) == h * 256 + c;
    Byte(h, c);
    Byte(a, b);
    assert h / 256 == Word(a, b, c) / 65536;
  }

  lemma Byte(q: nat, r: byte)
    ensures (q * 256 + r) / 256 == q && (q * 256 + r) % 256 == r
  {
  }

  /** Unused digits of a short group are 0. */
  lemma ShortWord(a: byte, b: byte)
    ensures DigitOf(Word(a, 0, 0), 2) == DigitOf(Word(a, 0, 0), 3) == 0
    ensures DigitOf(Word(a, b, 0), 3) == 0
  {
    assert Word(a, 0, 0) == 64 * (64 * (16 * a));
    assert Word(a, b, 0) == 64 * (1024 * a + 4 * b);
    Times64(64 * (16 * a));
    Times64(16 * a);
    Times64(1024 * a + 4 * b);
  }

  lemma Times64(k: nat)
    ensures 64 * k % 64 == 0 && 64 * k / 64 == k
  {
  }

  lemma UngroupGroup(x: seq<byte>)
    requires 1 <= |x| <= 3
    ensures Ungroup(Group(x)) == Some(x)
  {
    hide Char, Inverse, DigitOf, Word;
    assert x == if |x| == 1 then [x[0]] else if |x| == 2 then [x[0], x[1]] else [x[0], x[1], x[2]];
    var b, c := if |x| > 1 then x[1] else 0, if |x| > 2 then x[2] else 0;
    var v := Word(x[0], b, c);
    WordBytes(x[0], b, c);
    Digits24(v);
    ShortWord(x[0], b);
    InverseOfChar(DigitOf(v, 0));
    InverseOfChar(DigitOf(v, 1));
    InverseOfChar(DigitOf(v, 2));
    InverseOfChar(DigitOf(v, 3));
  }

  lemma EncodedSizeIs(n: nat)
    ensures EncodedSize(n) == (n + 2) / 3 * 4
  {
  }

  lemma {:induction false} EncodeLength(x: seq<byte>)
    ensures |Encode(x)| == EncodedSize(|x|)
    decreases |x|
  {
    hide Group;
    EncodedSizeIs(|x|);
    if |x| > 3 {
      EncodeLength(x[3..]);
      EncodedSizeIs(|x| - 3);
    }
  }

  /** Characters of the alphabet, padding included. */
  predicate ValidChar(c: char) {
    ('0' <= c <= '9') || ('A' <= c <= 'Z') || ('a' <= c <= 'z') || c == '+' || c == '/' || c == PAD
  }

  /** Padding characters at the end of a text. */
  function Padding(s: string): (n: nat)
    ensures n <= |s|
  {
    if s == "" || s[|s| - 1] != PAD then 0 else 1 + Padding(s[..|s| - 1])
  }

  const SIZE_LIMIT := 0x1_0000_0000

  /** The size of what a text decodes to, in 32 bits: it wraps around for a text with more
      padding than content. */
  function DecodedSize(s: string): nat {
    (|s| / 4 * 3 - Padding(s)) % SIZE_LIMIT
  }

  /** Bytes of a text whose groups all have their padding in its place. */
  function Decode(s: string): Option<seq<byte>> {
    if s == "" then Some([])
    else if |s| < 4 then None
    else
      var first, rest := Ungroup(s[..4]), Decode(s[4..]);
      if first.Some? && rest.Some? && (|s| == 4 || |first.value| == 3) then Some(first.value + rest.value) else None
  }

  lemma GroupFull(x: seq<byte>)
    requires 1 <= |x| <= 3
    ensures Padding(Group(x)) == 3 - |x|
  {
    var s := Group(x);
    assert s[..3][..2] == s[..2];
    if |x| == 1 {
      assert Padding(s) == 1 + Padding(s[..3]) && Padding(s[..3]) == 1 + Padding(s[..2]);
    } else if |x| == 2 {
      assert Padding(s) == 1 + Padding(s[..3]);
    }
  }

  lemma {:induction false} PaddingBehind(a: string, b: string)
    requires Padding(b) < |b|
    ensures Padding(a + b) == Padding(b)
    decreases |b|
  {
    if b[|b| - 1] == PAD {
      assert (a + b)[..|a + b| - 1] == a + b[..|b| - 1];
      PaddingBehind(a, b[..|b| - 1]);
    }
  }

  lemma DecodeStep(g: string, more: string, a: seq<byte>, b: seq<byte>)
    requires |g| == 4 && Ungroup(g) == Some(a) && Decode(more) == Some(b)
    requires |a| == 3 || more == ""
    ensures Decode(g + more) == Some(a + b)
  {
    hide Ungroup;
    assert (g + more)[..4] == g && (g + more)[4..] == more;
  }

  /** Decoding undoes encoding, for every array of bytes. */
  lemma {:induction false} DecodeEncode(x: seq<byte>)
    ensures |Encode(x)| % 4 == 0 && Decode(Encode(x)) == Some(x)
    decreases |x|
  {
    hide Group, Ungroup, Decode, EncodedSize;
    EncodeLength(x);
    EncodedSizeIs(|x|);
    DecodeNothing();
    if x == [] {
    } else if |x| <= 3 {
      UngroupGroup(x);
      DecodeStep(Group(x), "", x, []);
      assert Group(x) + "" == Group(x) && x + [] == x;
    } else {
      DecodeEncode(x[3..]);
      UngroupGroup(x[..3]);
      DecodeStep(Group(x[..3]), Encode(x[3..]), x[..3], x[3..]);
      assert x == x[..3] + x[3..];
    }
  }

  lemma DecodeNothing()
    ensures Decode("") == Some([])
  {
  }

  lemma {:induction false} PaddingOfEncode(x: seq<byte>)
    requires x != []
    ensures Padding(Encode(x)) == (3 - |x| % 3) % 3 && Padding(Encode(x)) < |Encode(x)|
    decreases |x|
  {
    hide Group, Padding;
    if |x| <= 3 {
      GroupFull(x);
    } else {
      PaddingOfEncode(x[3..]);
      PaddingBehind(Group(x[..3]), Encode(x[3..]));
    }
  }

  /** The size computed from an encoded text is the number of bytes it was made from. */
  lemma DecodedSizeOfEncode(x: seq<byte>)
    requires 0 < |x| < SIZE_LIMIT
    ensures DecodedSize(Encode(x)) == |x|
  {
    hide Encode, Padding, EncodedSize;
    PaddingOfEncode(x);
    EncodeLength(x);
    EncodedSizeIs(|x|);
    SizeBack(|x|);
  }

  lemma SizeBack(n: nat)
    ensures (n + 2) / 3 * 4 / 4 * 3 - (3 - n % 3) % 3 == n
  {
    var q, r := n / 3, n % 3;
    assert (n + 2) / 3 == if r == 0 then q else q + 1;
  }

  method B64EncodedSize(inlen: nat) returns (ret: nat)
    ensures ret == EncodedSize(inlen)
  {
    ret := inlen;
    if inlen % 3 != 0 {
      ret := ret + (3 - inlen % 3);
    }
    ret := ret / 3;
    ret := ret * 4;
  }

  function EncodeFrom(x: seq<byte>, i: nat): string {
    if i < |x| then Encode(x[i..]) else ""
  }

  lemma NextGroup(x: seq<byte>, i: nat)
    requires i < |x|
    ensures EncodeFrom(x, i) == Group(x[i..]) + EncodeFrom(x, i + 3)
  {
    hide DigitOf, Word, Char;
    var y := x[i..];
    if |y| <= 3 {
      assert Group(y) + "" == Group(y);
    } else {
      assert y[3..] == x[i + 3..];
      assert Group(y[..3]) == Group(y);
    }
  }

  /** The four characters of the bytes from `i` on. */
  method EncodeGroup(x: seq<byte>, i: nat, text: array<char>, j: nat)
    requires i < |x| && j + 4 <= text.Length
    modifies text
    ensures text[..j + 4] == old(text[..j]) + Group(x[i..]) && forall k :: j + 4 <= k < text.Length ==> text[k] == old(text[k])
  {
    hide DigitOf, Char;
    ghost var before := text[..j];
    var v: nat := x[i];
    v := if i + 1 < |x| then v * 256 + x[i + 1] else v * 256;
    v := if i + 2 < |x| then v * 256 + x[i + 2] else v * 256;
    text[j] := Char(DigitOf(v, 0));
    text[j + 1] := Char(DigitOf(v, 1));
    if i + 1 < |x| {
      text[j + 2] := Char(DigitOf(v, 2));
    } else {
      text[j + 2] := PAD;
    }
    if i + 2 < |x| {
      text[j + 3] := Char(DigitOf(v, 3));
    } else {
      text[j + 3] := PAD;
    }
    assert v == Word(x[i], if i + 1 < |x| then x[i + 1] else 0, if i + 2 < |x| then x[i + 2] else 0);
    assert Group(x[i..]) == [text[j], text[j + 1], text[j + 2], text[j + 3]];
    assert text[..j] == before;
    assert text[..j + 4] == before + [text[j], text[j + 1], text[j + 2], text[j + 3]];
  }

  /** Encodes; there is no result for no bytes. A NUL ends the text. */
  method B64Encode(x: seq<byte>) returns (out: array?<char>)
    ensures out == null <==> x == []
    ensures out != null ==> fresh(out) && out[..] == Encode(x) + ['\0']
  {
    hide Group, EncodedSize;
    if |x| == 0 {
      return null;
    }
    var elen := B64EncodedSize(|x|);
    EncodeLength(x);
    var text := new char[elen + 1];
    text[elen] := '\0';
    var i: nat, j: nat := 0, 0;
    assert x[0..] == x;
    while i < |x|
      invariant j <= elen && text[elen] == '\0'
      invariant text[..j] + EncodeFrom(x, i) == Encode(x)
      decreases |x| - i
    {
      NextGroup(x, i);
      ghost var sofar := text[..j];
      EncodeGroup(x, i, text, j);
      Assoc(sofar, Group(x[i..]), EncodeFrom(x, i + 3));
      i, j := i + 3, j + 4;
    }
    assert text[..j] + "" == text[..j];
    assert text[..] == text[..elen] + [text[elen]];
    out := text;
  }

  /** What a group says about its padding. */
  lemma UngroupSize(s: string)
    requires |s| == 4 && Ungroup(s).Some?
    ensures |Ungroup(s).value| == 3 - Padding(s) && Padding(s) < 3
  {
    assert s[..3][..2] == s[..2];
    assert Padding(s) == if s[3] != PAD then 0 else 1 + Padding(s[..3]);
    assert Padding(s[..3]) == if s[2] != PAD then 0 else 1 + Padding(s[..2]);
  }

  lemma {:induction false} DecodeSize(s: string)
    requires Decode(s).Some?
    ensures |s| % 4 == 0 && |Decode(s).value| == |s| / 4 * 3 - Padding(s) && (s != "" ==> Padding(s) < |s|)
    decreases |s|
  {
    hide Ungroup, Padding;
    if s != "" {
      var g, more := s[..4], s[4..];
      UngroupSize(g);
      DecodeSize(more);
      assert s == g + more;
      if more != "" {
        PaddingBehind(g, more);
      } else {
        assert g == s;
        PaddingNone();
      }
    }
  }

  lemma PaddingNone()
    ensures Padding("") == 0
  {
  }

  datatype Outcome = Ok | Refused | Undefined

  predicate AllValid(s: string) {
    forall i :: 0 <= i < |s| ==> ValidChar(s[i])
  }

  /** Encodings consist of digits and padding, so the decoder accepts them as a whole. */
  lemma {:induction false} EncodeValid(x: seq<byte>)
    ensures AllValid(Encode(x))
    decreases |x|
  {
    hide DigitOf;
    if |x| > 3 {
      EncodeValid(x[3..]);
    }
  }

  method B64DecodedSize(s: string) returns (ret: nat)
    requires |s| < SIZE_LIMIT
    ensures ret == DecodedSize(s)
  {
    ret := |s| / 4 * 3;
    var i: nat := |s|;
    assert s[..|s|] == s;
    while i > 0 && s[i - 1] == PAD
      invariant i <= |s| && ret == (|s| / 4 * 3 - (|s| - i)) % SIZE_LIMIT && Padding(s) == |s| - i + Padding(s[..i])
    {
      assert s[..i][..i - 1] == s[..i - 1];
      OneLess(|s| / 4 * 3 - (|s| - i));
      ret := (ret - 1) % SIZE_LIMIT;
      i := i - 1;
    }
  }

  lemma OneLess(x: int)
    ensures (x % SIZE_LIMIT - 1) % SIZE_LIMIT == (x - 1) % SIZE_LIMIT
  {
    var q, r := x / SIZE_LIMIT, x % SIZE_LIMIT;
    assert x - 1 == q * SIZE_LIMIT + (r - 1);
    AnyMultiple(q, r - 1);
  }

  lemma AnyMultiple(q: int, r: int)
    ensures (q * SIZE_LIMIT + r) % SIZE_LIMIT == r % SIZE_LIMIT
  {
  }

  /** Decodes into the room given. Padding where none belongs leads to a shift of a negative
      number or to a write outside the room, which the source does not define. */
  method B64Decode(s: string, out: array<byte>) returns (r: Outcome)
    requires |s| < SIZE_LIMIT
    modifies out
    ensures r.Refused? <==> out.Length < DecodedSize(s) || |s| % 4 != 0 || !AllValid(s)
    ensures !r.Refused? && Decode(s).Some? ==> r.Ok? && |Decode(s).value| <= out.Length
    ensures !r.Refused? && Decode(s).Some? ==> out[..|Decode(s).value|] == Decode(s).value
  {
    hide Decode, Ungroup, DecodedSize, Padding;
    var size := B64DecodedSize(s);
    if out.Length < size || |s| % 4 != 0 {
      return Refused;
    }
    for i := 0 to |s|
      invariant forall k :: 0 <= k < i ==> ValidChar(s[k])
    {
      if !ValidChar(s[i]) {
        return Refused;
      }
    }
    ghost var all := Decode(s);
    RoomEnough(s, out.Length);
    assert s[0..] == s;
    var i: nat, j: nat := 0, 0;
    while i < |s|
      invariant i <= |s| && i % 4 == 0
      invariant all.Some? ==> |all.value| <= out.Length
      invariant all.Some? ==> j <= |all.value| || i == |s|
      invariant all.Some? && i < |s| ==>
        Decode(s[i..]).Some? && j + |Decode(s[i..]).value| == |all.value| && out[..j] + Decode(s[i..]).value == all.value
      invariant all.Some? && i == |s| ==> out[..|all.value|] == all.value
      decreases |s| - i
    {
      if all.Some? {
        DecodeNext(s, i);
      }
      var ok := DecodeGroup(s, i, out, j);
      if !ok {
        return Undefined;
      }
      i, j := i + 4, j + 3;
    }
    r := Ok;
  }

  lemma RoomEnough(s: string, room: nat)
    requires |s| < SIZE_LIMIT && room >= DecodedSize(s)
    ensures Decode(s).Some? ==> |Decode(s).value| <= room
    ensures s == "" ==> Decode(s) == Some([])
  {
    hide Padding, Decode;
    DecodeNothing();
    if Decode(s).Some? {
      DecodeSize(s);
      assert |Decode(s).value| < SIZE_LIMIT;
    }
  }

  lemma DecodeNext(s: string, i: nat)
    requires i < |s| && Decode(s[i..]).Some?
    ensures i + 4 <= |s| && Ungroup(s[i..i + 4]).Some? && Decode(s[i + 4..]).Some?
    ensures Decode(s[i..]).value == Ungroup(s[i..i + 4]).value + Decode(s[i + 4..]).value
    ensures i + 4 < |s| ==> |Ungroup(s[i..i + 4]).value| == 3
    ensures i + 4 == |s| ==> Decode(s[i + 4..]).value == []
  {
    hide Ungroup;
    assert s[i..][..4] == s[i..i + 4] && s[i..][4..] == s[i + 4..];
  }

  /** Decodes one group, unless padding stands among its first two characters or a byte would
      fall outside the room. */
  method DecodeGroup(s: string, i: nat, out: array<byte>, j: nat) returns (ok: bool)
    requires i + 4 <= |s|
    modifies out
    ensures j <= out.Length ==> out[..j] == old(out[..j])
    ensures Ungroup(s[i..i + 4]).Some? && j + |Ungroup(s[i..i + 4]).value| <= out.Length ==>
      var g := Ungroup(s[i..i + 4]).value; ok && out[..j + |g|] == old(out[..j]) + g
  {
    hide Inverse, Ungroup, Stored;
    PadIsNoDigit();
    UngroupWord(s[i..i + 4]);
    ghost var g := s[i..i + 4];
    assert g[0] == s[i] && g[1] == s[i + 1] && g[2] == s[i + 2] && g[3] == s[i + 3];
    var a, b, c, d := Inverse(s[i]), Inverse(s[i + 1]), Inverse(s[i + 2]), Inverse(s[i + 3]);
    if a.None? || b.None? || (s[i + 2] != PAD && c.None?) || (s[i + 3] != PAD && d.None?) {
      return false;
    }
    var v: nat := a.value * 64 + b.value;
    v := if s[i + 2] == PAD then v * 64 else v * 64 + c.value;
    v := if s[i + 3] == PAD then v * 64 else v * 64 + d.value;
    ok := StoreBytes(v, s[i + 2] != PAD, s[i + 3] != PAD, out, j);
  }

  /** A digit, 0 for padding. */
  function Padded(c: char): nat {
    if c == PAD || Inverse(c).None? then 0 else Inverse(c).value
  }

  function Stored(v: nat, second: bool, third: bool): seq<byte> {
    [v / 65536 % 256] + (if second then [v / 256 % 256] else []) + if third then [v % 256] else []
  }

  function WordOf(s: string): nat
    requires |s| == 4
  {
    ((Padded(s[0]) * 64 + Padded(s[1])) * 64 + Padded(s[2])) * 64 + Padded(s[3])
  }

  lemma UngroupWord(s: string)
    requires |s| == 4
    ensures Ungroup(s).Some? ==>
      && Inverse(s[0]).Some? && Inverse(s[1]).Some? && (s[2] == PAD ==> s[3] == PAD)
      && (s[2] != PAD ==> Inverse(s[2]).Some?) && (s[3] != PAD ==> Inverse(s[3]).Some?)
      && Ungroup(s).value == Stored(WordOf(s), s[2] != PAD, s[3] != PAD)
  {
    hide Inverse;
    PadIsNoDigit();
  }

  lemma PadIsNoDigit()
    ensures Inverse(PAD) == None
  {
  }

  /** Writes the bytes that are not padding, if there is room for them. */
  method StoreBytes(v: nat, second: bool, third: bool, out: array<byte>, j: nat) returns (ok: bool)
    modifies out
    ensures j <= out.Length ==> out[..j] == old(out[..j])
    ensures (third ==> second) && j + |Stored(v, second, third)| <= out.Length ==>
      ok && out[..j + |Stored(v, second, third)|] == old(out[..j]) + Stored(v, second, third)
  {
    if j + (if third then 3 else if second then 2 else 1) > out.Length {
      return false;
    }
    ghost var before := out[..j];
    out[j] := v / 65536 % 256;
    if second {
      out[j + 1] := v / 256 % 256;
    }
    if third {
      out[j + 2] := v % 256;
    }
    assert out[..j] == before;
    ok := true;
  }

  /** Encoding and decoding give back every array of bytes, into any room that holds it. */
  method RoundTrip(x: seq<byte>, out: array<byte>) returns (r: Outcome)
    requires x != [] && EncodedSize(|x|) < SIZE_LIMIT && |x| <= out.Length
    modifies out
    ensures r == Ok && out[..|x|] == x
  {
    hide Encode, Decode, EncodedSize, DecodedSize, AllValid;
    var text := B64Encode(x);
    var s := text[..text.Length - 1];
    assert s == Encode(x);
    EncodeLength(x);
    EncodeValid(x);
    DecodeEncode(x);
    SizeLimit(x);
    DecodedSizeOfEncode(x);
    r := B64Decode(s, out);
  }

  lemma SizeLimit(x: seq<byte>)
    ensures |x| <= EncodedSize(|x|)
  {
    EncodedSizeIs(|x|);
  }
}
