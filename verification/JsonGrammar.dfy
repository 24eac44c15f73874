/** Texts of the JSON grammar (sections 2 to 7 of RFC 8259), told apart from the parser, and
    what the parser makes of every one of them. */
module JsonGrammar {
  import opened Bytes
  import opened JsonText
  import opened JsonUnicode
  import opened JsonStrings
  import opened JsonParser

  /** Section 7: a hexadecimal digit in either case, and four of them. */
  datatype Hex = Hex(d: nat, upper: bool)

  datatype Quad = Quad(a: Hex, b: Hex, c: Hex, d: Hex)

  /** Section 7: what a string is made of, byte for byte of its UTF-8 where nothing is escaped. */
  datatype Char =
    | Plain(b: byte)
    | Short(letter: byte)
    | One(q: Quad)
    | Two(high: Quad, low: Quad)

  /** Sections 3 to 7: a value as it is derived, with the blanks around what is inside it. */
  datatype Doc =
    | NullDoc
    | FalseDoc
    | TrueDoc
    | NumberDoc(minus: bool, digits: seq<nat>)
    | StringDoc(chars: seq<Char>)
    | ArrayDoc(inside: seq<byte>, items: Items)
    | ObjectDoc(inside: seq<byte>, entries: Entries)

  datatype Items = NoItems | OneItem(before: seq<byte>, doc: Doc, after: seq<byte>, rest: Items)

  datatype Entries =
    | NoEntries
    | Entry(before: seq<byte>, name: seq<Char>, afterName: seq<byte>, beforeDoc: seq<byte>, doc: Doc, after: seq<byte>,
            rest: Entries)

  function HexByte(h: Hex): byte
    requires h.d < 16
  {
    if h.d < 10 then 48 + h.d else if h.upper then 55 + h.d else 87 + h.d
  }

  predicate QuadOk(q: Quad) {
    q.a.d < 16 && q.b.d < 16 && q.c.d < 16 && q.d.d < 16
  }

  function QuadValue(q: Quad): nat {
    q.a.d * 4096 + q.b.d * 256 + q.c.d * 16 + q.d.d
  }

  function SpellQuad(q: Quad): (s: seq<byte>)
    requires QuadOk(q)
    ensures |s| == 6
  {
    [92, 117, HexByte(q.a), HexByte(q.b), HexByte(q.c), HexByte(q.d)]
  }

  /** The letters after a backslash, and what they stand for: quotation mark, backslash, solidus,
      backspace, form feed, line feed, carriage return and tab. */
  function Meant(letter: byte): Option<byte> {
    match letter
    case 0x22 => Some(0x22)
    case 0x5C => Some(0x5C)
    case 0x2F => Some(0x2F)
    case 0x62 => Some(0x08)
    case 0x66 => Some(0x0C)
    case 0x6E => Some(0x0A)
    case 0x72 => Some(0x0D)
    case 0x74 => Some(0x09)
    case _ => None
  }

  /** Code points of two units, a surrogate pair, and of one that is no surrogate. */
  predicate CharOk(ch: Char) {
    match ch
    case Plain(b) => b >= 0x20 && b != 0x22 && b != 0x5C
    case Short(letter) => Meant(letter).Some?
    case One(q) => QuadOk(q) && !(0xD800 <= QuadValue(q) <= 0xDFFF)
    case Two(high, low) =>
      && QuadOk(high) && 0xD800 <= QuadValue(high) <= 0xDBFF
      && QuadOk(low) && 0xDC00 <= QuadValue(low) <= 0xDFFF
  }

  function SpellChar(ch: Char): (s: seq<byte>)
    requires CharOk(ch)
    ensures |s| >= 1
  {
    match ch
    case Plain(b) => [b]
    case Short(letter) => [92, letter]
    case One(q) => SpellQuad(q)
    case Two(high, low) => SpellQuad(high) + SpellQuad(low)
  }

  /** The bytes that a character stands for. */
  function CharBytes(ch: Char): seq<byte>
    requires CharOk(ch)
  {
    match ch
    case Plain(b) => [b]
    case Short(letter) => [Meant(letter).value]
    case One(q) => Utf8(QuadValue(q))
    case Two(high, low) => Utf8(0x10000 + (QuadValue(high) - 0xD800) * 0x400 + (QuadValue(low) - 0xDC00))
  }

  predicate CharsOk(chars: seq<Char>) {
    forall i :: 0 <= i < |chars| ==> CharOk(chars[i])
  }

  function SpellChars(chars: seq<Char>): seq<byte>
    requires CharsOk(chars)
  {
    if chars == [] then [] else SpellChar(chars[0]) + SpellChars(chars[1..])
  }

  function CharsBytes(chars: seq<Char>): seq<byte>
    requires CharsOk(chars)
  {
    if chars == [] then [] else CharBytes(chars[0]) + CharsBytes(chars[1..])
  }

  function SpellString(chars: seq<Char>): (s: seq<byte>)
    requires CharsOk(chars)
  {
    [0x22] + (SpellChars(chars) + [0x22])
  }

  function DigitBytes(ds: seq<nat>): (s: seq<byte>)
    requires forall i :: 0 <= i < |ds| ==> ds[i] < 10
    ensures |s| == |ds|
  {
    seq(|ds|, i requires 0 <= i < |ds| => 48 + ds[i])
  }

  /** What decimal digits are worth. */
  function Worth(ds: seq<nat>): nat {
    if ds == [] then 0 else 10 * Worth(ds[..|ds| - 1]) + ds[|ds| - 1]
  }

  function Signed(minus: bool, n: int): int {
    if minus then -n else n
  }

  /** Section 6, for integers of 32 bits: no leading zeros. */
  predicate NumberOk(minus: bool, ds: seq<nat>) {
    && ds != [] && (forall i :: 0 <= i < |ds| ==> ds[i] < 10) && (ds[0] == 0 ==> |ds| == 1)
    && Worth(ds) <= if minus then 0x8000_0000 else 0x7FFF_FFFF
  }

  function SpellNumber(minus: bool, ds: seq<nat>): seq<byte>
    requires NumberOk(minus, ds)
  {
    (if minus then [45] else []) + DigitBytes(ds)
  }

  /** Section 2: space, tab, line feed and carriage return. */
  predicate Ws(s: seq<byte>) {
    forall i :: 0 <= i < |s| ==> s[i] in {0x20, 0x09, 0x0A, 0x0D}
  }

  /** What is derived keeps the rules of the grammar. */
  predicate DocOk(d: Doc) {
    match d
    case NumberDoc(minus, ds) => NumberOk(minus, ds)
    case StringDoc(chars) => CharsOk(chars)
    case ArrayDoc(inside, items) => Ws(inside) && ItemsOk(items)
    case ObjectDoc(inside, entries) => Ws(inside) && EntriesOk(entries)
    case _ => true
  }

  predicate ItemsOk(items: Items) {
    items.OneItem? ==> Ws(items.before) && DocOk(items.doc) && Ws(items.after) && ItemsOk(items.rest)
  }

  predicate EntriesOk(entries: Entries) {
    entries.Entry? ==>
      && Ws(entries.before) && CharsOk(entries.name) && Ws(entries.afterName) && Ws(entries.beforeDoc)
      && DocOk(entries.doc) && Ws(entries.after) && EntriesOk(entries.rest)
  }

  /** The text that is derived. */
  function Spell(d: Doc): seq<byte>
    requires DocOk(d)
    decreases d, 0
  {
    match d
    case NullDoc => [0x6E, 0x75, 0x6C, 0x6C]
    case FalseDoc => [0x66, 0x61, 0x6C, 0x73, 0x65]
    case TrueDoc => [0x74, 0x72, 0x75, 0x65]
    case NumberDoc(minus, ds) => SpellNumber(minus, ds)
    case StringDoc(chars) => SpellString(chars)
    case ArrayDoc(inside, items) => [0x5B] + ((if items.NoItems? then inside else SpellItems(items)) + [0x5D])
    case ObjectDoc(inside, entries) => [0x7B] + ((if entries.NoEntries? then inside else SpellEntries(entries)) + [0x7D])
  }

  function SpellItems(items: Items): seq<byte>
    requires ItemsOk(items) && items.OneItem?
    decreases items, 0
  {
    items.before + (Spell(items.doc) + (items.after + (if items.rest.NoItems? then [] else [0x2C] + SpellItems(items.rest))))
  }

  function SpellEntries(entries: Entries): seq<byte>
    requires EntriesOk(entries) && entries.Entry?
    decreases entries, 1
  {
    entries.before + (SpellString(entries.name) + (entries.afterName + ([0x3A] + (entries.beforeDoc + SpellRest(entries)))))
  }

  /** An entry behind its name and colon, and the entries that follow. */
  function SpellRest(entries: Entries): seq<byte>
    requires EntriesOk(entries) && entries.Entry?
    decreases entries, 0
  {
    Spell(entries.doc)
    + (entries.after + (if entries.rest.NoEntries? then [] else [0x2C] + SpellEntries(entries.rest)))
  }

  /** The value that it stands for. */
  function Meaning(d: Doc): Json
    requires DocOk(d)
  {
    match d
    case NullDoc => Null
    case FalseDoc => False
    case TrueDoc => True
    case NumberDoc(minus, ds) => Number(Signed(minus, Worth(ds)))
    case StringDoc(chars) => Str(CharsBytes(chars))
    case ArrayDoc(_, items) => Array(ItemsMeaning(items))
    case ObjectDoc(_, entries) => Object(EntriesMeaning(entries))
  }

  function ItemsMeaning(items: Items): Elements
    requires ItemsOk(items)
  {
    if items.NoItems? then NoItem else Item(Meaning(items.doc), ItemsMeaning(items.rest))
  }

  function EntriesMeaning(entries: Entries): Members
    requires EntriesOk(entries)
  {
    if entries.NoEntries? then NoMember
    else Member(CharsBytes(entries.name), Meaning(entries.doc), EntriesMeaning(entries.rest))
  }

  /** What C strings keep of a value: names and strings up to the first NUL. */
  function Cut(v: Json): Json {
    match v
    case Str(s) => Str(CString(s))
    case Array(items) => Array(CutElements(items))
    case Object(members) => Object(CutMembers(members))
    case _ => v
  }

  function CutElements(items: Elements): Elements {
    if items.NoItem? then NoItem else Item(Cut(items.value), CutElements(items.rest))
  }

  function CutMembers(members: Members): Members {
    if members.NoMember? then NoMember
    else Member(CString(members.name), Cut(members.value), CutMembers(members.rest))
  }

  lemma QuadHex(q: Quad)
    requires QuadOk(q)
    ensures EscapesUnit(SpellQuad(q), QuadValue(q))
  {
    var lit := SpellQuad(q);
    var a, b, c, d := HexByte(q.a), HexByte(q.b), HexByte(q.c), HexByte(q.d);
    HexDigits(q.a);
    HexDigits(q.b);
    HexDigits(q.c);
    HexDigits(q.d);
    FourHex(a, b, c, d);
    assert lit[2..] == [a, b, c, d];
  }

  lemma FourHex(a: byte, b: byte, c: byte, d: byte)
    requires HexDigit(a).Some? && HexDigit(b).Some? && HexDigit(c).Some? && HexDigit(d).Some?
    ensures HexValue([a, b, c, d])
         == Some(HexDigit(a).value * 4096 + HexDigit(b).value * 256 + HexDigit(c).value * 16 + HexDigit(d).value)
  {
    hide HexValue, HexDigit;
    HexSnoc([], a);
    HexSnoc([a], b);
    HexSnoc([a, b], c);
    HexSnoc([a, b, c], d);
    assert [] + [a] == [a] && [a] + [b] == [a, b] && [a, b] + [c] == [a, b, c] && [a, b, c] + [d] == [a, b, c, d];
  }

  lemma HexDigits(h: Hex)
    requires h.d < 16
    ensures HexDigit(HexByte(h)) == Some(h.d) && HexByte(h) != QUOTE && HexByte(h) != BACKSLASH
  {
  }

  lemma HexSnoc(h: seq<byte>, b: byte)
    requires HexDigit(b).Some?
    ensures HexValue([]) == Some(0)
    ensures HexValue(h).Some? ==> HexValue(h + [b]) == Some(HexValue(h).value * 16 + HexDigit(b).value)
  {
    assert (h + [b])[..|h|] == h;
  }

  /** The two tables of short escapes are the same. */
  lemma ShortMeant(letter: byte)
    ensures ShortUnescape(letter) == Meant(letter)
  {
  }

  /** A character is read as what it stands for. */
  lemma CharRead(c: seq<byte>, p: nat, ch: Char, end: nat)
    requires CharOk(ch) && Reads(c, p, SpellChar(ch)) && p + |SpellChar(ch)| <= end < |c|
    ensures NextToken(c, p, end) == Token(CharBytes(ch), |SpellChar(ch)|)
  {
    hide Utf8, LiteralAt, HexByte, ShortUnescape;
    var t := SpellChar(ch);
    ReadsItem(c, p, t, 0);
    if !ch.Plain? {
      ReadsItem(c, p, t, 1);
      ShortMeant(t[1]);
    }
    match ch
    case Plain(_) =>
    case Short(_) =>
    case One(q) => OneRead(c, p, q, end);
    case Two(high, low) => TwoRead(c, p, high, low, end);
  }

  lemma OneRead(c: seq<byte>, p: nat, q: Quad, end: nat)
    requires CharOk(One(q)) && Reads(c, p, SpellQuad(q)) && p + 6 <= end < |c|
    ensures LiteralAt(c, p, end) == Literal(QuadValue(q), 6)
  {
    hide SpellQuad, QuadValue, EscapesUnit, LiteralAt;
    QuadHex(q);
    QuadBound(q);
    EscapesOne(SpellQuad(q), QuadValue(q));
    EscapedScalar(c, p, end, SpellQuad(q), QuadValue(q));
  }

  lemma QuadBound(q: Quad)
    requires QuadOk(q)
    ensures QuadValue(q) < 0x10000
  {
  }

  lemma EscapesOne(lit: seq<byte>, u: nat)
    requires ScalarValue(u) && u < 0x10000 && EscapesUnit(lit, u)
    ensures EscapesScalar(lit, u)
  {
  }

  lemma TwoRead(c: seq<byte>, p: nat, high: Quad, low: Quad, end: nat)
    requires CharOk(Two(high, low)) && Reads(c, p, SpellQuad(high) + SpellQuad(low)) && p + 12 <= end < |c|
    ensures LiteralAt(c, p, end)
         == Literal(0x10000 + (QuadValue(high) - 0xD800) * 0x400 + (QuadValue(low) - 0xDC00), 12)
  {
    hide SpellQuad, QuadValue, EscapesUnit, LiteralAt;
    QuadHex(high);
    QuadHex(low);
    var lit, cp := SpellQuad(high) + SpellQuad(low),
                   0x10000 + (QuadValue(high) - 0xD800) * 0x400 + (QuadValue(low) - 0xDC00);
    PairUnits(QuadValue(high), QuadValue(low));
    assert lit[..6] == SpellQuad(high) && lit[6..] == SpellQuad(low);
    EscapedScalar(c, p, end, lit, cp);
  }

  lemma PairUnits(high: nat, low: nat)
    requires 0xD800 <= high <= 0xDBFF && 0xDC00 <= low <= 0xDFFF
    ensures var cp := 0x10000 + (high - 0xD800) * 0x400 + (low - 0xDC00);
      0x10000 <= cp <= 0x10FFFF && Units(cp) == [high, low]
  {
  }

  /** The search for the end of a literal steps over a character. */
  lemma EndPastChar(c: seq<byte>, p: nat, ch: Char)
    requires CharOk(ch) && Reads(c, p, SpellChar(ch))
    ensures FindEnd(c, p) == FindEnd(c, p + |SpellChar(ch)|)
  {
    var t := SpellChar(ch);
    match ch
    case Plain(_) => ReadsItem(c, p, t, 0);
    case Short(_) => ReadsItem(c, p, t, 0);
    case One(q) => EndPastQuad(c, p, q);
    case Two(high, low) =>
      ReadsSplit(c, p, SpellQuad(high), SpellQuad(low));
      EndPastQuad(c, p, high);
      EndPastQuad(c, p + 6, low);
  }

  lemma EndPastQuad(c: seq<byte>, p: nat, q: Quad)
    requires QuadOk(q) && Reads(c, p, SpellQuad(q))
    ensures FindEnd(c, p) == FindEnd(c, p + 6)
  {
    hide HexByte;
    var t := SpellQuad(q);
    HexDigits(q.a);
    HexDigits(q.b);
    HexDigits(q.c);
    HexDigits(q.d);
    ReadsItem(c, p, t, 0);
    ReadsItem(c, p, t, 2);
    ReadsItem(c, p, t, 3);
    ReadsItem(c, p, t, 4);
    ReadsItem(c, p, t, 5);
    assert FindEnd(c, p) == FindEnd(c, p + 2);
    assert FindEnd(c, p + 2) == FindEnd(c, p + 3) == FindEnd(c, p + 4);
    assert FindEnd(c, p + 4) == FindEnd(c, p + 5) == FindEnd(c, p + 6);
  }

  lemma {:induction false} EndPastChars(c: seq<byte>, p: nat, chars: seq<Char>)
    requires CharsOk(chars) && Reads(c, p, SpellChars(chars))
    ensures FindEnd(c, p) == FindEnd(c, p + |SpellChars(chars)|)
    decreases |chars|
  {
    hide FindEnd, SpellChar, Reads, CharOk;
    if chars != [] {
      ReadsSplit(c, p, SpellChar(chars[0]), SpellChars(chars[1..]));
      EndPastChar(c, p, chars[0]);
      EndPastChars(c, p + |SpellChar(chars[0])|, chars[1..]);
    }
  }

  lemma {:induction false} CharsRead(c: seq<byte>, p: nat, chars: seq<Char>, end: nat)
    requires CharsOk(chars) && Reads(c, p, SpellChars(chars)) && p + |SpellChars(chars)| == end < |c|
    ensures Decode(c, p, end) == Some(CharsBytes(chars))
    decreases |chars|
  {
    hide SpellChar, CharBytes, Reads, NextToken, CharOk;
    if chars != [] {
      var b := SpellChar(chars[0]);
      ReadsSplit(c, p, b, SpellChars(chars[1..]));
      CharRead(c, p, chars[0], end);
      CharsRead(c, p + |b|, chars[1..], end);
    }
  }

  /** A string of the grammar is read as what it stands for, up to the first NUL. */
  lemma StringDerived(c: seq<byte>, off: nat, chars: seq<Char>)
    requires CharsOk(chars) && Reads(c, off, SpellString(chars))
    ensures ParseString(c, off) == Done(CString(CharsBytes(chars)), off + |SpellString(chars)|)
  {
    hide FindEnd, Decode, Reads, SpellChars, CharsBytes, CString, CharsOk;
    var e := SpellChars(chars);
    ReadsItem(c, off, SpellString(chars), 0);
    ReadsSplit(c, off, [QUOTE], e + [QUOTE]);
    ReadsSplit(c, off + 1, e, [QUOTE]);
    ReadsItem(c, off + 1 + |e|, [QUOTE], 0);
    EndPastChars(c, off + 1, chars);
    QuoteEnds(c, off + 1 + |e|);
    CharsRead(c, off + 1, chars, off + 1 + |e|);
  }

  function Pow10(k: nat): nat {
    if k == 0 then 1 else 10 * Pow10(k - 1)
  }

  /** Nothing that would go on a number follows. */
  predicate Stops(c: seq<byte>, k: nat) {
    k >= |c| || !NumberChar(c[k])
  }

  lemma {:induction false} RunOver(c: seq<byte>, off: nat, s: seq<byte>, left: nat)
    requires Reads(c, off, s) && (forall i :: 0 <= i < |s| ==> NumberChar(s[i])) && |s| <= left
    requires Stops(c, off + |s|)
    ensures off + |s| <= |c| && RunEnd(c, off, left) == off + |s|
    decreases |s|
  {
    if s != [] {
      ReadsItem(c, off, s, 0);
      assert s == [s[0]] + s[1..];
      ReadsSplit(c, off, [s[0]], s[1..]);
      RunOver(c, off + 1, s[1..], left - 1);
    }
  }

  /** Bytes from `a` to `b` are blank. */
  predicate Blank(c: seq<byte>, a: nat, b: nat) {
    a <= b <= |c| && forall j :: a <= j < b ==> c[j] <= 32
  }

  lemma {:induction false} SkipOver(c: seq<byte>, a: nat, b: nat)
    requires Blank(c, a, b) && b < |c| && c[b] > 32
    ensures SkipWs(c, a) == b && SkipBlank(c, a) == b
    decreases b - a
  {
    if a < b {
      SkipOver(c, a + 1, b);
    }
  }

  lemma BlankRead(c: seq<byte>, a: nat, s: seq<byte>)
    requires Reads(c, a, s) && forall i :: 0 <= i < |s| ==> s[i] <= 32
    ensures Blank(c, a, a + |s|)
  {
    forall j | a <= j < a + |s| ensures c[j] <= 32 {
      ReadsItem(c, a, s, j - a);
    }
  }

  lemma NoBlank(c: seq<byte>, k: nat)
    requires k <= |c|
    ensures Blank(c, k, k)
  {
  }

  /** What the first byte rules out. */
  lemma NotLiteral(c: seq<byte>, off: nat)
    requires off < |c| && c[off] !in {110, 102, 116}
    ensures !Literally(c, off, NULL_TEXT) && !Literally(c, off, FALSE_TEXT) && !Literally(c, off, TRUE_TEXT)
  {
    if Literally(c, off, NULL_TEXT) { ReadsItem(c, off, NULL_TEXT, 0); }
    if Literally(c, off, FALSE_TEXT) { ReadsItem(c, off, FALSE_TEXT, 0); }
    if Literally(c, off, TRUE_TEXT) { ReadsItem(c, off, TRUE_TEXT, 0); }
  }

  lemma LiteralRead(c: seq<byte>, off: nat, v: Json, depth: nat, t: seq<byte>)
    requires (v.Null? && t == NULL_TEXT) || (v.False? && t == FALSE_TEXT) || (v.True? && t == TRUE_TEXT)
    requires Reads(c, off, t)
    ensures ParseValue(c, off, depth) == Done(v, off + |t|)
  {
    ReadsItem(c, off, t, 0);
    if !v.Null? && Literally(c, off, NULL_TEXT) { ReadsItem(c, off, NULL_TEXT, 0); }
    if !v.False? && Literally(c, off, FALSE_TEXT) { ReadsItem(c, off, FALSE_TEXT, 0); }
  }

  /** The outcome where nesting allows it, and failure where it is too deep. */
  function Within<T>(height: nat, r: Parse<T>): Parse<T> {
    if height <= NESTING_LIMIT then r else Failed
  }

  /** Digits are read as what they are worth. */
  lemma {:induction false} DigitsRead(ds: seq<nat>)
    requires forall i :: 0 <= i < |ds| ==> ds[i] < 10
    ensures AllDigits(DigitBytes(ds)) && DecimalValue(DigitBytes(ds)) == Worth(ds)
    decreases |ds|
  {
    if ds != [] {
      var n := |ds| - 1;
      assert DigitBytes(ds)[..n] == DigitBytes(ds[..n]);
      DigitsRead(ds[..n]);
    }
  }

  /** Without leading zeros, a number of many digits is large. */
  lemma {:induction false} FewDigits(ds: seq<nat>)
    requires ds != [] && ds[0] != 0
    ensures Worth(ds) >= Pow10(|ds| - 1)
    decreases |ds|
  {
    if |ds| > 1 {
      FewDigits(ds[..|ds| - 1]);
    }
  }

  lemma {:induction false} PowersGrow(j: nat, k: nat)
    requires j <= k
    ensures 1 <= Pow10(j) <= Pow10(k)
    decreases k
  {
    if j < k {
      PowersGrow(j, k - 1);
    } else if j > 0 {
      PowersGrow(j - 1, j - 1);
    }
  }

  lemma NumberLength(minus: bool, ds: seq<nat>)
    requires NumberOk(minus, ds)
    ensures |ds| <= 10
  {
    assert Pow10(5) == 100000;
    assert Pow10(10) == 10000000000;
    if |ds| > 10 {
      FewDigits(ds);
      PowersGrow(10, |ds| - 1);
    }
  }

  lemma NumberConverts(minus: bool, ds: seq<nat>)
    requires NumberOk(minus, ds)
    ensures var t := SpellNumber(minus, ds);
      Convert(t) == Done(Signed(minus, Worth(ds)), |t|)
  {
    hide Worth, DecimalValue, AllDigits, DigitBytes;
    NumberLength(minus, ds);
    DigitsRead(ds);
    var t, bs := SpellNumber(minus, ds), DigitBytes(ds);
    FirstDigit(ds);
    if minus {
      assert t[1..] == bs;
    } else {
      assert t == [] + bs == bs;
    }
  }

  lemma FirstDigit(ds: seq<nat>)
    requires ds != [] && forall i :: 0 <= i < |ds| ==> ds[i] < 10
    ensures DigitBytes(ds)[0] == 48 + ds[0] != MINUS
  {
  }

  lemma NumberDerived(c: seq<byte>, off: nat, minus: bool, ds: seq<nat>)
    requires NumberOk(minus, ds) && Reads(c, off, SpellNumber(minus, ds)) && Stops(c, off + |SpellNumber(minus, ds)|)
    ensures off < |c|
    ensures ParseNumber(c, off) == Done(Number(Signed(minus, Worth(ds))), off + |SpellNumber(minus, ds)|)
  {
    hide Convert, Worth;
    NumberLength(minus, ds);
    NumberConverts(minus, ds);
    RunOver(c, off, SpellNumber(minus, ds), NUMBER_SIZE);
  }

  /** A derived text begins with a byte that says what it is. */
  lemma FirstSpelt(d: Doc)
    requires DocOk(d)
    ensures var t := Spell(d);
      && |t| >= 1 && t[0] > 32 && t[0] < 0x80
      && match d
         case NullDoc => t == NULL_TEXT
         case FalseDoc => t == FALSE_TEXT
         case TrueDoc => t == TRUE_TEXT
         case NumberDoc(_, _) => t[0] == MINUS || IsDigit(t[0])
         case StringDoc(_) => t[0] == QUOTE
         case ArrayDoc(_, _) => t[0] == OPEN_ARRAY
         case ObjectDoc(_, _) => t[0] == OPEN_OBJECT
  {
  }

  lemma FirstVisible(d: Doc)
    requires DocOk(d)
    ensures |Spell(d)| >= 1 && 32 < Spell(d)[0] < 0x80 && Spell(d)[0] != CLOSE_ARRAY
  {
    FirstSpelt(d);
  }

  lemma WsRead(c: seq<byte>, a: nat, s: seq<byte>)
    requires Reads(c, a, s) && Ws(s)
    ensures Blank(c, a, a + |s|)
  {
    BlankRead(c, a, s);
  }

  /** Blanks, and then what ends a value: nothing that would go on a number. */
  lemma GapStops(c: seq<byte>, k: nat, e: nat)
    requires Blank(c, k, e) && e < |c| && c[e] in {0, COMMA, CLOSE_ARRAY, CLOSE_OBJECT}
    ensures Stops(c, k)
  {
  }

  /** A text that derives a value is read as this value, wherever it stands, unless it is nested
      too deep. */
  lemma {:induction false} DocRead(d: Doc, c: seq<byte>, off: nat, depth: nat)
    requires DocOk(d) && Reads(c, off, Spell(d)) && Stops(c, off + |Spell(d)|) && depth <= NESTING_LIMIT
    ensures ParseValue(c, off, depth)
         == Within(depth + Height(Meaning(d)), Done(Cut(Meaning(d)), off + |Spell(d)|))
    decreases d, 1
  {
    hide Reads, ParseNumber, ParseString, SpellString, SpellNumber, ParseArray, ParseObject, SpellItems, SpellEntries,
         NumberOk, Worth, CString, CharsBytes, Stops;
    FirstSpelt(d);
    ReadsItem(c, off, Spell(d), 0);
    match d
    case NullDoc => LiteralRead(c, off, Null, depth, NULL_TEXT);
    case FalseDoc => LiteralRead(c, off, False, depth, FALSE_TEXT);
    case TrueDoc => LiteralRead(c, off, True, depth, TRUE_TEXT);
    case NumberDoc(minus, ds) =>
      NotLiteral(c, off);
      NumberDerived(c, off, minus, ds);
    case StringDoc(chars) =>
      NotLiteral(c, off);
      StringDerived(c, off, chars);
    case ArrayDoc(_, _) =>
      NotLiteral(c, off);
      ArrayDerived(d, c, off, depth);
    case ObjectDoc(_, _) =>
      NotLiteral(c, off);
      ObjectDerived(d, c, off, depth);
  }

  lemma {:induction false} ArrayDerived(d: Doc, c: seq<byte>, off: nat, depth: nat)
    requires d.ArrayDoc? && DocOk(d) && Reads(c, off, Spell(d)) && depth <= NESTING_LIMIT
    ensures off < |c| && ParseArray(c, off, depth)
         == Within(depth + Height(Meaning(d)), Done(Cut(Meaning(d)), off + |Spell(d)|))
    decreases d, 0
  {
    hide Reads, SkipWs, ParseElements, Spell, SpellItems, Blank, Ws, DocOk, Meaning, Cut, Height,
         ItemsOk, ItemsMeaning, CutElements, ElementsHeight;
    var items := d.items;
    ArrayMeans(d);
    ArrayDocParts(d, c, off);
    if items.NoItems? {
      var e := off + 1 + |d.inside|;
      WsRead(c, off + 1, d.inside);
      SkipOver(c, off + 1, e);
    } else {
      ItemStart(items, c, off + 1);
      var v := off + 1 + |items.before|;
      SkipOver(c, off + 1, v);
      NoBlank(c, v);
      SkipOver(c, v, v);
      if depth < NESTING_LIMIT {
        ItemsRead(items, c, v, off + 1, depth + 1);
      }
    }
  }

  lemma ArrayMeans(d: Doc)
    requires d.ArrayDoc? && DocOk(d)
    ensures Ws(d.inside) && ItemsOk(d.items)
    ensures Height(Meaning(d)) == 1 + ElementsHeight(ItemsMeaning(d.items))
    ensures Cut(Meaning(d)) == Array(CutElements(ItemsMeaning(d.items)))
    ensures d.items.NoItems? ==>
      CutElements(ItemsMeaning(d.items)) == NoItem && ElementsHeight(ItemsMeaning(d.items)) == 0
  {
  }

  lemma ObjectMeans(d: Doc)
    requires d.ObjectDoc? && DocOk(d)
    ensures Ws(d.inside) && EntriesOk(d.entries)
    ensures Height(Meaning(d)) == 1 + MembersHeight(EntriesMeaning(d.entries))
    ensures Cut(Meaning(d)) == Object(CutMembers(EntriesMeaning(d.entries)))
    ensures d.entries.NoEntries? ==>
      CutMembers(EntriesMeaning(d.entries)) == NoMember && MembersHeight(EntriesMeaning(d.entries)) == 0
  {
  }

  lemma ArrayDocParts(d: Doc, c: seq<byte>, off: nat)
    requires d.ArrayDoc? && DocOk(d) && Reads(c, off, Spell(d))
    ensures var t := if d.items.NoItems? then d.inside else SpellItems(d.items);
      && Sees(c, off, OPEN_ARRAY) && Reads(c, off + 1, t) && Sees(c, off + 1 + |t|, CLOSE_ARRAY)
      && |Spell(d)| == |t| + 2
  {
    hide Reads, SpellItems;
    var t := if d.items.NoItems? then d.inside else SpellItems(d.items);
    ReadsItem(c, off, Spell(d), 0);
    ReadsSplit(c, off, [OPEN_ARRAY], t + [CLOSE_ARRAY]);
    ReadsSplit(c, off + 1, t, [CLOSE_ARRAY]);
    ReadsItem(c, off + 1 + |t|, [CLOSE_ARRAY], 0);
  }

  /** The first item comes behind its blanks. */
  lemma ItemStart(items: Items, c: seq<byte>, at: nat)
    requires ItemsOk(items) && items.OneItem? && Reads(c, at, SpellItems(items))
    ensures var v := at + |items.before|;
      Blank(c, at, v) && v < |c| && c[v] > 32 && c[v] != CLOSE_ARRAY
  {
    hide Reads, Spell;
    ItemParts(items, c, at);
    FirstVisible(items.doc);
    ReadsItem(c, at + |items.before|, Spell(items.doc), 0);
  }

  /** Where the parts of an item are. */
  lemma ItemParts(items: Items, c: seq<byte>, at: nat)
    requires ItemsOk(items) && items.OneItem? && Reads(c, at, SpellItems(items))
    ensures var v := at + |items.before|;
      var k := v + |Spell(items.doc)|;
      var e := k + |items.after|;
      && Blank(c, at, v) && Reads(c, v, Spell(items.doc)) && Blank(c, k, e)
      && if items.rest.NoItems? then at + |SpellItems(items)| == e
         else Sees(c, e, COMMA) && Reads(c, e + 1, SpellItems(items.rest))
              && at + |SpellItems(items)| == e + 1 + |SpellItems(items.rest)|
  {
    hide Reads, Spell, Blank, DocOk;
    var t, rest := Spell(items.doc), if items.rest.NoItems? then [] else [COMMA] + SpellItems(items.rest);
    var v := at + |items.before|;
    ReadsSplit(c, at, items.before, t + (items.after + rest));
    ReadsSplit(c, v, t, items.after + rest);
    ReadsSplit(c, v + |t|, items.after, rest);
    WsRead(c, at, items.before);
    WsRead(c, v + |t|, items.after);
    if items.rest.OneItem? {
      var e := v + |t| + |items.after|;
      ReadsItem(c, e, rest, 0);
      ReadsSplit(c, e, [COMMA], SpellItems(items.rest));
    }
  }

  /** Items are read up to the closing bracket; `o` is where the search for the first one
      starts. */
  lemma {:induction false} ItemsRead(items: Items, c: seq<byte>, o: nat, at: nat, depth: nat)
    requires ItemsOk(items) && items.OneItem? && Reads(c, at, SpellItems(items)) && depth <= NESTING_LIMIT
    requires SkipWs(c, o) == at + |items.before| && Sees(c, at + |SpellItems(items)|, CLOSE_ARRAY)
    ensures ParseElements(c, o, depth)
         == Within(depth + ElementsHeight(ItemsMeaning(items)),
                   Done(CutElements(ItemsMeaning(items)), at + |SpellItems(items)|))
    decreases items, 0
  {
    hide Reads, SkipWs, ParseValue, Spell, Meaning, Cut, Height, SpellItems, DocOk, Blank, Stops, Ws;
    var v := at + |items.before|;
    var k := v + |Spell(items.doc)|;
    var e := k + |items.after|;
    ItemParts(items, c, at);
    GapStops(c, k, e);
    DocRead(items.doc, c, v, depth);
    SkipOver(c, k, e);
    if items.rest.OneItem? {
      ItemStart(items.rest, c, e + 1);
      SkipOver(c, e + 1, e + 1 + |items.rest.before|);
      ItemsRead(items.rest, c, e + 1, e + 1, depth);
    }
  }

  lemma {:induction false} ObjectDerived(d: Doc, c: seq<byte>, off: nat, depth: nat)
    requires d.ObjectDoc? && DocOk(d) && Reads(c, off, Spell(d)) && depth <= NESTING_LIMIT
    ensures off < |c| && ParseObject(c, off, depth)
         == Within(depth + Height(Meaning(d)), Done(Cut(Meaning(d)), off + |Spell(d)|))
    decreases d, 0
  {
    hide Reads, SkipWs, ParseMembers, Spell, SpellEntries, Blank, Ws, DocOk, Meaning, Cut, Height,
         EntriesOk, EntriesMeaning, CutMembers, MembersHeight;
    var entries := d.entries;
    ObjectMeans(d);
    ObjectDocParts(d, c, off);
    if entries.NoEntries? {
      var e := off + 1 + |d.inside|;
      WsRead(c, off + 1, d.inside);
      SkipOver(c, off + 1, e);
    } else {
      EntryStart(entries, c, off + 1);
      var v := off + 1 + |entries.before|;
      SkipOver(c, off + 1, v);
      NoBlank(c, v);
      SkipOver(c, v, v);
      if depth < NESTING_LIMIT {
        EntriesRead(entries, c, v, off + 1, depth + 1);
      }
    }
  }

  lemma ObjectDocParts(d: Doc, c: seq<byte>, off: nat)
    requires d.ObjectDoc? && DocOk(d) && Reads(c, off, Spell(d))
    ensures var t := if d.entries.NoEntries? then d.inside else SpellEntries(d.entries);
      && Sees(c, off, OPEN_OBJECT) && Reads(c, off + 1, t) && Sees(c, off + 1 + |t|, CLOSE_OBJECT)
      && |Spell(d)| == |t| + 2
  {
    hide Reads, SpellEntries;
    var t := if d.entries.NoEntries? then d.inside else SpellEntries(d.entries);
    ReadsItem(c, off, Spell(d), 0);
    ReadsSplit(c, off, [OPEN_OBJECT], t + [CLOSE_OBJECT]);
    ReadsSplit(c, off + 1, t, [CLOSE_OBJECT]);
    ReadsItem(c, off + 1 + |t|, [CLOSE_OBJECT], 0);
  }

  /** The first entry comes behind its blanks, with a quote. */
  lemma EntryStart(entries: Entries, c: seq<byte>, at: nat)
    requires EntriesOk(entries) && entries.Entry? && Reads(c, at, SpellEntries(entries))
    ensures var q := at + |entries.before|; Blank(c, at, q) && Sees(c, q, QUOTE)
  {
    hide Reads, SpellChars, SpellEntries, Blank;
    EntryParts(entries, c, at);
    ReadsItem(c, at + |entries.before|, SpellString(entries.name), 0);
  }

  /** Where the name of an entry is, and its colon. */
  lemma EntryParts(entries: Entries, c: seq<byte>, at: nat)
    requires EntriesOk(entries) && entries.Entry? && Reads(c, at, SpellEntries(entries))
    ensures var q := at + |entries.before|;
      var n := q + |SpellString(entries.name)|;
      var colon := n + |entries.afterName|;
      var v := colon + 1 + |entries.beforeDoc|;
      && Blank(c, at, q) && Reads(c, q, SpellString(entries.name)) && Blank(c, n, colon) && Sees(c, colon, COLON)
      && Blank(c, colon + 1, v) && Reads(c, v, SpellRest(entries))
      && at + |SpellEntries(entries)| == v + |SpellRest(entries)|
  {
    hide Reads, SpellString, SpellRest, Blank, Ws, DocOk, CharsOk;
    var name, gap, more := SpellString(entries.name), entries.afterName, entries.beforeDoc;
    var rest := SpellRest(entries);
    var q := at + |entries.before|;
    var n := q + |name|;
    var colon := n + |gap|;
    ReadsSplit(c, at, entries.before, name + (gap + ([COLON] + (more + rest))));
    ReadsSplit(c, q, name, gap + ([COLON] + (more + rest)));
    ReadsSplit(c, n, gap, [COLON] + (more + rest));
    ReadsSplit(c, colon, [COLON], more + rest);
    ReadsSplit(c, colon + 1, more, rest);
    ReadsItem(c, colon, [COLON], 0);
    WsRead(c, at, entries.before);
    WsRead(c, n, gap);
    WsRead(c, colon + 1, more);
  }

  /** Where its value is, and what follows. */
  lemma RestParts(entries: Entries, c: seq<byte>, v: nat)
    requires EntriesOk(entries) && entries.Entry? && Reads(c, v, SpellRest(entries))
    ensures var k := v + |Spell(entries.doc)|;
      var e := k + |entries.after|;
      && Reads(c, v, Spell(entries.doc)) && v < |c| && c[v] > 32 && Blank(c, k, e)
      && if entries.rest.NoEntries? then v + |SpellRest(entries)| == e
         else Sees(c, e, COMMA) && Reads(c, e + 1, SpellEntries(entries.rest))
              && v + |SpellRest(entries)| == e + 1 + |SpellEntries(entries.rest)|
  {
    hide Reads, Spell, SpellEntries, Blank, DocOk, CharsOk, Ws;
    var t, rest := Spell(entries.doc), if entries.rest.NoEntries? then [] else [COMMA] + SpellEntries(entries.rest);
    FirstVisible(entries.doc);
    ReadsSplit(c, v, t, entries.after + rest);
    ReadsItem(c, v, t, 0);
    ReadsSplit(c, v + |t|, entries.after, rest);
    WsRead(c, v + |t|, entries.after);
    if entries.rest.Entry? {
      var e := v + |t| + |entries.after|;
      ReadsItem(c, e, rest, 0);
      ReadsSplit(c, e, [COMMA], SpellEntries(entries.rest));
    }
  }

  /** Entries are read up to the closing bracket; `o` is where the search for the first name
      starts. */
  lemma {:induction false} EntriesRead(entries: Entries, c: seq<byte>, o: nat, at: nat, depth: nat)
    requires EntriesOk(entries) && entries.Entry? && Reads(c, at, SpellEntries(entries)) && depth <= NESTING_LIMIT
    requires SkipWs(c, o) == at + |entries.before| && Sees(c, at + |SpellEntries(entries)|, CLOSE_OBJECT)
    ensures ParseMembers(c, o, depth)
         == Within(depth + MembersHeight(EntriesMeaning(entries)),
                   Done(CutMembers(EntriesMeaning(entries)), at + |SpellEntries(entries)|))
    decreases entries, 1
  {
    hide Reads, SkipWs, ParseValue, ParseString, NamedMembers, SpellString, SpellRest, SpellEntries, Meaning, Cut, Height,
         EntriesMeaning, DocOk, Blank, Ws, CString, CharsBytes, CharsOk;
    EntryParts(entries, c, at);
    var n := at + |entries.before| + |SpellString(entries.name)|;
    var colon := n + |entries.afterName|;
    var v := colon + 1 + |entries.beforeDoc|;
    StringDerived(c, at + |entries.before|, entries.name);
    SkipOver(c, n, colon);
    RestParts(entries, c, v);
    SkipOver(c, colon + 1, v);
    RestRead(entries, c, colon + 1, v, depth);
  }

  lemma {:induction false} RestRead(entries: Entries, c: seq<byte>, o: nat, v: nat, depth: nat)
    requires EntriesOk(entries) && entries.Entry? && Reads(c, v, SpellRest(entries)) && depth <= NESTING_LIMIT
    requires SkipWs(c, o) == v && Sees(c, v + |SpellRest(entries)|, CLOSE_OBJECT)
    ensures NamedMembers(c, o, depth, CString(CharsBytes(entries.name)))
         == Within(depth + MembersHeight(EntriesMeaning(entries)),
                   Done(CutMembers(EntriesMeaning(entries)), v + |SpellRest(entries)|))
    decreases entries, 0
  {
    hide Reads, SkipWs, ParseValue, ParseMembers, Spell, SpellRest, SpellEntries, Meaning, Cut, Height, DocOk, Blank, Stops,
         Ws, CString, CharsBytes, CharsOk;
    var k := v + |Spell(entries.doc)|;
    var e := k + |entries.after|;
    RestParts(entries, c, v);
    GapStops(c, k, e);
    DocRead(entries.doc, c, v, depth);
    SkipOver(c, k, e);
    if entries.rest.Entry? {
      EntryStart(entries.rest, c, e + 1);
      SkipOver(c, e + 1, e + 1 + |entries.rest.before|);
      EntriesRead(entries.rest, c, e + 1, e + 1, depth);
    }
  }

  /** A whole text: perhaps a byte order mark, and blanks around the value; a NUL ends it. */
  function SpellText(mark: bool, before: seq<byte>, d: Doc, after: seq<byte>): seq<byte>
    requires DocOk(d)
  {
    (if mark then [0xEF, 0xBB, 0xBF] else []) + (before + (Spell(d) + (after + [0])))
  }

  /** Every text that derives a value is parsed as this value, up to the NULs in its strings,
      exactly if it is nested within the limit. */
  lemma TextParsed(mark: bool, before: seq<byte>, d: Doc, after: seq<byte>, requireNul: bool)
    requires Ws(before) && DocOk(d) && Ws(after)
    ensures var c := SpellText(mark, before, d, after);
      ParseText(c, requireNul)
      == if Height(Meaning(d)) <= 1000 then Done(Cut(Meaning(d)), |c| - 1 - if requireNul then 0 else |after|) else Failed
  {
    hide Spell, SkipWs, ParseValue, DocOk, Ws, Blank, Stops, Reads, SkipBom, SpellText;
    var c := SpellText(mark, before, d, after);
    var a := TextParts(mark, before, d, after);
    var v := a + |before|;
    var k := v + |Spell(d)|;
    SkipOver(c, a, v);
    GapStops(c, k, |c| - 1);
    DocRead(d, c, v, 0);
    LastBlank(c, k);
  }

  lemma TextParts(mark: bool, before: seq<byte>, d: Doc, after: seq<byte>) returns (a: nat)
    requires Ws(before) && DocOk(d) && Ws(after)
    ensures var c := SpellText(mark, before, d, after);
      var v := a + |before|;
      var k := v + |Spell(d)|;
      && c != [] && SkipBom(c) == a && Blank(c, a, v) && v < |c| && c[v] > 32 && Reads(c, v, Spell(d))
      && |c| - 1 == k + |after| && Blank(c, k, |c| - 1) && c[|c| - 1] == 0
  {
    hide Spell, DocOk, Blank, Reads, Ws, SkipBom;
    var c, bom, t := SpellText(mark, before, d, after), if mark then [0xEF, 0xBB, 0xBF] else [], Spell(d);
    a := |bom|;
    FiveParts(c, bom, before, t, after);
    WsRead(c, a, before);
    WsRead(c, a + |before| + |t|, after);
    FirstVisible(d);
    ReadsItem(c, a + |before|, t, 0);
    MarkSkipped(mark, before, d, after);
  }

  lemma FiveParts(c: seq<byte>, a: seq<byte>, b: seq<byte>, t: seq<byte>, e: seq<byte>)
    requires c == a + (b + (t + (e + [0])))
    ensures Reads(c, |a|, b) && Reads(c, |a| + |b|, t) && Reads(c, |a| + |b| + |t|, e)
    ensures |c| == |a| + |b| + |t| + |e| + 1 && c[|c| - 1] == 0
  {
    assert c[0..|c|] == c;
    ReadsSplit(c, 0, a, b + (t + (e + [0])));
    ReadsSplit(c, |a|, b, t + (e + [0]));
    ReadsSplit(c, |a| + |b|, t, e + [0]);
    ReadsSplit(c, |a| + |b| + |t|, e, [0]);
  }

  lemma MarkSkipped(mark: bool, before: seq<byte>, d: Doc, after: seq<byte>)
    requires Ws(before) && DocOk(d)
    ensures SkipBom(SpellText(mark, before, d, after)) == if mark then 3 else 0
  {
    hide Spell, DocOk;
    var c := SpellText(mark, before, d, after);
    FirstVisible(d);
    if mark {
      assert c[..3] == BYTE_ORDER_MARK;
    } else {
      assert c[0] == if before != [] then before[0] else Spell(d)[0];
      if |c| > 4 {
        assert c[..3][0] == c[0];
      }
    }
  }

  lemma {:induction false} LastBlank(c: seq<byte>, k: nat)
    requires k < |c| && Blank(c, k, |c| - 1) && c[|c| - 1] == 0
    ensures SkipBlank(c, k) == |c| && SkipWs(c, k) == |c| - 1
    decreases |c| - k
  {
    if k < |c| - 1 {
      LastBlank(c, k + 1);
    }
  }

  /** The NUL can only be escaped. */
  predicate Zero(ch: Char) {
    ch.One? && QuadValue(ch.q) == 0
  }

  predicate ZeroFreeChars(chars: seq<Char>) {
    forall i :: 0 <= i < |chars| ==> !Zero(chars[i])
  }

  predicate ZeroFree(d: Doc) {
    match d
    case StringDoc(chars) => ZeroFreeChars(chars)
    case ArrayDoc(_, items) => ZeroFreeItems(items)
    case ObjectDoc(_, entries) => ZeroFreeEntries(entries)
    case _ => true
  }

  predicate ZeroFreeItems(items: Items) {
    items.OneItem? ==> ZeroFree(items.doc) && ZeroFreeItems(items.rest)
  }

  predicate ZeroFreeEntries(entries: Entries) {
    entries.Entry? ==> ZeroFreeChars(entries.name) && ZeroFree(entries.doc) && ZeroFreeEntries(entries.rest)
  }

  lemma CharZero(ch: Char)
    requires CharOk(ch)
    ensures NoNul(CharBytes(ch)) <==> !Zero(ch)
  {
    if ch.One? && Zero(ch) {
      assert CharBytes(ch)[0] == 0;
    }
  }

  lemma {:induction false} CharsZero(chars: seq<Char>)
    requires CharsOk(chars)
    ensures NoNul(CharsBytes(chars)) <==> ZeroFreeChars(chars)
    decreases |chars|
  {
    hide CharBytes, Zero, CharOk;
    if chars != [] {
      CharZero(chars[0]);
      CharsZero(chars[1..]);
      BothNoNul(CharBytes(chars[0]), CharsBytes(chars[1..]));
      assert ZeroFreeChars(chars) <==> !Zero(chars[0]) && ZeroFreeChars(chars[1..]) by {
        if !Zero(chars[0]) && ZeroFreeChars(chars[1..]) {
          forall i | 0 <= i < |chars| ensures !Zero(chars[i]) {
            assert i > 0 ==> !Zero(chars[1..][i - 1]);
          }
        }
      }
    }
  }

  lemma BothNoNul(a: seq<byte>, b: seq<byte>)
    ensures NoNul(a + b) <==> NoNul(a) && NoNul(b)
  {
    if NoNul(a + b) {
      assert forall i :: 0 <= i < |a| ==> a[i] == (a + b)[i];
      assert forall i :: 0 <= i < |b| ==> b[i] == (a + b)[|a| + i];
    }
  }

  lemma {:induction false} CutIff(d: Doc)
    requires DocOk(d)
    ensures Cut(Meaning(d)) == Meaning(d) <==> ZeroFree(d)
    decreases d
  {
    hide CharsBytes, CString, CharsOk, ZeroFreeChars, NumberOk, NoNul;
    match d
    case StringDoc(chars) => CharsZero(chars);
    case ArrayDoc(_, items) => CutItemsIff(items);
    case ObjectDoc(_, entries) => CutEntriesIff(entries);
    case _ =>
  }

  lemma {:induction false} CutItemsIff(items: Items)
    requires ItemsOk(items)
    ensures CutElements(ItemsMeaning(items)) == ItemsMeaning(items) <==> ZeroFreeItems(items)
    decreases items
  {
    hide DocOk, Meaning, Cut, ZeroFree, Ws;
    if items.OneItem? {
      CutIff(items.doc);
      CutItemsIff(items.rest);
    }
  }

  lemma {:induction false} CutEntriesIff(entries: Entries)
    requires EntriesOk(entries)
    ensures CutMembers(EntriesMeaning(entries)) == EntriesMeaning(entries) <==> ZeroFreeEntries(entries)
    decreases entries
  {
    hide DocOk, Meaning, Cut, ZeroFree, Ws, CharsOk, CharsBytes, CString, ZeroFreeChars, NoNul;
    if entries.Entry? {
      CharsZero(entries.name);
      CutIff(entries.doc);
      CutEntriesIff(entries.rest);
    }
  }

  /** Parsing yields just the value that a text stands for exactly if no string of it has an
      escaped NUL and it is nested within the limit. */
  lemma MeaningIff(mark: bool, before: seq<byte>, d: Doc, after: seq<byte>, requireNul: bool)
    requires Ws(before) && DocOk(d) && Ws(after)
    ensures var r := ParseText(SpellText(mark, before, d, after), requireNul);
      r.Done? && r.value == Meaning(d) <==> ZeroFree(d) && Height(Meaning(d)) <= 1000
  {
    hide ParseText, SpellText, Meaning, Cut, ZeroFree, Ws, DocOk, Height;
    TextParsed(mark, before, d, after, requireNul);
    CutIff(d);
  }
}
