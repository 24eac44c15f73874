/** Printing writes texts of the grammar, and parsing undoes it, formatted or not (sections 2 to
    7 of RFC 8259). */
module JsonRoundTrip {
  import opened Bytes
  import opened JsonText
  import opened JsonUnicode
  import opened JsonStrings
  import opened JsonParser
  import opened JsonGrammar

  /** The derivation of a printed text: what is escaped, and the blanks that formatting leaves. */
  function CharFor(b: byte): Char {
    if ShortEscape(b).Some? then Short(ShortEscape(b).value)
    else if b < 32 then One(Quad(Hex(0, false), Hex(0, false), Hex(b / 16, false), Hex(b % 16, false)))
    else Plain(b)
  }

  function CharsFor(s: seq<byte>): (r: seq<Char>)
    ensures |r| == |s| && forall i :: 0 <= i < |s| ==> r[i] == CharFor(s[i])
  {
    seq(|s|, i requires 0 <= i < |s| => CharFor(s[i]))
  }

  function DigitsFor(n: nat): seq<nat> {
    if n < 10 then [n] else DigitsFor(n / 10) + [n % 10]
  }

  /** A new line and as many tabs as objects and arrays are open. */
  function NewLine(st: Style, depth: nat): seq<byte> {
    if st.format then [10] + Tabs(depth) else []
  }

  function Gap(st: Style, blank: byte): seq<byte> {
    if st.format then [blank] else []
  }

  function DocFor(st: Style, v: Json, depth: nat): Doc {
    match v
    case Null => NullDoc
    case False => FalseDoc
    case True => TrueDoc
    case Number(n) => NumberDoc(n < 0, DigitsFor(if n < 0 then -n else n))
    case Str(s) => StringDoc(CharsFor(s))
    case Array(items) => ArrayDoc([], ItemsFor(st, items, depth + 1, []))
    case Object(members) => ObjectDoc(NewLine(st, depth), EntriesFor(st, members, depth + 1))
  }

  /** Items on one line, with a space behind each comma. */
  function ItemsFor(st: Style, items: Elements, depth: nat, before: seq<byte>): Items {
    if items.NoItem? then NoItems
    else OneItem(before, DocFor(st, items.value, depth), [], ItemsFor(st, items.rest, depth, Gap(st, 32)))
  }

  /** A line for each member, with a tab behind the colon. */
  function EntriesFor(st: Style, members: Members, depth: nat): Entries
    requires depth > 0
  {
    if members.NoMember? then NoEntries
    else
      Entry(NewLine(st, depth), CharsFor(members.name), [], Gap(st, 9), DocFor(st, members.value, depth),
            if members.rest.NoMember? then NewLine(st, depth - 1) else [], EntriesFor(st, members.rest, depth))
  }

  lemma CharSpelt(b: byte)
    ensures CharOk(CharFor(b)) && SpellChar(CharFor(b)) == EscapeByte(b) && CharBytes(CharFor(b)) == [b]
  {
  }

  lemma {:induction false} CharsSpelt(s: seq<byte>)
    ensures CharsOk(CharsFor(s)) && SpellChars(CharsFor(s)) == Escape(s) && CharsBytes(CharsFor(s)) == s
    decreases |s|
  {
    hide CharOk, SpellChar, CharBytes, CharFor, EscapeByte;
    forall i | 0 <= i < |s| ensures CharOk(CharsFor(s)[i]) {
      CharSpelt(s[i]);
    }
    if s != [] {
      CharSpelt(s[0]);
      CharsSpelt(s[1..]);
      assert CharsFor(s)[1..] == CharsFor(s[1..]);
      assert s == [s[0]] + s[1..];
    }
  }

  lemma StringSpelt(ptrSize: nat, s: seq<byte>)
    requires ptrSize > 0 && Printable(ptrSize, s)
    ensures CharsOk(CharsFor(s)) && SpellString(CharsFor(s)) == StringText(ptrSize, s) && CharsBytes(CharsFor(s)) == s
  {
    hide CharsOk, SpellChars, CharsBytes, CharsFor, Escape;
    CharsSpelt(s);
    StringShape(ptrSize, s);
  }

  lemma {:induction false} DigitsSpelt(n: nat)
    ensures var ds := DigitsFor(n);
      && ds != [] && (forall i :: 0 <= i < |ds| ==> ds[i] < 10) && (ds[0] == 0 ==> n == 0)
      && Worth(ds) == n && DigitBytes(ds) == Decimal(n)
  {
    var ds := DigitsFor(n);
    if n < 10 {
      assert ds[..0] == [];
    } else {
      DigitsSpelt(n / 10);
      assert ds[..|ds| - 1] == DigitsFor(n / 10);
      assert DigitBytes(ds) == DigitBytes(DigitsFor(n / 10)) + [48 + n % 10];
    }
  }

  lemma NumberSpelt(n: int)
    requires INT_MIN <= n <= INT_MAX
    ensures var ds := DigitsFor(if n < 0 then -n else n);
      NumberOk(n < 0, ds) && SpellNumber(n < 0, ds) == NumberText(n) && Signed(n < 0, Worth(ds)) == n
  {
    DigitsSpelt(if n < 0 then -n else n);
  }

  /** Printing writes a text of the grammar that stands for the value. */
  lemma {:induction false} PrintDerives(st: Style, v: Json, depth: nat)
    requires st.ptrSize > 0 && Proper(v) && AllPrintable(st.ptrSize, v)
    ensures var d := DocFor(st, v, depth);
      DocOk(d) && Spell(d) == Text(st, v, depth) && Meaning(d) == v
    decreases v, 0
  {
    hide NumberOk, SpellNumber, NumberText, Worth, DigitsFor, CharsOk, CharsFor, SpellString, StringText, CharsBytes, Printable;
    match v
    case Number(n) => NumberSpelt(n);
    case Str(s) => StringSpelt(st.ptrSize, s);
    case Array(items) => ArraySpelt(st, items, depth);
    case Object(members) => ObjectSpelt(st, members, depth);
    case _ =>
  }

  lemma {:induction false} ArraySpelt(st: Style, items: Elements, depth: nat)
    requires st.ptrSize > 0 && ProperElements(items) && ElementsPrintable(st.ptrSize, items)
    ensures var d := DocFor(st, Array(items), depth);
      DocOk(d) && Spell(d) == Text(st, Array(items), depth) && Meaning(d) == Array(items)
    decreases items, 1
  {
    hide ElementsText, SpellItems;
    if items.Item? {
      ItemsSpelt(st, items, depth + 1, []);
      assert [] + ElementsText(st, items, depth + 1) == ElementsText(st, items, depth + 1);
    } else {
      NoElements(st, depth + 1);
    }
  }

  lemma NoElements(st: Style, depth: nat)
    requires st.ptrSize > 0
    ensures ElementsText(st, NoItem, depth) == []
  {
  }

  lemma {:induction false} ItemsSpelt(st: Style, items: Elements, depth: nat, before: seq<byte>)
    requires st.ptrSize > 0 && items.Item? && ProperElements(items) && ElementsPrintable(st.ptrSize, items) && Ws(before)
    ensures var d := ItemsFor(st, items, depth, before);
      ItemsOk(d) && SpellItems(d) == before + ElementsText(st, items, depth) && ItemsMeaning(d) == items
    decreases items, 0
  {
    hide Proper, AllPrintable, DocFor, DocOk, Spell, Text, Meaning;
    PrintDerives(st, items.value, depth);
    var t := Text(st, items.value, depth);
    if items.rest.Item? {
      var more := ElementsText(st, items.rest, depth);
      ItemsSpelt(st, items.rest, depth, Gap(st, 32));
      Assoc([COMMA], Gap(st, 32), more);
      assert [] + (Between(st) + more) == Between(st) + more;
      assert Between(st) == [COMMA] + Gap(st, 32);
    } else {
      NoElements(st, depth);
      assert ElementsText(st, items, depth) == t;
      assert before + (t + ([] + [])) == before + t;
    }
  }

  /** What precedes the closing bracket on its line. */
  function Ending(st: Style, depth: nat): seq<byte> {
    if st.format then Tabs(depth) else []
  }

  lemma {:induction false} ObjectSpelt(st: Style, members: Members, depth: nat)
    requires st.ptrSize > 0 && ProperMembers(members) && MembersPrintable(st.ptrSize, members)
    ensures var d := DocFor(st, Object(members), depth);
      DocOk(d) && Spell(d) == Text(st, Object(members), depth) && Meaning(d) == Object(members)
    decreases members, 1
  {
    hide MembersText, SpellEntries, Ending, NewLine, OpenObject, CloseObject, Ws, ProperMembers, MembersPrintable;
    NewLineWs(st, depth);
    var m := MembersText(st, members, depth + 1);
    if members.Member? {
      EntriesSpelt(st, members, depth + 1);
    } else {
      NoMembers(st, depth + 1);
    }
    Brackets(st, depth, m);
  }

  lemma Brackets(st: Style, depth: nat, m: seq<byte>)
    ensures OpenObject(st) + (m + CloseObject(st, depth))
         == [OPEN_OBJECT] + ((Gap(st, 10) + (m + Ending(st, depth))) + [CLOSE_OBJECT])
    ensures Gap(st, 10) + ([] + Ending(st, depth)) == NewLine(st, depth)
  {
    hide Tabs;
    var g, e := Gap(st, 10), Ending(st, depth);
    Assoc(m, e, [CLOSE_OBJECT]);
    Assoc(g, m + e, [CLOSE_OBJECT]);
    Assoc([OPEN_OBJECT], g, (m + e) + [CLOSE_OBJECT]);
    assert [] + e == e && (st.format || g + e == []);
  }

  lemma NewLineWs(st: Style, depth: nat)
    ensures Ws(NewLine(st, depth)) && Ws(Gap(st, 9)) && Ws(Gap(st, 32)) && Ws([])
  {
  }

  lemma NoMembers(st: Style, depth: nat)
    requires st.ptrSize > 0
    ensures MembersText(st, NoMember, depth) == []
  {
  }

  /** The members with the line break before them and what is behind the last one. */
  lemma {:induction false} EntriesSpelt(st: Style, members: Members, depth: nat)
    requires st.ptrSize > 0 && members.Member? && ProperMembers(members) && MembersPrintable(st.ptrSize, members) && depth > 0
    ensures var d := EntriesFor(st, members, depth);
      && EntriesOk(d) && EntriesMeaning(d) == members
      && SpellEntries(d) == Gap(st, 10) + (MembersText(st, members, depth) + Ending(st, depth - 1))
    decreases members, 0
  {
    hide Proper, AllPrintable, Printable, DocFor, DocOk, Spell, Text, Meaning, CharsFor, CharsOk, CharsBytes, SpellString,
         StringText, NewLine, Ending, Gap, BeforeName, AfterName, AfterMember, Ws, NoNul, MembersText, SpellEntries;
    var d, e := EntriesFor(st, members, depth), Ending(st, depth - 1);
    PrintDerives(st, members.value, depth);
    StringSpelt(st.ptrSize, members.name);
    NewLineWs(st, depth);
    NewLineWs(st, depth - 1);
    if members.rest.Member? {
      EntriesSpelt(st, members.rest, depth);
    }
    EntrySpelt(st, members, depth);
  }

  /** One entry, if what follows is spelt as it should be. */
  lemma EntrySpelt(st: Style, members: Members, depth: nat)
    requires st.ptrSize > 0 && members.Member? && depth > 0
    requires var d := EntriesFor(st, members, depth);
      && EntriesOk(d) && SpellString(d.name) == StringText(st.ptrSize, members.name)
      && Spell(d.doc) == Text(st, members.value, depth)
      && (d.rest.Entry? <==> members.rest.Member?)
      && (d.rest.Entry? ==>
            SpellEntries(d.rest) == Gap(st, 10) + (MembersText(st, members.rest, depth) + Ending(st, depth - 1)))
    ensures SpellEntries(EntriesFor(st, members, depth))
         == Gap(st, 10) + (MembersText(st, members, depth) + Ending(st, depth - 1))
  {
    hide DocFor, DocOk, Spell, Text, CharsFor, CharsOk, SpellString, StringText, NewLine, Ending, Gap, BeforeName, AfterName,
         AfterMember, Ws;
    var d, e := EntriesFor(st, members, depth), Ending(st, depth - 1);
    var w := AfterMember(st, members.rest.Member?) + MembersText(st, members.rest, depth);
    var rest := if d.rest.NoEntries? then [] else [COMMA] + SpellEntries(d.rest);
    NoMembers(st, depth);
    Behind(st, members.rest.Member?, MembersText(st, members.rest, depth), depth);
    assert d.after + rest == w + e;
    Front(st, depth);
    Regroup(Gap(st, 10), BeforeName(st, depth), SpellString(d.name), Gap(st, 9), Spell(d.doc), w, e);
  }

  /** Behind a member: the next one on its line, or the end. */
  lemma Behind(st: Style, more: bool, m: seq<byte>, depth: nat)
    requires depth > 0
    ensures var w := AfterMember(st, more) + m;
      && (more ==> [] + ([COMMA] + (Gap(st, 10) + (m + Ending(st, depth - 1)))) == w + Ending(st, depth - 1))
      && (!more && m == [] ==> NewLine(st, depth - 1) + [] == w + Ending(st, depth - 1))
  {
    hide Ending, NewLine, Tabs;
    var g, e := Gap(st, 10), Ending(st, depth - 1);
    if more {
      Assoc(g, m, e);
      Assoc([COMMA], g + m, e);
      Assoc([COMMA], g, m);
      assert AfterMember(st, true) == [COMMA] + g;
    } else if m == [] {
      assert AfterMember(st, false) + m == g;
      Brackets(st, depth - 1, []);
      assert [] + e == e;
    }
  }

  lemma Front(st: Style, depth: nat)
    ensures NewLine(st, depth) == Gap(st, 10) + BeforeName(st, depth) && AfterName(st) == [COLON] + Gap(st, 9)
  {
  }

  lemma Regroup(g: seq<byte>, b: seq<byte>, s: seq<byte>, tab: seq<byte>, t: seq<byte>, w: seq<byte>, e: seq<byte>)
    ensures (g + b) + (s + ([] + ([COLON] + (tab + (t + (w + e))))))
         == g + ((b + (s + (([COLON] + tab) + (t + w)))) + e)
  {
    var a := [COLON] + tab;
    Assoc(t, w, e);
    Assoc([COLON], tab, (t + w) + e);
    Assoc(a, t + w, e);
    assert [] + ((a + (t + w)) + e) == (a + (t + w)) + e;
    Assoc(s, a + (t + w), e);
    Assoc(b, s + (a + (t + w)), e);
    Assoc(g, b, (s + (a + (t + w))) + e);
  }

  /** C strings are kept whole. */
  lemma {:induction false} ProperKept(v: Json)
    requires Proper(v)
    ensures Cut(v) == v
    decreases v
  {
    match v
    case Array(items) => ElementsKept(items);
    case Object(members) => MembersKept(members);
    case _ =>
  }

  lemma {:induction false} ElementsKept(items: Elements)
    requires ProperElements(items)
    ensures CutElements(items) == items
    decreases items
  {
    if items.Item? {
      ProperKept(items.value);
      ElementsKept(items.rest);
    }
  }

  lemma {:induction false} MembersKept(members: Members)
    requires ProperMembers(members)
    ensures CutMembers(members) == members
    decreases members
  {
    if members.Member? {
      ProperKept(members.value);
      MembersKept(members.rest);
    }
  }

  /** A printed value is read back, wherever it stands, unless it is nested too deep. */
  lemma ValueRead(st: Style, v: Json, pd: nat, c: seq<byte>, off: nat, depth: nat)
    requires st.ptrSize > 0 && Proper(v) && AllPrintable(st.ptrSize, v)
    requires Reads(c, off, Text(st, v, pd)) && Stops(c, off + |Text(st, v, pd)|)
    requires depth <= NESTING_LIMIT
    ensures ParseValue(c, off, depth) == Within(depth + Height(v), Done(v, off + |Text(st, v, pd)|))
  {
    hide Text, Spell, Meaning, Cut, DocFor, DocOk, Reads, Stops, ParseValue, Height, Proper, AllPrintable;
    PrintDerives(st, v, pd);
    ProperKept(v);
    DocRead(DocFor(st, v, pd), c, off, depth);
  }

  /** Parsing the printed text of a value yields the value exactly if it is nested no deeper
      than the limit, whether the text was formatted or not and whether a terminating NUL is
      asked for or not. */
  lemma ParseOfPrint(st: Style, v: Json, requireNul: bool)
    requires st.ptrSize > 0 && Proper(v) && AllPrintable(st.ptrSize, v)
    ensures ParseText(Text(st, v, 0) + [0], requireNul)
         == if Height(v) <= NESTING_LIMIT then Done(v, |Text(st, v, 0)|) else Failed
  {
    hide Text, Spell, Meaning, Cut, DocFor, DocOk, ParseText, Height, Proper, AllPrintable;
    PrintDerives(st, v, 0);
    ProperKept(v);
    TextParsed(false, [], DocFor(st, v, 0), [], requireNul);
    Alone(Text(st, v, 0));
  }

  lemma Alone(t: seq<byte>)
    ensures [] + ([] + (t + ([] + [0]))) == t + [0]
  {
  }
}
