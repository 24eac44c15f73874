/** JSON values and the text that is printed for them (src/cJSON/cJSON.c, lines 551 to 628,
    917 to 1036, 1381 to 1453, 1554 to 1613 and 1729 to 1840). */
module JsonText {
  import opened Bytes

  /** Null, booleans, integers, strings (without NUL), arrays and objects. Children are lists,
      as in the source. */
  datatype Json =
    | Null
    | False
    | True
    | Number(n: int)
    | Str(s: seq<byte>)
    | Array(items: Elements)
    | Object(members: Members)

  datatype Elements = NoItem | Item(value: Json, rest: Elements)

  datatype Members = NoMember | Member(name: seq<byte>, value: Json, rest: Members)

  datatype Named = Named(name: seq<byte>, value: Json)

  function Values(items: Elements): seq<Json> {
    if items.NoItem? then [] else [items.value] + Values(items.rest)
  }

  function Pairs(members: Members): seq<Named> {
    if members.NoMember? then [] else [Named(members.name, members.value)] + Pairs(members.rest)
  }

  function ListOf(vs: seq<Json>, rest: Elements): Elements {
    if vs == [] then rest else Item(vs[0], ListOf(vs[1..], rest))
  }

  function MembersOf(ms: seq<Named>, rest: Members): Members {
    if ms == [] then rest else Member(ms[0].name, ms[0].value, MembersOf(ms[1..], rest))
  }

  lemma {:induction false} ValuesOfList(vs: seq<Json>)
    ensures Values(ListOf(vs, NoItem)) == vs
    decreases |vs|
  {
    if vs != [] {
      ValuesOfList(vs[1..]);
    }
  }

  lemma {:induction false} PairsOfMembers(ms: seq<Named>)
    ensures Pairs(MembersOf(ms, NoMember)) == ms
    decreases |ms|
  {
    if ms != [] {
      PairsOfMembers(ms[1..]);
    }
  }

  const QUOTE: byte := 34
  const COMMA: byte := 44
  const MINUS: byte := 45
  const COLON: byte := 58
  const OPEN_ARRAY: byte := 91
  const BACKSLASH: byte := 92
  const CLOSE_ARRAY: byte := 93
  const OPEN_OBJECT: byte := 123
  const CLOSE_OBJECT: byte := 125
  const TAB: byte := 9
  const NEWLINE: byte := 10
  const SPACE: byte := 32
  const LETTER_U: byte := 117

  const NULL_TEXT: seq<byte> := [110, 117, 108, 108]
  const FALSE_TEXT: seq<byte> := [102, 97, 108, 115, 101]
  const TRUE_TEXT: seq<byte> := [116, 114, 117, 101]

  const INT_MAX := 0x7FFF_FFFF
  const INT_MIN := -0x8000_0000

  predicate IsDigit(b: byte) {
    48 <= b <= 57
  }

  function Decimal(n: nat): (bs: seq<byte>)
    ensures |bs| >= 1 && forall i :: 0 <= i < |bs| ==> IsDigit(bs[i])
  {
    if n < 10 then [48 + n] else Decimal(n / 10) + [48 + n % 10]
  }

  /** An integer the way %d prints it. */
  function NumberText(n: int): (bs: seq<byte>)
    ensures |bs| >= 1 && (bs[0] == MINUS || IsDigit(bs[0]))
  {
    if n < 0 then [MINUS] + Decimal(-n) else Decimal(n)
  }

  /** The letter that follows the backslash in a short escape. */
  function ShortEscape(b: byte): Option<byte> {
    match b
    case 34 => Some(34) case 92 => Some(92) case 8 => Some(98) case 12 => Some(102)
    case 10 => Some(110) case 13 => Some(114) case 9 => Some(116) case _ => None
  }

  function LowerHex(d: nat): byte
    requires d < 16
  {
    if d < 10 then 48 + d else 87 + d
  }

  /** A byte below 32 without a short escape. */
  predicate Control(b: byte) {
    b < 32 && ShortEscape(b).None?
  }

  /** Text of one byte of a string. */
  function EscapeByte(b: byte): (bs: seq<byte>)
    ensures |bs| >= 1
  {
    if ShortEscape(b).Some? then [BACKSLASH, ShortEscape(b).value]
    else if b < 32 then [BACKSLASH, LETTER_U, 48, 48, LowerHex(b / 16), LowerHex(b % 16)]
    else [b]
  }

  function Escape(s: seq<byte>): seq<byte> {
    if s == [] then [] else EscapeByte(s[0]) + Escape(s[1..])
  }

  /** The text of a control byte is written by a call that is told the size of a pointer as
      the size of its destination, so that only this many bytes of it fit, then a NUL. */
  function FittingControl(ptrSize: nat, b: byte): seq<byte>
    requires Control(b) && 0 < ptrSize < 6
  {
    [BACKSLASH] + EscapeByte(b)[1..][..ptrSize - 1]
  }

  /** No control byte, or pointers large enough for the text of one. */
  predicate Printable(ptrSize: nat, s: seq<byte>) {
    ptrSize >= 6 || forall i :: 0 <= i < |s| ==> !Control(s[i])
  }

  /** What can be seen of the text of a string's contents: all of it, or what comes before
      the first NUL. */
  function VisibleEscape(ptrSize: nat, s: seq<byte>): seq<byte>
    requires ptrSize > 0
  {
    if s == [] then []
    else if Control(s[0]) && ptrSize < 6 then FittingControl(ptrSize, s[0])
    else EscapeByte(s[0]) + VisibleEscape(ptrSize, s[1..])
  }

  function StringText(ptrSize: nat, s: seq<byte>): seq<byte>
    requires ptrSize > 0
  {
    [QUOTE] + VisibleEscape(ptrSize, s) + if Printable(ptrSize, s) then [QUOTE] else []
  }

  function Tabs(n: nat): (bs: seq<byte>)
    ensures |bs| == n
  {
    seq(n, i => TAB)
  }

  /** How to print: with line breaks or without, and the size of a pointer. */
  datatype Style = Style(format: bool, ptrSize: nat)

  /** A value printed `depth` levels deep. */
  function Text(st: Style, v: Json, depth: nat): seq<byte>
    requires st.ptrSize > 0
  {
    match v
    case Null => NULL_TEXT
    case False => FALSE_TEXT
    case True => TRUE_TEXT
    case Number(n) => NumberText(n)
    case Str(s) => StringText(st.ptrSize, s)
    case Array(items) => [OPEN_ARRAY] + (ElementsText(st, items, depth + 1) + [CLOSE_ARRAY])
    case Object(members) =>
      OpenObject(st) + (MembersText(st, members, depth + 1) + CloseObject(st, depth))
  }

  function OpenObject(st: Style): seq<byte> {
    if st.format then [OPEN_OBJECT, NEWLINE] else [OPEN_OBJECT]
  }

  function CloseObject(st: Style, depth: nat): seq<byte> {
    (if st.format then Tabs(depth) else []) + [CLOSE_OBJECT]
  }

  function Between(st: Style): seq<byte> {
    if st.format then [COMMA, SPACE] else [COMMA]
  }

  function ElementsText(st: Style, items: Elements, depth: nat): seq<byte>
    requires st.ptrSize > 0
  {
    match items
    case NoItem => []
    case Item(value, rest) =>
      Text(st, value, depth) + ((if rest.Item? then Between(st) else []) + ElementsText(st, rest, depth))
  }

  function BeforeName(st: Style, depth: nat): seq<byte> {
    if st.format then Tabs(depth) else []
  }

  function AfterName(st: Style): seq<byte> {
    if st.format then [COLON, TAB] else [COLON]
  }

  function AfterMember(st: Style, more: bool): seq<byte> {
    (if more then [COMMA] else []) + if st.format then [NEWLINE] else []
  }

  function MembersText(st: Style, members: Members, depth: nat): seq<byte>
    requires st.ptrSize > 0
  {
    match members
    case NoMember => []
    case Member(name, value, rest) =>
      BeforeName(st, depth) + (StringText(st.ptrSize, name) + (AfterName(st)
        + (Text(st, value, depth) + (AfterMember(st, rest.Member?) + MembersText(st, rest, depth)))))
  }

  /** C strings: no NUL inside. */
  predicate NoNul(s: seq<byte>) {
    forall i :: 0 <= i < |s| ==> s[i] != 0
  }

  /** Values of the model: integers of 32 bits and C strings. */
  predicate Proper(v: Json) {
    match v
    case Number(n) => INT_MIN <= n <= INT_MAX
    case Str(s) => NoNul(s)
    case Array(items) => ProperElements(items)
    case Object(members) => ProperMembers(members)
    case _ => true
  }

  predicate ProperElements(items: Elements) {
    match items
    case NoItem => true
    case Item(value, rest) => Proper(value) && ProperElements(rest)
  }

  predicate ProperMembers(members: Members) {
    match members
    case NoMember => true
    case Member(name, value, rest) => NoNul(name) && Proper(value) && ProperMembers(rest)
  }

  /** All strings of a value can be printed whole. */
  predicate AllPrintable(ptrSize: nat, v: Json) {
    match v
    case Str(s) => Printable(ptrSize, s)
    case Array(items) => ElementsPrintable(ptrSize, items)
    case Object(members) => MembersPrintable(ptrSize, members)
    case _ => true
  }

  predicate ElementsPrintable(ptrSize: nat, items: Elements) {
    match items
    case NoItem => true
    case Item(value, rest) => AllPrintable(ptrSize, value) && ElementsPrintable(ptrSize, rest)
  }

  predicate MembersPrintable(ptrSize: nat, members: Members) {
    match members
    case NoMember => true
    case Member(name, value, rest) =>
      Printable(ptrSize, name) && AllPrintable(ptrSize, value) && MembersPrintable(ptrSize, rest)
  }

  /** How many arrays and objects are open at most at one point of a value. */
  function Height(v: Json): nat {
    match v
    case Array(items) => 1 + ElementsHeight(items)
    case Object(members) => 1 + MembersHeight(members)
    case _ => 0
  }

  function Larger(a: nat, b: nat): nat {
    if a >= b then a else b
  }

  function ElementsHeight(items: Elements): nat {
    match items
    case NoItem => 0
    case Item(value, rest) => Larger(Height(value), ElementsHeight(rest))
  }

  function MembersHeight(members: Members): nat {
    match members
    case NoMember => 0
    case Member(_, value, rest) => Larger(Height(value), MembersHeight(rest))
  }

  /** Number of values and lists in a value. */
  function Size(v: Json): nat {
    match v
    case Array(items) => 1 + ElementsSize(items)
    case Object(members) => 1 + MembersSize(members)
    case _ => 1
  }

  function ElementsSize(items: Elements): nat {
    match items
    case NoItem => 0
    case Item(value, rest) => 1 + Size(value) + ElementsSize(rest)
  }

  function MembersSize(members: Members): nat {
    match members
    case NoMember => 0
    case Member(_, value, rest) => 1 + Size(value) + MembersSize(rest)
  }
}
