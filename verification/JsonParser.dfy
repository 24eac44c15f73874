/** Parsing JSON text (src/cJSON/cJSON.c, lines 300 to 388, 1053 to 1183, 1327 to 1379,
    1456 to 1551 and 1616 to 1726): what a text stands for, and the parser that moves an
    offset through it. */
module JsonParser {
  import opened Bytes
  import opened JsonText
  import opened JsonStrings

  const NESTING_LIMIT := 1000
  /** Characters of a number that are looked at. */
  const NUMBER_SIZE := 63

  function SkipBlank(c: seq<byte>, k: nat): (r: nat)
    requires k <= |c|
    ensures k <= r <= |c|
    decreases |c| - k
  {
    if k < |c| && c[k] <= 32 then SkipBlank(c, k + 1) else k
  }

  /** Over blanks, but never past the last byte. */
  function SkipWs(c: seq<byte>, off: nat): (r: nat)
    ensures off <= r && (off <= |c| ==> r <= |c|) && (off < |c| ==> r < |c|)
  {
    if off >= |c| then off
    else
      var k := SkipBlank(c, off);
      if k == |c| then k - 1 else k
  }

  predicate NumberChar(b: byte) {
    IsDigit(b) || b == 43 || b == MINUS || b == 46 || b == 69 || b == 101
  }

  /** The end of the number characters at `off`, `left` of them at most. */
  function RunEnd(c: seq<byte>, off: nat, left: nat): (r: nat)
    requires off <= |c|
    ensures off <= r <= |c| && r <= off + left
    decreases left
  {
    if left > 0 && off < |c| && NumberChar(c[off]) then RunEnd(c, off + 1, left - 1) else off
  }

  function DecimalValue(bs: seq<byte>): nat
    requires forall i :: 0 <= i < |bs| ==> IsDigit(bs[i])
  {
    if bs == [] then 0
    else
      assert IsDigit(bs[|bs| - 1]);
      DecimalValue(bs[..|bs| - 1]) * 10 + (bs[|bs| - 1] - 48)
  }

  predicate AllDigits(bs: seq<byte>) {
    forall i :: 0 <= i < |bs| ==> IsDigit(bs[i])
  }

  function Unsigned(run: seq<byte>): seq<byte> {
    if run != [] && run[0] == MINUS then run[1..] else run
  }

  /** A number's characters, converted: integers of 32 bits are modelled. */
  function Convert(run: seq<byte>): Parse<int> {
    var digits := Unsigned(run);
    if !AllDigits(digits) || |run| >= NUMBER_SIZE then Unmodelled
    else if digits == [] then Failed
    else
      var v: int := if digits == run then DecimalValue(digits) else 0 - DecimalValue(digits);
      if INT_MIN <= v <= INT_MAX then Done(v, |run|) else Unmodelled
  }

  function ParseNumber(c: seq<byte>, off: nat): (r: Parse<Json>)
    requires off < |c|
    ensures r.Done? ==> off < r.off <= |c|
  {
    var run := c[off..RunEnd(c, off, NUMBER_SIZE)];
    match Convert(run)
    case Done(v, n) => Done(Number(v), off + n)
    case Failed => Failed
    case OutOfBounds => OutOfBounds
    case Unmodelled => Unmodelled
  }

  predicate Literally(c: seq<byte>, off: nat, s: seq<byte>) {
    Reads(c, off, s)
  }

  function Left(c: seq<byte>, off: nat): nat {
    if off < |c| then |c| - off else 0
  }

  predicate Sees(c: seq<byte>, off: nat, b: byte) {
    off < |c| && c[off] == b
  }

  function ParseValue(c: seq<byte>, off: nat, depth: nat): (r: Parse<Json>)
    ensures r.Done? ==> off < r.off <= |c|
    decreases Left(c, off), 1
  {
    if Literally(c, off, NULL_TEXT) then Done(Null, off + 4)
    else if Literally(c, off, FALSE_TEXT) then Done(False, off + 5)
    else if Literally(c, off, TRUE_TEXT) then Done(True, off + 4)
    else if off >= |c| then Failed
    else if c[off] == QUOTE then StringValue(ParseString(c, off))
    else if c[off] == MINUS || IsDigit(c[off]) then ParseNumber(c, off)
    else if c[off] == OPEN_ARRAY then ParseArray(c, off, depth)
    else if c[off] == OPEN_OBJECT then ParseObject(c, off, depth)
    else Failed
  }

  function StringValue(r: Parse<seq<byte>>): Parse<Json> {
    match r
    case Done(s, o) => Done(Str(s), o)
    case Failed => Failed
    case OutOfBounds => OutOfBounds
    case Unmodelled => Unmodelled
  }

  function ParseArray(c: seq<byte>, off: nat, depth: nat): (r: Parse<Json>)
    requires off < |c|
    ensures r.Done? ==> off < r.off <= |c|
    decreases Left(c, off), 0
  {
    if depth >= NESTING_LIMIT then Failed
    else
      var o := SkipWs(c, off + 1);
      if Sees(c, o, CLOSE_ARRAY) then Done(Array(NoItem), o + 1)
      else if o >= |c| then Failed
      else ArrayValue(c, ParseElements(c, o, depth + 1))
  }

  function ArrayValue(c: seq<byte>, r: Parse<Elements>): Parse<Json> {
    match r
    case Done(items, o) => if Sees(c, o, CLOSE_ARRAY) then Done(Array(items), o + 1) else Failed
    case Failed => Failed
    case OutOfBounds => OutOfBounds
    case Unmodelled => Unmodelled
  }

  /** Elements separated by commas, one at least. */
  function ParseElements(c: seq<byte>, off: nat, depth: nat): (r: Parse<Elements>)
    ensures r.Done? ==> off < r.off <= |c|
    decreases Left(c, off), 2
  {
    match ParseValue(c, SkipWs(c, off), depth)
    case Done(v, o) =>
      var next := SkipWs(c, o);
      if Sees(c, next, COMMA) then FollowedBy(v, ParseElements(c, next + 1, depth)) else Done(Item(v, NoItem), next)
    case Failed => Failed
    case OutOfBounds => OutOfBounds
    case Unmodelled => Unmodelled
  }

  function FollowedBy(v: Json, r: Parse<Elements>): Parse<Elements> {
    if r.Done? then Done(Item(v, r.value), r.off) else r
  }

  function ParseObject(c: seq<byte>, off: nat, depth: nat): (r: Parse<Json>)
    requires off < |c|
    ensures r.Done? ==> off < r.off <= |c|
    decreases Left(c, off), 0
  {
    if depth >= NESTING_LIMIT then Failed
    else
      var o := SkipWs(c, off + 1);
      if Sees(c, o, CLOSE_OBJECT) then Done(Object(NoMember), o + 1)
      else if o >= |c| then Failed
      else ObjectValue(c, ParseMembers(c, o, depth + 1))
  }

  function ObjectValue(c: seq<byte>, r: Parse<Members>): Parse<Json> {
    match r
    case Done(members, o) => if Sees(c, o, CLOSE_OBJECT) then Done(Object(members), o + 1) else Failed
    case Failed => Failed
    case OutOfBounds => OutOfBounds
    case Unmodelled => Unmodelled
  }

  /** Members separated by commas, one at least. */
  function ParseMembers(c: seq<byte>, off: nat, depth: nat): (r: Parse<Members>)
    ensures r.Done? ==> off < r.off <= |c|
    decreases Left(c, off), 3
  {
    match ParseString(c, SkipWs(c, off))
    case Done(name, o) =>
      var colon := SkipWs(c, o);
      if !Sees(c, colon, COLON) then Failed else NamedMembers(c, colon + 1, depth, name)
    case Failed => Failed
    case OutOfBounds => OutOfBounds
    case Unmodelled => Unmodelled
  }

  /** The rest of them, once the first name and its colon have been read. */
  function NamedMembers(c: seq<byte>, off: nat, depth: nat, name: seq<byte>): (r: Parse<Members>)
    ensures r.Done? ==> off < r.off <= |c|
    decreases Left(c, off), 2
  {
    match ParseValue(c, SkipWs(c, off), depth)
    case Done(v, o) =>
      var next := SkipWs(c, o);
      if Sees(c, next, COMMA) then MemberThen(name, v, ParseMembers(c, next + 1, depth))
      else Done(Member(name, v, NoMember), next)
    case Failed => Failed
    case OutOfBounds => OutOfBounds
    case Unmodelled => Unmodelled
  }

  function MemberThen(name: seq<byte>, v: Json, r: Parse<Members>): Parse<Members> {
    if r.Done? then Done(Member(name, v, r.value), r.off) else r
  }

  const BYTE_ORDER_MARK: seq<byte> := [0xEF, 0xBB, 0xBF]

  function SkipBom(c: seq<byte>): nat {
    if |c| > 4 && c[..3] == BYTE_ORDER_MARK then 3 else 0
  }

  /** A whole text, its terminating NUL included in `c`. */
  function ParseText(c: seq<byte>, requireNul: bool): Parse<Json> {
    if c == [] then Failed
    else
      var r := ParseValue(c, SkipWs(c, SkipBom(c)), 0);
      if r.Done? && requireNul then
        var o := SkipWs(c, r.off);
        if Sees(c, o, 0) then Done(r.value, o) else Failed
      else r
  }
}
