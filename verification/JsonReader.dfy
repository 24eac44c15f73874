/** The parser itself: an object whose offset and nesting depth its methods move
    (src/cJSON/cJSON.c, lines 300 to 388, 788 to 914, 1053 to 1093, 1327 to 1379, 1456 to 1551
    and 1616 to 1726). It fills an item; children are new items, linked as they are read. */
module JsonReader {
  import opened Bytes
  import opened JsonText
  import opened JsonStrings
  import opened JsonParser
  import opened JsonList
  import opened JsonChildren

  /** The same failure for another kind of value. */
  function Failure<T, U>(r: Parse<T>): (f: Parse<U>)
    requires !r.Done?
  {
    match r
    case Failed => Failed
    case OutOfBounds => OutOfBounds
    case Unmodelled => Unmodelled
  }

  /** What a parse method reports: the value is in the items. */
  function Told<T>(r: Parse<T>): Parse<()> {
    if r.Done? then Done((), r.off) else Failure(r)
  }

  /** What parsing comes to when `vs` have been read before. */
  function ElementsListed(vs: seq<Json>, r: Parse<Elements>): Parse<Elements> {
    if r.Done? then Done(ListOf(vs, r.value), r.off) else r
  }

  lemma {:induction false} ListOfSnoc(vs: seq<Json>, v: Json, rest: Elements)
    ensures ListOf(vs + [v], rest) == ListOf(vs, Item(v, rest))
    decreases |vs|
  {
    if vs == [] {
      assert [] + [v] == [v] && [v][1..] == [];
    } else {
      assert (vs + [v])[1..] == vs[1..] + [v];
      ListOfSnoc(vs[1..], v, rest);
    }
  }

  lemma ListedSnoc(vs: seq<Json>, v: Json, r: Parse<Elements>)
    ensures ElementsListed(vs, FollowedBy(v, r)) == ElementsListed(vs + [v], r)
    ensures r.Done? ==> ElementsListed(vs, Done(Item(v, NoItem), r.off)) == Done(ListOf(vs + [v], NoItem), r.off)
  {
    if r.Done? {
      ListOfSnoc(vs, v, r.value);
      ListOfSnoc(vs, v, NoItem);
    }
  }

  function MembersListed(ms: seq<Named>, r: Parse<Members>): Parse<Members> {
    if r.Done? then Done(MembersOf(ms, r.value), r.off) else r
  }

  lemma {:induction false} MembersOfSnoc(ms: seq<Named>, m: Named, rest: Members)
    ensures MembersOf(ms + [m], rest) == MembersOf(ms, Member(m.name, m.value, rest))
    decreases |ms|
  {
    if ms == [] {
      assert [] + [m] == [m] && [m][1..] == [];
    } else {
      assert (ms + [m])[1..] == ms[1..] + [m];
      MembersOfSnoc(ms[1..], m, rest);
    }
  }

  lemma NoneListed(r: Parse<Elements>)
    ensures ElementsListed([], r) == r
  {
  }

  /** One step of the loop over elements, on what is still to come. */
  lemma ElementsStep(c: seq<byte>, off: nat, depth: nat, vs: seq<Json>)
    ensures var v := ParseValue(c, SkipWs(c, off), depth);
      ElementsListed(vs, ParseElements(c, off, depth))
      == if !v.Done? then Failure(v)
         else
           var next := SkipWs(c, v.off);
           if Sees(c, next, COMMA) then ElementsListed(vs + [v.value], ParseElements(c, next + 1, depth))
           else Done(ListOf(vs + [v.value], NoItem), next)
  {
    hide ParseValue, SkipWs;
    var v := ParseValue(c, SkipWs(c, off), depth);
    if v.Done? {
      var next := SkipWs(c, v.off);
      ListOfSnoc(vs, v.value, NoItem);
      if Sees(c, next, COMMA) {
        ListedSnoc(vs, v.value, ParseElements(c, next + 1, depth));
      }
    }
  }

  /** A name and where the colon behind it is. */
  function ParseName(c: seq<byte>, off: nat): (r: Parse<seq<byte>>)
    ensures r.Done? ==> off <= r.off < |c|
  {
    match ParseString(c, SkipWs(c, off))
    case Done(name, o) => if Sees(c, SkipWs(c, o), COLON) then Done(name, SkipWs(c, o)) else Failed
    case Failed => Failed
    case OutOfBounds => OutOfBounds
    case Unmodelled => Unmodelled
  }

  /** A name, a colon and a value. */
  function ParseMember(c: seq<byte>, off: nat, depth: nat): (r: Parse<Named>)
    ensures r.Done? ==> off < r.off <= |c|
  {
    match ParseName(c, off)
    case Done(name, o) => (
      match ParseValue(c, SkipWs(c, o + 1), depth)
      case Done(v, end) => Done(Named(name, v), end)
      case Failed => Failed
      case OutOfBounds => OutOfBounds
      case Unmodelled => Unmodelled
    )
    case Failed => Failed
    case OutOfBounds => OutOfBounds
    case Unmodelled => Unmodelled
  }

  lemma NoMembersListed(r: Parse<Members>)
    ensures MembersListed([], r) == r
  {
  }

  /** The same step for members. */
  lemma MembersStep(c: seq<byte>, off: nat, depth: nat, ms: seq<Named>)
    ensures var m := ParseMember(c, off, depth);
      MembersListed(ms, ParseMembers(c, off, depth))
      == if !m.Done? then Failure(m)
         else
           var next := SkipWs(c, m.off);
           if Sees(c, next, COMMA) then MembersListed(ms + [m.value], ParseMembers(c, next + 1, depth))
           else Done(MembersOf(ms + [m.value], NoMember), next)
  {
    hide ParseString, ParseValue, SkipWs;
    var m := ParseMember(c, off, depth);
    if m.Done? {
      var next := SkipWs(c, m.off);
      MembersOfSnoc(ms, m.value, NoMember);
      if Sees(c, next, COMMA) {
        var r := ParseMembers(c, next + 1, depth);
        if r.Done? {
          MembersOfSnoc(ms, m.value, r.value);
        }
      }
    }
  }

  class ParseBuffer {
    const content: seq<byte>
    var offset: nat
    var depth: nat

    constructor (content: seq<byte>)
      ensures this.content == content && offset == 0 && depth == 0
    {
      this.content := content;
      offset, depth := 0, 0;
    }

    method SkipWhitespace()
      modifies this`offset
      ensures offset == SkipWs(content, old(offset))
    {
      if offset >= |content| {
        return;
      }
      while offset < |content| && content[offset] <= 32
        invariant old(offset) <= offset <= |content| && SkipBlank(content, offset) == SkipBlank(content, old(offset))
      {
        offset := offset + 1;
      }
      if offset == |content| {
        offset := offset - 1;
      }
    }

    method ReadNumber(item: Item) returns (r: Parse<()>)
      requires offset < |content|
      modifies this`offset, item`kind, item`number
      ensures r == Told(ParseNumber(content, old(offset))) && (r.Done? ==> offset == r.off)
      ensures r.Done? ==>
        item.kind == NumberKind && ParseNumber(content, old(offset)).value == Number(item.number)
    {
      hide Convert;
      var i: nat := 0;
      while i < NUMBER_SIZE && offset + i < |content| && NumberChar(content[offset + i])
        invariant i <= NUMBER_SIZE && offset + i <= |content|
        invariant RunEnd(content, offset + i, NUMBER_SIZE - i) == RunEnd(content, offset, NUMBER_SIZE)
      {
        i := i + 1;
      }
      var number := Convert(content[offset..offset + i]);
      match number
      case Done(v, n) =>
        offset := offset + n;
        item.kind, item.number := NumberKind, v;
        r := Done((), offset);
      case _ =>
        r := Failure(number);
    }

    /** The end of a literal's contents and the backslashes to leave out. */
    method MeasureString(start: nat) returns (end: Option<nat>, skipped: nat)
      ensures end == FindEnd(content, start) && (end.Some? ==> skipped == Skipped(content, start))
    {
      var p: nat := start;
      skipped := 0;
      while p < |content| && content[p] != QUOTE
        invariant FindEnd(content, p) == FindEnd(content, start)
        invariant skipped + Skipped(content, p) == Skipped(content, start)
        decreases |content| - p
      {
        if content[p] == BACKSLASH {
          if p + 1 >= |content| {
            return None, skipped;
          }
          skipped := skipped + 1;
          p := p + 1;
        }
        p := p + 1;
      }
      end := if p < |content| then Some(p) else None;
    }

    method ReadString(item: Item) returns (r: Parse<()>)
      modifies this`offset, item`kind, item`text
      ensures r == Told(ParseString(content, old(offset))) && (r.Done? ==> offset == r.off)
      ensures r.Done? ==>
        item.kind == StringKind && item.text == Some(ParseString(content, old(offset)).value)
    {
      hide FindEnd, Skipped, Decode;
      if offset >= |content| {
        return OutOfBounds;
      }
      if content[offset] != QUOTE {
        return Failed;
      }
      var start := offset + 1;
      var end, skipped := MeasureString(start);
      if end.None? {
        return Failed;
      }
      WayFits(content, start, start, end.value);
      var output := new byte[end.value - offset - skipped + 1];
      var ok, n := Unescape(content, start, end.value, output);
      if !ok {
        return Failed;
      }
      item.kind, item.text := StringKind, Some(CString(output[..n]));
      offset := end.value + 1;
      r := Done((), offset);
    }

    /** Reads a value into an item that has no children yet. Its place in a list and its name
        are left alone. */
    method ReadValue(item: Item) returns (r: Parse<()>, ghost n: Node)
      requires item.child == null
      modifies this, item`kind, item`number, item`text, item`child
      ensures r == Told(ParseValue(content, old(offset), old(depth)))
      ensures r.Done? ==> offset == r.off && depth == old(depth)
      ensures r.Done? ==>
        && n.item == item && fresh(n.below) && Valid(n)
        && Denotes(n, ParseValue(content, old(offset), old(depth)).value)
      decreases Left(content, offset), 3
    {
      hide ParseNumber, ParseString, ParseArray, ParseObject, Reads;
      n := Node(item, [], {});
      if Literally(content, offset, NULL_TEXT) {
        item.kind := NullKind;
        r, offset := Done((), offset + 4), offset + 4;
      } else if Literally(content, offset, FALSE_TEXT) {
        item.kind := FalseKind;
        r, offset := Done((), offset + 5), offset + 5;
      } else if Literally(content, offset, TRUE_TEXT) {
        item.kind := TrueKind;
        r, offset := Done((), offset + 4), offset + 4;
      } else if offset >= |content| {
        r := Failed;
      } else if content[offset] == QUOTE {
        r := ReadString(item);
      } else if content[offset] == MINUS || IsDigit(content[offset]) {
        r := ReadNumber(item);
      } else if content[offset] == OPEN_ARRAY {
        r, n := ReadArray(item);
      } else if content[offset] == OPEN_OBJECT {
        r, n := ReadObject(item);
      } else {
        r := Failed;
      }
    }

    method ReadArray(item: Item) returns (r: Parse<()>, ghost n: Node)
      requires offset < |content| && item.child == null
      modifies this, item`kind, item`child
      ensures r == Told(ParseArray(content, old(offset), old(depth)))
      ensures r.Done? ==> offset == r.off && depth == old(depth)
      ensures r.Done? ==>
        && n.item == item && fresh(n.below) && Valid(n)
        && Denotes(n, ParseArray(content, old(offset), old(depth)).value)
      decreases Left(content, offset), 2
    {
      hide ParseElements, SkipWs, Built, Valid, Denotes, ListOf, Items;
      n := Node(item, [], {});
      if depth >= NESTING_LIMIT {
        return Failed, n;
      }
      NothingBuilt(item);
      var head: Item?, current: Item? := null, null;
      ghost var vs: seq<Json> := [];
      depth := depth + 1;
      offset := offset + 1;
      SkipWhitespace();
      if !Sees(content, offset, CLOSE_ARRAY) {
        if offset >= |content| {
          return Failed, n;
        }
        offset := offset - 1;
        var elements;
        elements, head, current, n, vs := ReadElements(item);
        if !elements.Done? {
          return elements, n;
        }
        if !Sees(content, offset, CLOSE_ARRAY) {
          return Failed, n;
        }
      }
      depth := depth - 1;
      FinishArray(item, head, current, n, vs);
      offset := offset + 1;
      r := Done((), offset);
    }

    /** The loop over the elements; they are to be the children of `item`. */
    method ReadElements(ghost item: Item)
      returns (r: Parse<()>, head: Item?, current: Item?, ghost m: Node, ghost vs: seq<Json>)
      requires offset < |content|
      modifies this
      ensures r == Told(ParseElements(content, old(offset) + 1, old(depth)))
      ensures r.Done? ==> offset == r.off && depth == old(depth)
      ensures r.Done? ==>
        && ParseElements(content, old(offset) + 1, old(depth)).value == ListOf(vs, NoItem)
        && m.item == item && fresh(m.below) && Built(m, vs)
        && head == At(Heads(m.kids), 0) && current == Last(m.kids) && (head == null || fresh(head))
      decreases Left(content, offset), 1
    {
      hide ParseElements, ParseValue, SkipWs, ListOf, ElementsListed, Built;
      head, current, m, vs := null, null, Node(item, [], {}), [];
      NothingBuilt(item);
      ghost var all := ParseElements(content, offset + 1, depth);
      NoneListed(all);
      while true
        invariant all == ElementsListed(vs, ParseElements(content, offset + 1, depth))
        invariant old(offset) <= offset < |content| && depth == old(depth)
        invariant m.item == item && fresh(m.below) && Built(m, vs)
        invariant head == At(Heads(m.kids), 0) && current == Last(m.kids)
        invariant (head == null || fresh(head)) && (current == null || fresh(current))
        decreases |content| - offset
      {
        ElementsStep(content, offset + 1, depth, vs);
        var v;
        ghost var w;
        v, head, current, m, w := ReadElement(head, current, m, vs);
        if !v.Done? {
          return v, head, current, m, vs;
        }
        vs := vs + [w];
        if !Sees(content, offset, COMMA) {
          break;
        }
      }
      r := Done((), offset);
    }

    /** One element: a new item, linked and then filled. */
    method ReadElement(head: Item?, current: Item?, ghost m: Node, ghost vs: seq<Json>)
      returns (r: Parse<()>, head': Item?, current': Item?, ghost g: Node, ghost w: Json)
      requires offset < |content| && Built(m, vs) && head == At(Heads(m.kids), 0) && current == Last(m.kids)
      modifies this, if current == null then {} else {current}`next
      ensures r == Told(ParseValue(content, SkipWs(content, old(offset) + 1), old(depth)))
      ensures r.Done? ==> offset == SkipWs(content, r.off) && depth == old(depth)
      ensures r.Done? ==>
        && w == ParseValue(content, SkipWs(content, old(offset) + 1), old(depth)).value
        && g.item == m.item && fresh(g.below - m.below) && Built(g, vs + [w])
        && head' == At(Heads(g.kids), 0) && current' == Last(g.kids)
        && fresh(current') && (head' == head || fresh(head'))
      decreases Left(content, offset), 0
    {
      hide ParseValue, SkipWs, Built, Hanging, Valid, Denotes;
      var item := AddChild(current, m, vs);
      head', current' := if head == null then item else head, item;
      offset := offset + 1;
      SkipWhitespace();
      ghost var n;
      r, n := ReadValue(item);
      g, w := m, Null;
      if r.Done? {
        w := ParseValue(content, SkipWs(content, old(offset) + 1), old(depth)).value;
        ChildBuilt(m, vs, n, w);
        g := Grown(m, |m.kids|, n);
        GrownEnds(m, n);
        SkipWhitespace();
      }
    }

    lemma GrownEnds(m: Node, n: Node)
      ensures var kids := Grown(m, |m.kids|, n).kids;
        && Last(kids) == n.item && At(Heads(kids), 0) == if m.kids == [] then n.item else m.kids[0].item
    {
    }

    method ReadObject(item: Item) returns (r: Parse<()>, ghost n: Node)
      requires offset < |content| && item.child == null
      modifies this, item`kind, item`child
      ensures r == Told(ParseObject(content, old(offset), old(depth)))
      ensures r.Done? ==> offset == r.off && depth == old(depth)
      ensures r.Done? ==>
        && n.item == item && fresh(n.below) && Valid(n)
        && Denotes(n, ParseObject(content, old(offset), old(depth)).value)
      decreases Left(content, offset), 2
    {
      hide ParseMembers, SkipWs, MembersBuilt, Valid, Denotes, MembersOf, Items;
      n := Node(item, [], {});
      if depth >= NESTING_LIMIT {
        return Failed, n;
      }
      NoMembersBuilt(item);
      var head: Item?, current: Item? := null, null;
      ghost var ms: seq<Named> := [];
      depth := depth + 1;
      offset := offset + 1;
      SkipWhitespace();
      if !Sees(content, offset, CLOSE_OBJECT) {
        if offset >= |content| {
          return Failed, n;
        }
        offset := offset - 1;
        var members;
        members, head, current, n, ms := ReadMembers(item);
        if !members.Done? {
          return members, n;
        }
        if !Sees(content, offset, CLOSE_OBJECT) {
          return Failed, n;
        }
      }
      depth := depth - 1;
      FinishObject(item, head, current, n, ms);
      offset := offset + 1;
      r := Done((), offset);
    }

    /** The loop over the members; they are to be the children of `item`. */
    method ReadMembers(ghost item: Item)
      returns (r: Parse<()>, head: Item?, current: Item?, ghost m: Node, ghost ms: seq<Named>)
      requires offset < |content|
      modifies this
      ensures r == Told(ParseMembers(content, old(offset) + 1, old(depth)))
      ensures r.Done? ==> offset == r.off && depth == old(depth)
      ensures r.Done? ==>
        && ParseMembers(content, old(offset) + 1, old(depth)).value == MembersOf(ms, NoMember)
        && m.item == item && fresh(m.below) && MembersBuilt(m, ms)
        && head == At(Heads(m.kids), 0) && current == Last(m.kids) && (head == null || fresh(head))
      decreases Left(content, offset), 1
    {
      hide ParseMembers, ParseMember, SkipWs, MembersOf, MembersListed, MembersBuilt;
      head, current, m, ms := null, null, Node(item, [], {}), [];
      NoMembersBuilt(item);
      ghost var all := ParseMembers(content, offset + 1, depth);
      NoMembersListed(all);
      while true
        invariant all == MembersListed(ms, ParseMembers(content, offset + 1, depth))
        invariant old(offset) <= offset < |content| && depth == old(depth)
        invariant m.item == item && fresh(m.below) && MembersBuilt(m, ms)
        invariant head == At(Heads(m.kids), 0) && current == Last(m.kids)
        invariant (head == null || fresh(head)) && (current == null || fresh(current))
        decreases |content| - offset
      {
        MembersStep(content, offset + 1, depth, ms);
        var v;
        ghost var w;
        v, head, current, m, w := ReadMember(head, current, m, ms);
        if !v.Done? {
          return v, head, current, m, ms;
        }
        ms := ms + [w];
        if !Sees(content, offset, COMMA) {
          break;
        }
      }
      r := Done((), offset);
    }

    /** The name is read as the item's text, then moved. */
    method ReadName(item: Item) returns (r: Parse<()>)
      requires offset < |content|
      modifies this`offset, item`kind, item`text, item`name
      ensures r == Told(ParseName(content, old(offset) + 1))
      ensures r.Done? ==> offset == r.off && item.name == Some(ParseName(content, old(offset) + 1).value)
    {
      hide ParseString, SkipWs;
      offset := offset + 1;
      SkipWhitespace();
      r := ReadString(item);
      if !r.Done? {
        return;
      }
      SkipWhitespace();
      item.name := item.text;
      item.text := None;
      r := if Sees(content, offset, COLON) then Done((), offset) else Failed;
    }

    /** One member: a new item, linked, named and then filled. */
    method ReadMember(head: Item?, current: Item?, ghost m: Node, ghost ms: seq<Named>)
      returns (r: Parse<()>, head': Item?, current': Item?, ghost g: Node, ghost w: Named)
      requires offset < |content| && MembersBuilt(m, ms)
      requires head == At(Heads(m.kids), 0) && current == Last(m.kids)
      modifies this, if current == null then {} else {current}`next
      ensures r == Told(ParseMember(content, old(offset) + 1, old(depth)))
      ensures r.Done? ==> offset == SkipWs(content, r.off) && depth == old(depth)
      ensures r.Done? ==>
        && w == ParseMember(content, old(offset) + 1, old(depth)).value
        && g.item == m.item && fresh(g.below - m.below) && MembersBuilt(g, ms + [w])
        && head' == At(Heads(g.kids), 0) && current' == Last(g.kids)
        && fresh(current') && (head' == head || fresh(head'))
      decreases Left(content, offset), 0
    {
      hide ParseValue, ParseName, SkipWs, MembersBuilt, HangingMember, Valid, Denotes;
      var item := AddMember(current, m, ms);
      head', current' := if head == null then item else head, item;
      g, w := m, Named([], Null);
      r := ReadName(item);
      if !r.Done? {
        return;
      }
      offset := offset + 1;
      SkipWhitespace();
      ghost var n;
      r, n := ReadValue(item);
      if r.Done? {
        w := ParseMember(content, old(offset) + 1, old(depth)).value;
        MemberBuilt(m, ms, n, w);
        g := Grown(m, |m.kids|, n);
        GrownEnds(m, n);
        SkipWhitespace();
      }
    }
  }

  /** Parses a NUL-terminated text into new items. */
  method ParseJson(text: seq<byte>, requireNul: bool) returns (r: Parse<()>, item: Item?, ghost n: Node)
    ensures r == Told(ParseText(text + [0], requireNul)) && (r.Done? <==> item != null)
    ensures r.Done? ==>
      && n.item == item && fresh(Items(n)) && item.next == null && item.prev == null && item.name == None
      && Valid(n) && Denotes(n, ParseText(text + [0], requireNul).value)
  {
    hide SkipWs, ParseValue, Valid, Denotes;
    var root := new Item();
    var buffer := new ParseBuffer(text + [0]);
    buffer.offset := SkipBom(buffer.content);
    buffer.SkipWhitespace();
    r, n := buffer.ReadValue(root);
    item := null;
    if r.Done? && requireNul {
      buffer.SkipWhitespace();
      r := if Sees(buffer.content, buffer.offset, 0) then Done((), buffer.offset) else Failed;
    }
    if r.Done? {
      item := root;
    }
  }
}
