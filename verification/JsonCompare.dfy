/** Comparing items with all that is below them, names in case-sensitive mode
    (src/cJSON/cJSON.c, lines 545 to 549, 1895 to 1925 and 3001 to 3124). */
module JsonCompare {
  import opened Bytes
  import opened JsonText
  import opened JsonList

  /** The first member with a name. */
  function Lookup(members: Members, name: seq<byte>): (r: Option<Json>)
    ensures r.Some? ==> Size(r.value) < MembersSize(members)
  {
    match members
    case NoMember => None
    case Member(n, value, rest) => if n == name then Some(value) else Lookup(rest, name)
  }

  function Abs(n: int): nat {
    if n < 0 then -n else n
  }

  /** Equal up to the rounding of double precision: two to the 52nd times the difference is
      no more than the larger number. */
  predicate CloseEnough(a: int, b: int) {
    Abs(a - b) * 0x10_0000_0000_0000 <= Larger(Abs(a), Abs(b))
  }

  lemma CloseIsEqual(a: int, b: int)
    requires INT_MIN <= a <= INT_MAX && INT_MIN <= b <= INT_MAX
    ensures CloseEnough(a, b) <==> a == b
  {
  }

  predicate Compare(a: Json, b: Json)
    decreases Size(a) + Size(b), 0
  {
    match (a, b)
    case (Null, Null) => true
    case (False, False) => true
    case (True, True) => true
    case (Number(m), Number(n)) => CloseEnough(m, n)
    case (Str(s), Str(t)) => s == t
    case (Array(x), Array(y)) => CompareElements(x, y)
    case (Object(x), Object(y)) => AllFound(x, y) && AllFound(y, x)
    case _ => false
  }

  predicate CompareElements(x: Elements, y: Elements)
    decreases ElementsSize(x) + ElementsSize(y), 0
  {
    match (x, y)
    case (NoItem, NoItem) => true
    case (Item(v, more), Item(w, rest)) => Compare(v, w) && CompareElements(more, rest)
    case _ => false
  }

  /** Every member of `x` equals the one that its name finds in `y`. */
  predicate AllFound(x: Members, y: Members)
    decreases MembersSize(x) + MembersSize(y), 1
  {
    x.Member? ==>
      Lookup(y, x.name).Some? && Compare(x.value, Lookup(y, x.name).value) && AllFound(x.rest, y)
  }

  /** What a value denotes: arrays are sequences, objects finite maps in which the first of
      several members with one name counts. */
  datatype Value =
    | Plain(v: Json)
    | Sequence(vs: seq<Value>)
    | Mapping(m: map<seq<byte>, Value>)

  function Denote(v: Json): Value {
    match v
    case Array(items) => Sequence(SeqOf(items))
    case Object(members) => Mapping(MapOf(members))
    case _ => Plain(v)
  }

  function SeqOf(items: Elements): seq<Value> {
    if items.NoItem? then [] else [Denote(items.value)] + SeqOf(items.rest)
  }

  function MapOf(members: Members): map<seq<byte>, Value> {
    if members.NoMember? then map[] else MapOf(members.rest)[members.name := Denote(members.value)]
  }

  /** Members with one name, if there are several, denote the same. */
  predicate Coherent(v: Json) {
    match v
    case Array(items) => CoherentElements(items)
    case Object(members) => CoherentIn(members, MapOf(members))
    case _ => true
  }

  predicate CoherentElements(items: Elements) {
    items.Item? ==> Coherent(items.value) && CoherentElements(items.rest)
  }

  predicate CoherentIn(members: Members, m: map<seq<byte>, Value>) {
    members.Member? ==>
      && members.name in m && m[members.name] == Denote(members.value) && Coherent(members.value)
      && CoherentIn(members.rest, m)
  }

  lemma {:induction false} LookupMap(members: Members, name: seq<byte>)
    ensures name in MapOf(members) <==> Lookup(members, name).Some?
    ensures name in MapOf(members) ==> MapOf(members)[name] == Denote(Lookup(members, name).value)
  {
    if members.Member? {
      LookupMap(members.rest, name);
    }
  }

  lemma {:induction false} CoherentFound(members: Members, m: map<seq<byte>, Value>, name: seq<byte>)
    requires CoherentIn(members, m) && Lookup(members, name).Some?
    ensures Coherent(Lookup(members, name).value)
  {
    if members.Member? && members.name != name {
      CoherentFound(members.rest, m, name);
    }
  }

  /** Members that agree with a map denote a part of it. */
  lemma {:induction false} PartOf(members: Members, m: map<seq<byte>, Value>)
    requires CoherentIn(members, m)
    ensures forall n :: n in MapOf(members) ==> n in m && m[n] == MapOf(members)[n]
  {
    if members.Member? {
      PartOf(members.rest, m);
    }
  }

  lemma BothWays(x: Members, y: Members)
    requires CoherentIn(x, MapOf(y)) && CoherentIn(y, MapOf(x))
    ensures MapOf(x) == MapOf(y)
  {
    hide CoherentIn;
    PartOf(x, MapOf(y));
    PartOf(y, MapOf(x));
  }

  lemma {:induction false} CompareMeans(a: Json, b: Json)
    requires Proper(a) && Proper(b)
    ensures Compare(a, b) <==> Coherent(a) && Coherent(b) && Denote(a) == Denote(b)
    decreases Size(a) + Size(b), 0
  {
    match (a, b)
    case (Number(m), Number(n)) => CloseIsEqual(m, n);
    case (Array(x), Array(y)) => ElementsMean(x, y);
    case (Object(x), Object(y)) => MembersMean(x, y);
    case _ =>
  }

  lemma {:induction false} ElementsMean(x: Elements, y: Elements)
    requires ProperElements(x) && ProperElements(y)
    ensures CompareElements(x, y) <==> CoherentElements(x) && CoherentElements(y) && SeqOf(x) == SeqOf(y)
    decreases ElementsSize(x) + ElementsSize(y), 0
  {
    if x.Item? && y.Item? {
      CompareMeans(x.value, y.value);
      ElementsMean(x.rest, y.rest);
      assert SeqOf(x)[0] == Denote(x.value) && SeqOf(y)[0] == Denote(y.value);
      assert SeqOf(x)[1..] == SeqOf(x.rest) && SeqOf(y)[1..] == SeqOf(y.rest);
    }
  }

  lemma {:induction false} MembersMean(x: Members, y: Members)
    requires ProperMembers(x) && ProperMembers(y)
    ensures AllFound(x, y) && AllFound(y, x)
       <==> CoherentIn(x, MapOf(x)) && CoherentIn(y, MapOf(y)) && MapOf(x) == MapOf(y)
    decreases MembersSize(x) + MembersSize(y), 2
  {
    hide AllFound, CoherentIn, MapOf;
    if AllFound(x, y) && AllFound(y, x) {
      FoundMeans(x, y);
      FoundMeans(y, x);
      BothWays(x, y);
    }
    if CoherentIn(x, MapOf(x)) && CoherentIn(y, MapOf(y)) && MapOf(x) == MapOf(y) {
      MeansFound(x, y);
      MeansFound(y, x);
    }
  }

  /** Every member of `x` found in `y`: it agrees with what `y` denotes. */
  lemma {:induction false} FoundMeans(x: Members, y: Members)
    requires ProperMembers(x) && ProperMembers(y) && AllFound(x, y)
    ensures CoherentIn(x, MapOf(y))
    decreases MembersSize(x) + MembersSize(y), 1
  {
    hide MapOf, Coherent, Denote;
    if x.Member? {
      LookupMap(y, x.name);
      LookupProper(y, x.name);
      CompareMeans(x.value, Lookup(y, x.name).value);
      FoundMeans(x.rest, y);
    }
  }

  lemma {:induction false} LookupProper(members: Members, name: seq<byte>)
    requires ProperMembers(members) && Lookup(members, name).Some?
    ensures Proper(Lookup(members, name).value)
  {
    if members.Member? && members.name != name {
      LookupProper(members.rest, name);
    }
  }

  lemma {:induction false} MeansFound(x: Members, y: Members)
    requires ProperMembers(x) && ProperMembers(y) && CoherentIn(x, MapOf(y)) && CoherentIn(y, MapOf(y))
    ensures AllFound(x, y)
    decreases MembersSize(x) + MembersSize(y), 1
  {
    hide MapOf, Coherent, Denote;
    if x.Member? {
      LookupMap(y, x.name);
      LookupProper(y, x.name);
      CoherentFound(y, MapOf(y), x.name);
      CompareMeans(x.value, Lookup(y, x.name).value);
      MeansFound(x.rest, y);
    }
  }

  /** Comparison is symmetric and transitive on all values, and reflexive on coherent ones. */
  lemma CompareEquivalence(a: Json, b: Json, c: Json)
    requires Proper(a) && Proper(b) && Proper(c)
    ensures Compare(a, b) == Compare(b, a)
    ensures Compare(a, b) && Compare(b, c) ==> Compare(a, c)
    ensures Compare(a, a) == Coherent(a)
  {
    hide Compare, Coherent, Denote;
    CompareMeans(a, b);
    CompareMeans(b, a);
    CompareMeans(b, c);
    CompareMeans(a, c);
    CompareMeans(a, a);
  }

  /** Names that occur once make a value coherent. */
  predicate UniqueNames(v: Json) {
    match v
    case Array(items) => UniqueElements(items)
    case Object(members) => UniqueMembers(members)
    case _ => true
  }

  predicate UniqueElements(items: Elements) {
    items.Item? ==> UniqueNames(items.value) && UniqueElements(items.rest)
  }

  predicate UniqueMembers(members: Members) {
    members.Member? ==>
      Lookup(members.rest, members.name).None? && UniqueNames(members.value) && UniqueMembers(members.rest)
  }

  lemma {:induction false} UniqueCoherent(v: Json)
    requires UniqueNames(v)
    ensures Coherent(v)
    decreases v
  {
    match v
    case Array(items) => UniqueElementsCoherent(items);
    case Object(members) => UniqueMembersCoherent(members, MapOf(members));
    case _ =>
  }

  lemma {:induction false} UniqueElementsCoherent(items: Elements)
    requires UniqueElements(items)
    ensures CoherentElements(items)
    decreases items
  {
    if items.Item? {
      UniqueCoherent(items.value);
      UniqueElementsCoherent(items.rest);
    }
  }

  lemma {:induction false} UniqueMembersCoherent(members: Members, m: map<seq<byte>, Value>)
    requires UniqueMembers(members)
    requires forall n :: n in MapOf(members) ==> n in m && m[n] == MapOf(members)[n]
    ensures CoherentIn(members, m)
    decreases members
  {
    if members.Member? {
      UniqueCoherent(members.value);
      LookupMap(members.rest, members.name);
      assert members.name in MapOf(members);
      UniqueMembersCoherent(members.rest, m);
    }
  }

  const TWICE := Object(Member([97], Number(1), Member([97], Number(2), NoMember)))

  /** With a name used twice, a value does not even compare equal to a copy of itself. */
  lemma TwiceUnequal()
    ensures Proper(TWICE) && !Coherent(TWICE) && !Compare(TWICE, TWICE)
  {
    var one, two: seq<byte> := [97], [97];
    assert one == two;
    CompareMeans(TWICE, TWICE);
    assert MapOf(TWICE.members)[[97]] == Plain(Number(1));
  }

  lemma {:induction false} SameList(first: Item?, hs: seq<Item>, gs: seq<Item>, k: nat)
    requires Listed(first, hs) && Listed(first, gs) && k <= |hs| && k <= |gs|
    ensures hs[..k] == gs[..k] && At(hs, k) == At(gs, k)
    decreases k
  {
    if k > 0 {
      SameList(first, hs, gs, k - 1);
      assert hs[k - 1].next == At(hs, k) && gs[k - 1].next == At(gs, k);
    }
  }

  lemma OneList(first: Item?, hs: seq<Item>, gs: seq<Item>)
    requires Listed(first, hs) && Listed(first, gs)
    ensures hs == gs
  {
    SameList(first, hs, gs, if |hs| < |gs| then |hs| else |gs|);
    assert hs[..|hs|] == hs && gs[..|gs|] == gs;
  }

  /** An item stands for one value. */
  lemma {:induction false} OneValue(n: Node, m: Node, v: Json, w: Json)
    requires Valid(n) && Valid(m) && n.item == m.item && Denotes(n, v) && Denotes(m, w)
    ensures v == w
    decreases n
  {
    OneList(n.item.child, Heads(n.kids), Heads(m.kids));
    assert |Heads(n.kids)| == |n.kids| && |Heads(m.kids)| == |m.kids|;
    forall k | 0 <= k < |n.kids| ensures n.kids[k].item == m.kids[k].item {
      assert Heads(n.kids)[k] == Heads(m.kids)[k];
    }
    if v.Array? {
      forall k | 0 <= k < |n.kids| ensures Values(v.items)[k] == Values(w.items)[k] {
        OneValue(n.kids[k], m.kids[k], Values(v.items)[k], Values(w.items)[k]);
      }
      SameValues(v.items, w.items);
    } else if v.Object? {
      forall k | 0 <= k < |n.kids| ensures Pairs(v.members)[k] == Pairs(w.members)[k] {
        OneValue(n.kids[k], m.kids[k], Pairs(v.members)[k].value, Pairs(w.members)[k].value);
      }
      SamePairs(v.members, w.members);
    }
  }

  lemma {:induction false} SameValues(x: Elements, y: Elements)
    requires Values(x) == Values(y)
    ensures x == y
  {
    if x.Item? {
      assert Values(x)[1..] == Values(x.rest) && Values(y)[1..] == Values(y.rest);
      assert Values(x)[0] == x.value && Values(y)[0] == y.value;
      SameValues(x.rest, y.rest);
    }
  }

  lemma {:induction false} SamePairs(x: Members, y: Members)
    requires Pairs(x) == Pairs(y)
    ensures x == y
  {
    if x.Member? {
      assert Pairs(x)[1..] == Pairs(x.rest) && Pairs(y)[1..] == Pairs(y.rest);
      assert Pairs(x)[0] == Named(x.name, x.value) && Pairs(y)[0] == Named(y.name, y.value);
      SamePairs(x.rest, y.rest);
    }
  }

  lemma {:induction false} LookupAt(members: Members, name: seq<byte>, k: nat)
    requires k <= |Pairs(members)| && forall j :: 0 <= j < k ==> Pairs(members)[j].name != name
    requires k < |Pairs(members)| ==> Pairs(members)[k].name == name
    ensures Lookup(members, name) == if k < |Pairs(members)| then Some(Pairs(members)[k].value) else None
    decreases members
  {
    if members.Member? {
      assert Pairs(members)[0] == Named(members.name, members.value);
      if k > 0 {
        assert Pairs(members)[1..] == Pairs(members.rest);
        LookupAt(members.rest, name, k - 1);
      }
    }
  }

  /** Looks a name up, item by item; the search ends at an item without a name. */
  method GetObjectItem(parent: Item, name: seq<byte>, ghost n: Node) returns (item: Item?, ghost k: nat)
    requires n.item == parent && Valid(n)
    ensures k <= |n.kids| && forall j :: 0 <= j < k ==> n.kids[j].item.name.Some? && n.kids[j].item.name.value != name
    ensures if k < |n.kids| && n.kids[k].item.name == Some(name) then item == n.kids[k].item
            else item == null && (k == |n.kids| || n.kids[k].item.name.None?)
  {
    var current := parent.child;
    k := 0;
    while current != null && current.name.Some? && current.name.value != name
      invariant k <= |n.kids| && current == At(Heads(n.kids), k)
      invariant forall j :: 0 <= j < k ==> n.kids[j].item.name.Some? && n.kids[j].item.name.value != name
      decreases |n.kids| - k
    {
      assert current == Heads(n.kids)[k];
      current := current.next;
      k := k + 1;
    }
    item := if current == null || current.name.None? then null else current;
  }

  ghost predicate Good(v: Json) {
    Proper(v) && Coherent(v)
  }

  /** Items that have nothing in common, or one of which is coherent. (Items may have parts in
      common when one has been made a reference to another.) */
  ghost predicate Fair(n: Node, m: Node, v: Json, w: Json) {
    Items(n) !! Items(m) || Good(v) || Good(w)
  }

  /** The comparison as the source runs it, over the two lists in step or over one list with
      a search in the other. An item equals itself at once. */
  method CompareItems(a: Item, b: Item, ghost n: Node, ghost m: Node, ghost v: Json, ghost w: Json) returns (r: bool)
    requires n.item == a && Valid(n) && Denotes(n, v) && m.item == b && Valid(m) && Denotes(m, w)
    ensures a == b ==> r
    ensures Fair(n, m, v, w) ==> r == Compare(v, w)
    decreases Size(v) + Size(w), 3
  {
    if a.kind != b.kind || a.kind == Invalid {
      return false;
    }
    if a == b {
      OneValue(n, m, v, w);
      if Fair(n, m, v, w) {
        CompareMeans(v, v);
      }
      return true;
    }
    match a.kind
    case NumberKind =>
      r := CloseEnough(a.number, b.number);
    case StringKind =>
      r := a.text.Some? && a.text == b.text;
    case ArrayKind =>
      r := CompareChildren(a, b, n, m, v.items, w.items);
    case ObjectKind =>
      r := FindAll(a, b, n, m, v.members, w.members);
      if r {
        r := FindAll(b, a, m, n, w.members, v.members);
      }
    case _ =>
      r := true;
  }

  /** What is left of two arrays in step. */
  ghost predicate InStep(n: Node, m: Node, i: Elements, j: Elements, x: Elements, y: Elements) {
    Fair(n, m, Array(x), Array(y)) ==> CompareElements(x, y) == CompareElements(i, j) && Fair(n, m, Array(i), Array(j))
  }

  lemma KidsFair(n: Node, m: Node, k: nat, i: Elements, j: Elements)
    requires Framed(n) && Framed(m) && k < |n.kids| && k < |m.kids| && i.Item? && j.Item?
    requires Fair(n, m, Array(i), Array(j))
    ensures Fair(n.kids[k], m.kids[k], i.value, j.value) && Fair(n, m, Array(i.rest), Array(j.rest))
  {
    KidInside(n, k);
    KidInside(m, k);
    if Good(Array(i)) {
      ElementGood(i);
    }
    if Good(Array(j)) {
      ElementGood(j);
    }
  }

  lemma ElementGood(i: Elements)
    requires i.Item? && Good(Array(i))
    ensures Good(i.value) && Good(Array(i.rest))
  {
    assert ProperElements(i) && CoherentElements(i);
  }

  /** One step: where a pair differs, so do the arrays. */
  lemma StepOn(n: Node, m: Node, k: nat, i: Elements, j: Elements, x: Elements, y: Elements)
    requires Valid(n) && Valid(m) && k < |n.kids| && k < |m.kids| && i.Item? && j.Item? && InStep(n, m, i, j, x, y)
    ensures Fair(n, m, Array(x), Array(y)) ==>
      && Fair(n.kids[k], m.kids[k], i.value, j.value)
      && (!Compare(i.value, j.value) ==> !CompareElements(x, y))
    ensures (Fair(n, m, Array(x), Array(y)) ==> Compare(i.value, j.value)) ==> InStep(n, m, i.rest, j.rest, x, y)
  {
    hide Fair, Compare;
    if Fair(n, m, Array(x), Array(y)) {
      KidsFair(n, m, k, i, j);
    }
  }

  lemma InStepEnds(n: Node, m: Node, i: Elements, j: Elements, x: Elements, y: Elements)
    requires InStep(n, m, i, j, x, y) && (i.NoItem? || j.NoItem?)
    ensures Fair(n, m, Array(x), Array(y)) ==> CompareElements(x, y) == (i.NoItem? && j.NoItem?)
  {
  }

  /** Both lists in step. */
  method CompareChildren(a: Item, b: Item, ghost n: Node, ghost m: Node, ghost x: Elements, ghost y: Elements) returns (r: bool)
    requires n.item == a && Valid(n) && Denotes(n, Array(x)) && m.item == b && Valid(m) && Denotes(m, Array(y))
    ensures Fair(n, m, Array(x), Array(y)) ==> r == CompareElements(x, y)
    decreases ElementsSize(x) + ElementsSize(y), 2
  {
    hide Listed, Framed, Fair, Compare, CompareElements, Values, Denotes, Valid, InStep, Behind, Items;
    NextChild(n);
    NextChild(m);
    BehindNone(x);
    BehindNone(y);
    var p, q := a.child, b.child;
    ghost var k, i, j := 0, x, y;
    InStepFirst(n, m, x, y);
    while p != null && q != null
      invariant k <= |n.kids| && k <= |m.kids| && p == At(Heads(n.kids), k) && q == At(Heads(m.kids), k)
      invariant Behind(x, k, i) && Behind(y, k, j) && InStep(n, m, i, j, x, y)
      decreases |n.kids| - k
    {
      var same;
      same, p, q, i, j := ComparePair(p, q, n, m, k, i, j, x, y);
      if !same {
        return false;
      }
      k := k + 1;
    }
    ArrayKid(n, x, i, k);
    ArrayKid(m, y, j, k);
    InStepEnds(n, m, i, j, x, y);
    r := p == q;
  }

  method ComparePair(p: Item, q: Item, ghost n: Node, ghost m: Node, ghost k: nat, ghost i: Elements, ghost j: Elements,
                     ghost x: Elements, ghost y: Elements)
    returns (same: bool, p': Item?, q': Item?, ghost i': Elements, ghost j': Elements)
    requires Valid(n) && Denotes(n, Array(x)) && Valid(m) && Denotes(m, Array(y)) && InStep(n, m, i, j, x, y)
    requires k < |n.kids| && k < |m.kids| && p == n.kids[k].item && q == m.kids[k].item
    requires Behind(x, k, i) && Behind(y, k, j)
    ensures p' == At(Heads(n.kids), k + 1) && q' == At(Heads(m.kids), k + 1)
    ensures if same then Behind(x, k + 1, i') && Behind(y, k + 1, j') && InStep(n, m, i', j', x, y)
            else Fair(n, m, Array(x), Array(y)) ==> !CompareElements(x, y)
    decreases ElementsSize(x) + ElementsSize(y), 1
  {
    hide Listed, Framed, Fair, Compare, CompareElements, Values, Denotes, Valid, InStep, Behind, Items;
    NextChild(n);
    NextChild(m);
    ArrayKid(n, x, i, k);
    ArrayKid(m, y, j, k);
    assert p.next == n.kids[k].item.next && q.next == m.kids[k].item.next;
    StepOn(n, m, k, i, j, x, y);
    p', q', i', j' := p.next, q.next, i.rest, j.rest;
    same := CompareItems(p, q, n.kids[k], m.kids[k], i.value, j.value);
  }

  lemma InStepFirst(n: Node, m: Node, x: Elements, y: Elements)
    ensures InStep(n, m, x, y, x, y)
  {
  }

  /** What is left to be found. */
  ghost predicate LeftToFind(n: Node, m: Node, i: Members, x: Members, y: Members) {
    Fair(n, m, Object(x), Object(y)) ==> AllFound(x, y) == AllFound(i, y)
  }

  lemma FindStep(n: Node, m: Node, i: Members, x: Members, y: Members, same: bool)
    requires LeftToFind(n, m, i, x, y) && i.Member?
    requires Fair(n, m, Object(x), Object(y)) ==>
      same == (Lookup(y, i.name).Some? && Compare(i.value, Lookup(y, i.name).value))
    ensures if same then LeftToFind(n, m, i.rest, x, y) else Fair(n, m, Object(x), Object(y)) ==> !AllFound(x, y)
  {
    hide Fair, Compare;
  }

  lemma FindEnds(n: Node, m: Node, i: Members, x: Members, y: Members)
    ensures LeftToFind(n, m, x, x, y)
    ensures LeftToFind(n, m, i, x, y) && i.NoMember? ==> Fair(n, m, Object(x), Object(y)) ==> AllFound(x, y)
  {
    hide Fair, Compare;
  }

  /** Every child of one in turn, looked up in the other. */
  method FindAll(a: Item, b: Item, ghost n: Node, ghost m: Node, ghost x: Members, ghost y: Members) returns (r: bool)
    requires n.item == a && Valid(n) && Denotes(n, Object(x)) && m.item == b && Valid(m) && Denotes(m, Object(y))
    ensures Fair(n, m, Object(x), Object(y)) ==> r == AllFound(x, y)
    decreases MembersSize(x) + MembersSize(y), 2
  {
    hide Listed, Framed, Fair, Compare, Pairs, Denotes, Valid, Items, Lookup, AllFound, LeftToFind, BehindMembers;
    NextChild(n);
    BehindNoMember(x);
    FindEnds(n, m, x, x, y);
    var p := a.child;
    ghost var k, i := 0, x;
    while p != null
      invariant k <= |n.kids| && p == At(Heads(n.kids), k) && BehindMembers(x, k, i)
      invariant LeftToFind(n, m, i, x, y)
      decreases |n.kids| - k
    {
      ObjectKid(n, x, i, k);
      var same;
      same, p := FindOne(p, b, n, m, k, i, x, y);
      FindStep(n, m, i, x, y, same);
      if !same {
        return false;
      }
      k, i := k + 1, i.rest;
    }
    ObjectKid(n, x, i, k);
    FindEnds(n, m, i, x, y);
    r := true;
  }

  method FindOne(p: Item, b: Item, ghost n: Node, ghost m: Node, ghost k: nat, ghost i: Members, ghost x: Members, ghost y: Members)
    returns (same: bool, p': Item?)
    requires Valid(n) && Denotes(n, Object(x)) && m.item == b && Valid(m) && Denotes(m, Object(y))
    requires k < |n.kids| == |Pairs(x)| && p == n.kids[k].item && i.Member? && p.name == Some(i.name)
    requires Pairs(x)[k].value == i.value && Valid(n.kids[k]) && Denotes(n.kids[k], i.value) && Size(i.value) < MembersSize(x)
    ensures p' == At(Heads(n.kids), k + 1)
    ensures Fair(n, m, Object(x), Object(y)) ==>
      same == (Lookup(y, i.name).Some? && Compare(i.value, Lookup(y, i.name).value))
    decreases MembersSize(x) + MembersSize(y), 1
  {
    hide Listed, Framed, Fair, Compare, Pairs, Denotes, Valid, Lookup, Items;
    NextChild(n);
    p' := p.next;
    var found;
    ghost var f;
    found, f := GetObjectItem(b, p.name.value, m);
    SearchMeans(m, y, i.name, f);
    same := found != null;
    if same {
      ghost var w := Lookup(y, i.name).value;
      MembersFair(n, m, k, f, x, y);
      same := CompareItems(p, found, n.kids[k], m.kids[f], i.value, w);
    }
  }

  /** What the search for a name comes to. */
  lemma SearchMeans(m: Node, y: Members, name: seq<byte>, f: nat)
    requires Valid(m) && Denotes(m, Object(y)) && f <= |m.kids|
    requires forall j :: 0 <= j < f ==> m.kids[j].item.name != Some(name)
    requires f < |m.kids| ==> m.kids[f].item.name == Some(name) || m.kids[f].item.name.None?
    ensures |Pairs(y)| == |m.kids| && (f < |m.kids| ==> m.kids[f].item.name == Some(name))
    ensures Lookup(y, name).Some? <==> f < |m.kids|
    ensures f < |m.kids| ==>
      Lookup(y, name).value == Pairs(y)[f].value && Valid(m.kids[f]) && Denotes(m.kids[f], Pairs(y)[f].value)
  {
    LookupAt(y, name, f);
  }

  lemma MembersFair(n: Node, m: Node, k: nat, f: nat, x: Members, y: Members)
    requires Valid(n) && Valid(m) && k < |n.kids| == |Pairs(x)| && f < |m.kids| == |Pairs(y)|
    ensures Fair(n, m, Object(x), Object(y)) ==> Fair(n.kids[k], m.kids[f], Pairs(x)[k].value, Pairs(y)[f].value)
  {
    KidInside(n, k);
    KidInside(m, f);
    if !(Items(n) !! Items(m)) {
      if Good(Object(x)) {
        MemberGood(x, MapOf(x), k);
      } else if Good(Object(y)) {
        MemberGood(y, MapOf(y), f);
      }
    }
  }

  lemma {:induction false} MemberGood(x: Members, m: map<seq<byte>, Value>, k: nat)
    requires ProperMembers(x) && CoherentIn(x, m) && k < |Pairs(x)|
    ensures Good(Pairs(x)[k].value)
    decreases x
  {
    if k > 0 {
      assert Pairs(x)[k] == Pairs(x.rest)[k - 1];
      MemberGood(x.rest, m, k - 1);
    }
  }
}
