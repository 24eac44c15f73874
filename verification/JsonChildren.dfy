/** How the parser builds a list of children: each new item is linked behind the last one
    before its value is read, and at the end the first one's `prev` is set
    (src/cJSON/cJSON.c, lines 1488 to 1536 and 1646 to 1714). */
module JsonChildren {
  import opened Bytes
  import opened JsonText
  import opened JsonList

  ghost predicate Mean(m: Node, vs: seq<Json>)
    requires Framed(m)
    reads m.below
  {
    && |vs| == |m.kids|
    && forall j :: 0 <= j < |vs| ==>
         assert m.kids[j].below <= m.below; Valid(m.kids[j]) && Denotes(m.kids[j], vs[j])
  }

  /** The children linked so far have these values. */
  ghost predicate Built(m: Node, vs: seq<Json>)
    reads m.below
  {
    Framed(m) && Chained(Heads(m.kids)) && Mean(m, vs)
  }

  /** One more item is linked behind them, whose value has not been read. */
  ghost predicate Hanging(m: Node, vs: seq<Json>, item: Item)
    reads m.below, item`next, item`prev
  {
    Framed(m) && item !in Items(m) && Chained(Heads(m.kids) + [item]) && Mean(m, vs)
  }

  function Last(kids: seq<Node>): Item? {
    if kids == [] then null else kids[|kids| - 1].item
  }

  method LinkNext(current: Item?, item: Item, ghost hs: seq<Item>)
    requires Chained(hs) && Distinct(hs) && item !in hs && item.next == null
    requires current == if hs == [] then null else hs[|hs| - 1]
    modifies item`prev, if current == null then {} else {current}`next
    ensures Chained(hs + [item])
  {
    if current != null {
      current.next := item;
      item.prev := current;
    }
  }

  /** Allocates the next item and links it. */
  method AddChild(current: Item?, ghost m: Node, ghost vs: seq<Json>) returns (item: Item)
    requires Built(m, vs) && current == Last(m.kids)
    modifies if current == null then {} else {current}`next
    ensures fresh(item) && Hanging(m, vs, item)
    ensures item.child == null && item.kind == Invalid && item.text == None && item.name == None
  {
    hide Framed, Chained, Mean, Valid;
    HeadsApart(m);
    item := new Item();
    label before:
    LinkNext(current, item, Heads(m.kids));
    MeanKept@before(Kids(m, vs));
  }

  datatype Kids = Kids(m: Node, vs: seq<Json>)

  twostate lemma MeanKept(k: Kids)
    requires Framed(k.m) && old(Mean(k.m, k.vs))
    requires forall j {:trigger k.m.kids[j].below} :: 0 <= j < |k.m.kids| ==> Still(k.m.kids[j])
    ensures Mean(k.m, k.vs)
  {
    hide Framed, Still;
    forall j | 0 <= j < |k.vs| ensures Valid(k.m.kids[j]) && Denotes(k.m.kids[j], k.vs[j]) {
      assert k.m.kids[j].below == k.m.kids[j].below;
      var kid := k.m.kids[j];
      assert old(Denotes(kid, k.vs[j]));
      Undisturbed(kid);
    }
  }

  /** When its value has been read it is one of them. */
  lemma ChildBuilt(m: Node, vs: seq<Json>, n: Node, v: Json)
    requires Hanging(m, vs, n.item) && Valid(n) && Denotes(n, v) && Items(n) !! Items(m)
    ensures Built(Grown(m, |m.kids|, n), vs + [v])
  {
    hide Chained;
    GrownFramed(m, |m.kids|, n);
    assert Heads(Grown(m, |m.kids|, n).kids) == Heads(m.kids) + [n.item];
  }

  lemma NothingBuilt(item: Item)
    ensures Built(Node(item, [], {}), []) && ListOf([], NoItem) == NoItem
  {
  }

  /** The first child's `prev` is set. */
  method CloseChildren(head: Item?, current: Item?, ghost m: Node, ghost vs: seq<Json>)
    requires Built(m, vs) && head == At(Heads(m.kids), 0) && current == Last(m.kids)
    modifies if head == null then {} else {head}`prev
    ensures Framed(m) && Mean(m, vs) && Listed(head, Heads(m.kids))
  {
    hide Framed, Chained, Mean, Valid;
    HeadsApart(m);
    label before:
    CloseList(head, current, Heads(m.kids));
    MeanKept@before(Kids(m, vs));
  }

  /** Makes an array of the children. */
  method FinishArray(item: Item, head: Item?, current: Item?, ghost m: Node, ghost vs: seq<Json>)
    requires m.item == item && Built(m, vs) && head == At(Heads(m.kids), 0) && current == Last(m.kids)
    modifies item`kind, item`child, if head == null then {} else {head}`prev
    ensures Valid(m) && Denotes(m, Array(ListOf(vs, NoItem)))
  {
    hide Chained, Mean, Listed, Denotes, Valid;
    CloseChildren(head, current, m, vs);
    item.kind, item.child := ArrayKind, head;
    MeantArray(m, vs);
  }

  lemma MeantArray(m: Node, vs: seq<Json>)
    requires Framed(m) && Mean(m, vs) && Listed(m.item.child, Heads(m.kids)) && m.item.kind == ArrayKind
    ensures Valid(m) && Denotes(m, Array(ListOf(vs, NoItem)))
  {
    hide Framed, Listed;
    assert Valid(m) by {
      forall k | 0 <= k < |m.kids| ensures Valid(m.kids[k]) {
        assert |vs| == |m.kids|;
      }
    }
    ArrayOf(m, vs);
  }

  lemma MeantObject(m: Node, ms: seq<Named>)
    requires Framed(m) && Mean(m, ValuesOf(ms)) && NamesAre(m, ms)
    requires Listed(m.item.child, Heads(m.kids)) && m.item.kind == ObjectKind
    ensures Valid(m) && Denotes(m, Object(MembersOf(ms, NoMember)))
  {
    hide Framed, Listed;
    assert Valid(m) by {
      forall k | 0 <= k < |m.kids| ensures Valid(m.kids[k]) {
        assert |ms| == |m.kids|;
      }
    }
    PairsOfMembers(ms);
  }

  function ValuesOf(ms: seq<Named>): (vs: seq<Json>)
    ensures |vs| == |ms| && forall j :: 0 <= j < |vs| ==> vs[j] == ms[j].value
  {
    seq(|ms|, j requires 0 <= j < |ms| => ms[j].value)
  }

  ghost predicate NamesAre(m: Node, ms: seq<Named>)
    requires Framed(m)
    reads m.below`name
  {
    |ms| == |m.kids| && forall j :: 0 <= j < |ms| ==> m.kids[j].item.name == Some(ms[j].name)
  }

  /** The same for members, which have names. */
  ghost predicate MembersBuilt(m: Node, ms: seq<Named>)
    reads m.below
  {
    Built(m, ValuesOf(ms)) && NamesAre(m, ms)
  }

  ghost predicate HangingMember(m: Node, ms: seq<Named>, item: Item)
    reads m.below, item`next, item`prev
  {
    Hanging(m, ValuesOf(ms), item) && NamesAre(m, ms)
  }

  method AddMember(current: Item?, ghost m: Node, ghost ms: seq<Named>) returns (item: Item)
    requires MembersBuilt(m, ms) && current == Last(m.kids)
    modifies if current == null then {} else {current}`next
    ensures fresh(item) && HangingMember(m, ms, item)
    ensures item.child == null && item.kind == Invalid && item.text == None && item.name == None
  {
    hide Mean, Chained;
    item := AddChild(current, m, ValuesOf(ms));
  }

  lemma MemberBuilt(m: Node, ms: seq<Named>, n: Node, w: Named)
    requires HangingMember(m, ms, n.item) && Valid(n) && Denotes(n, w.value) && Items(n) !! Items(m)
    requires n.item.name == Some(w.name)
    ensures MembersBuilt(Grown(m, |m.kids|, n), ms + [w])
  {
    ChildBuilt(m, ValuesOf(ms), n, w.value);
    assert ValuesOf(ms + [w]) == ValuesOf(ms) + [w.value];
  }

  lemma NoMembersBuilt(item: Item)
    ensures MembersBuilt(Node(item, [], {}), []) && MembersOf([], NoMember) == NoMember
  {
    NothingBuilt(item);
    assert ValuesOf([]) == [];
  }

  method FinishObject(item: Item, head: Item?, current: Item?, ghost m: Node, ghost ms: seq<Named>)
    requires m.item == item && MembersBuilt(m, ms)
    requires head == At(Heads(m.kids), 0) && current == Last(m.kids)
    modifies item`kind, item`child, if head == null then {} else {head}`prev
    ensures Valid(m) && Denotes(m, Object(MembersOf(ms, NoMember)))
  {
    hide Chained, Mean, Listed, Denotes, Valid;
    CloseChildren(head, current, m, ValuesOf(ms));
    item.kind, item.child := ObjectKind, head;
    MeantObject(m, ms);
  }
}
