/** The heap form of JSON values: items whose children are a doubly linked list
    (src/cJSON/cJSON.c, lines 249 to 258, 1843 to 1925, 1943 to 2002, 2202 to 2236 and 2278 to
    2354). The first child's `prev` is the last child, whose `next` is null. */
module JsonList {
  import opened Bytes
  import opened JsonText

  datatype Kind = Invalid | NullKind | FalseKind | TrueKind | NumberKind | StringKind | ArrayKind | ObjectKind

  /** An item, its children in order, and so on down; `below` has all items but the first.
      The items know nothing of it: it says what a part of the heap looks like. */
  datatype Node = Node(item: Item, kids: seq<Node>, below: set<Item>)

  function At(hs: seq<Item>, k: nat): Item? {
    if k < |hs| then hs[k] else null
  }

  /** The item before the k-th of a list, the last one for the first. */
  function Before(hs: seq<Item>, k: nat): Item
    requires k < |hs|
  {
    if k == 0 then hs[|hs| - 1] else hs[k - 1]
  }

  ghost predicate Distinct(hs: seq<Item>) {
    forall i, j {:trigger hs[i], hs[j]} :: 0 <= i < j < |hs| ==> hs[i] != hs[j]
  }

  ghost predicate Listed(first: Item?, hs: seq<Item>)
    reads hs`next, hs`prev
  {
    && first == At(hs, 0)
    && (forall k {:trigger hs[k].next} :: 0 <= k < |hs| ==> hs[k].next == At(hs, k + 1))
    && (forall k {:trigger hs[k].prev} :: 0 <= k < |hs| ==> hs[k].prev == Before(hs, k))
  }

  function Heads(kids: seq<Node>): (hs: seq<Item>)
    ensures |hs| == |kids| && forall k :: 0 <= k < |hs| ==> hs[k] == kids[k].item
  {
    seq(|kids|, k requires 0 <= k < |kids| => kids[k].item)
  }

  function Items(n: Node): set<Item> {
    n.below + {n.item}
  }

  /** Everything under the children is under the item, and no item occurs twice. */
  ghost predicate Framed(n: Node) {
    && n.item !in n.below
    && (forall k {:trigger n.kids[k].below} :: 0 <= k < |n.kids| ==>
          n.kids[k].below <= n.below && n.kids[k].item !in n.kids[k].below)
    && (forall k {:trigger n.kids[k].item} :: 0 <= k < |n.kids| ==> n.kids[k].item in n.below)
    && (forall i, j {:trigger Items(n.kids[i]), Items(n.kids[j])} :: 0 <= i < j < |n.kids| ==>
          Items(n.kids[i]) !! Items(n.kids[j]))
  }

  /** The lists are in order at every level. What is around the item itself is left open. */
  ghost predicate Valid(n: Node)
    reads n.item`child, n.below
    decreases n
  {
    && Framed(n) && Listed(n.item.child, Heads(n.kids))
    && forall k {:trigger Valid(n.kids[k])} :: 0 <= k < |n.kids| ==>
         assert n.kids[k].below <= n.below; Valid(n.kids[k])
  }

  /** The value that an item stands for with all that is below it. */
  ghost predicate Denotes(n: Node, v: Json)
    requires Valid(n)
    reads n.item`child, n.item`kind, n.item`number, n.item`text, n.below
    decreases n
  {
    match v
    case Null => n.item.kind == NullKind
    case False => n.item.kind == FalseKind
    case True => n.item.kind == TrueKind
    case Number(i) => n.item.kind == NumberKind && n.item.number == i
    case Str(s) => n.item.kind == StringKind && n.item.text == Some(s)
    case Array(items) =>
      && n.item.kind == ArrayKind && |n.kids| == |Values(items)|
      && forall k :: 0 <= k < |n.kids| ==> Denotes(n.kids[k], Values(items)[k])
    case Object(members) =>
      && n.item.kind == ObjectKind && |n.kids| == |Pairs(members)|
      && forall k :: 0 <= k < |n.kids| ==>
           n.kids[k].item.name == Some(Pairs(members)[k].name) && Denotes(n.kids[k], Pairs(members)[k].value)
  }

  lemma HeadsApart(n: Node)
    requires Framed(n)
    ensures Distinct(Heads(n.kids))
    ensures forall k {:trigger n.kids[k].below} :: 0 <= k < |n.kids| ==>
      && n.item !in n.kids[k].below && n.kids[k].item != n.item && n.kids[k].item in n.below
      && forall x :: x in Heads(n.kids) ==> x !in n.kids[k].below
  {
    forall k, x | 0 <= k < |n.kids| && x in Heads(n.kids) ensures x !in n.kids[k].below {
      var i :| 0 <= i < |n.kids| && n.kids[i].item == x;
      assert x in Items(n.kids[i]) && n.kids[k].below <= Items(n.kids[k]);
    }
    forall i, j | 0 <= i < j < |n.kids| ensures n.kids[i].item != n.kids[j].item {
      assert n.kids[i].item in Items(n.kids[i]) && n.kids[j].item in Items(n.kids[j]);
    }
  }

  lemma NextChild(n: Node)
    requires Valid(n)
    ensures n.item.child == At(Heads(n.kids), 0)
    ensures forall k {:trigger n.kids[k].item.next} :: 0 <= k < |n.kids| ==>
      n.kids[k].item.next == At(Heads(n.kids), k + 1) && Valid(n.kids[k])
  {
    forall k | 0 <= k < |n.kids| ensures n.kids[k].item.next == At(Heads(n.kids), k + 1) {
      assert Heads(n.kids)[k].next == At(Heads(n.kids), k + 1);
    }
  }

  lemma ListOfValid(n: Node)
    requires Valid(n)
    ensures Listed(n.item.child, Heads(n.kids))
  {
  }

  /** The links of a list without its k-th item. */
  ghost predicate Cut(first: Item?, hs: seq<Item>, k: nat)
    requires k < |hs|
    reads hs`next, hs`prev
  {
    && first == At(hs, if k == 0 then 1 else 0)
    && (forall j {:trigger hs[j].next} :: 0 <= j < |hs| && j != k ==>
          hs[j].next == At(hs, if j + 1 == k then k + 1 else j + 1))
    && (forall j {:trigger hs[j].prev} :: 0 <= j < |hs| && j != k ==>
          hs[j].prev == if j == k + 1 || (j == 0 && k + 1 == |hs|) then Before(hs, k) else Before(hs, j))
  }

  lemma CutListed(first: Item?, hs: seq<Item>, k: nat)
    requires k < |hs| && Cut(first, hs, k)
    ensures Listed(first, hs[..k] + hs[k + 1..])
  {
  }

  /** The links of a list with another item in place of its k-th. */
  ghost predicate Instead(first: Item?, hs: seq<Item>, k: nat, item: Item)
    requires k < |hs|
    reads hs`next, hs`prev, item`next, item`prev
  {
    && first == (if k == 0 then item else hs[0])
    && item.next == At(hs, k + 1) && item.prev == (if |hs| == 1 then item else Before(hs, k))
    && (forall j {:trigger hs[j].next} :: 0 <= j < |hs| && j != k ==>
          hs[j].next == if j + 1 == k then item else At(hs, j + 1))
    && (forall j {:trigger hs[j].prev} :: 0 <= j < |hs| && j != k ==>
          hs[j].prev == if j == k + 1 || (j == 0 && k + 1 == |hs|) then item else Before(hs, j))
  }

  lemma InsteadListed(first: Item?, hs: seq<Item>, k: nat, item: Item)
    requires k < |hs| && Instead(first, hs, k, item)
    ensures Listed(first, hs[k := item])
  {
  }

  /** An item keeps its value and what is below it, if nothing is changed there. Its place
      in a list does not matter. */
  twostate lemma Undisturbed(n: Node)
    requires old(Valid(n)) && Still(n)
    ensures Valid(n) && forall v :: old(Denotes(n, v)) ==> Denotes(n, v)
  {
  }

  twostate predicate Still(n: Node)
    reads n.item, n.below
  {
    && unchanged(n.item`kind) && unchanged(n.item`number) && unchanged(n.item`text) && unchanged(n.item`name)
    && unchanged(n.item`child) && unchanged(n.below)
  }

  /** Items that are still in order below and stand for the same values. */
  twostate predicate AllKept(kids: seq<Node>)
    reads *
  {
    forall k {:trigger kids[k]} :: 0 <= k < |kids| ==> old(Valid(kids[k])) && SameValue(kids[k])
  }

  twostate predicate SameValue(n: Node)
    requires old(Valid(n))
    reads n.item, n.below
  {
    Valid(n) && forall v :: old(Denotes(n, v)) ==> Denotes(n, v)
  }

  twostate lemma KidsKept(kids: seq<Node>)
    requires forall k {:trigger kids[k].below} :: 0 <= k < |kids| ==> old(Valid(kids[k])) && Still(kids[k])
    ensures AllKept(kids)
  {
    hide Still;
    forall k | 0 <= k < |kids| ensures old(Valid(kids[k])) && SameValue(kids[k]) {
      assert kids[k].below == kids[k].below;
      Undisturbed(kids[k]);
    }
  }

  /** Items with all below them that have been linked in a list are the children of an item. */
  twostate lemma Relinked(n: Node)
    requires Framed(n) && Listed(n.item.child, Heads(n.kids)) && AllKept(n.kids)
    ensures Valid(n)
  {
    hide Framed, Listed;
    forall k | 0 <= k < |n.kids| ensures Valid(n.kids[k]) {
      var kid := n.kids[k];
    }
  }

  /** The children of an array have these values. */
  lemma ArrayOf(n: Node, vs: seq<Json>)
    requires Valid(n) && n.item.kind == ArrayKind && |vs| == |n.kids|
    requires forall k :: 0 <= k < |vs| ==> Denotes(n.kids[k], vs[k])
    ensures Denotes(n, Array(ListOf(vs, NoItem)))
  {
    ValuesOfList(vs);
  }

  function Grown(n: Node, k: nat, s: Node): Node
    requires k <= |n.kids|
  {
    Node(n.item, n.kids[..k] + [s] + n.kids[k..], n.below + Items(s))
  }

  function Shrunk(n: Node, k: nat): Node
    requires k < |n.kids|
  {
    Node(n.item, n.kids[..k] + n.kids[k + 1..], n.below - Items(n.kids[k]))
  }

  lemma ShrunkFramed(n: Node, k: nat)
    requires Framed(n) && k < |n.kids|
    ensures Framed(Shrunk(n, k))
    ensures Heads(Shrunk(n, k).kids) == Heads(n.kids)[..k] + Heads(n.kids)[k + 1..]
  {
    var g := Shrunk(n, k);
    forall j {:trigger g.kids[j].below} | 0 <= j < |g.kids|
      ensures Items(g.kids[j]) <= g.below && g.kids[j].item !in g.kids[j].below
    {
      var j' := if j < k then j else j + 1;
      assert g.kids[j] == n.kids[j'] && Items(n.kids[j']) !! Items(n.kids[k]);
      assert n.kids[j'].below <= n.below;
    }
    forall i, j {:trigger Items(g.kids[i]), Items(g.kids[j])} | 0 <= i < j < |g.kids|
      ensures Items(g.kids[i]) !! Items(g.kids[j])
    {
      var i', j' := if i < k then i else i + 1, if j < k then j else j + 1;
      assert Items(n.kids[i']) !! Items(n.kids[j']);
    }
  }

  function Swapped(n: Node, k: nat, s: Node): Node
    requires k < |n.kids|
  {
    Node(n.item, n.kids[k := s], n.below - Items(n.kids[k]) + Items(s))
  }

  lemma SwappedFramed(n: Node, k: nat, s: Node)
    requires Framed(n) && Framed(s) && k < |n.kids| && Items(n) !! Items(s)
    ensures Framed(Swapped(n, k, s)) && s.item !in Heads(n.kids)
    ensures Heads(Swapped(n, k, s).kids) == Heads(n.kids)[k := s.item]
    ensures forall x :: x in Heads(n.kids) ==> x in Heads(Swapped(n, k, s).kids) || x == n.kids[k].item
    ensures s.item in Heads(Swapped(n, k, s).kids)
    ensures n.kids[k].below !! Items(s) && forall j {:trigger Swapped(n, k, s).kids[j].below} ::
      0 <= j < |n.kids| ==> n.kids[k].item !in Swapped(n, k, s).kids[j].below
  {
    ShrunkFramed(n, k);
    GrownFramed(Shrunk(n, k), k, s);
    var g, h := Swapped(n, k, s), Grown(Shrunk(n, k), k, s);
    assert g.kids == h.kids && g.below == h.below;
    assert n.kids[k].below <= n.below && Heads(g.kids)[k] == s.item;
  }

  function Inserted(items: Elements, k: nat, v: Json): Elements
    requires k <= |Values(items)|
  {
    ListOf(Values(items)[..k] + [v] + Values(items)[k..], NoItem)
  }

  function Removed(items: Elements, k: nat): Elements
    requires k < |Values(items)|
  {
    ListOf(Values(items)[..k] + Values(items)[k + 1..], NoItem)
  }

  function Replaced(items: Elements, k: nat, v: Json): Elements
    requires k < |Values(items)|
  {
    ListOf(Values(items)[k := v], NoItem)
  }

  /** A place among the children of an array, an item that is to come there, and the values
      of both. */
  datatype Edit = Edit(n: Node, k: nat, s: Node, items: Elements, v: Json)

  /** Adding, removing and replacing a child of an array does the same to its value. */
  twostate lemma GrownValue(e: Edit)
    requires old(Valid(e.n) && Denotes(e.n, Array(e.items)) && Valid(e.s) && Denotes(e.s, e.v)) && e.k <= |e.n.kids|
    requires Valid(Grown(e.n, e.k, e.s)) && AllKept(Grown(e.n, e.k, e.s).kids) && e.n.item.kind == old(e.n.item.kind)
    ensures Denotes(Grown(e.n, e.k, e.s), Array(Inserted(e.items, e.k, e.v)))
  {
    var n, k, s, items, v := e.n, e.k, e.s, e.items, e.v;
    hide ListOf, Framed, Listed;
    var g, vs := Grown(n, k, s), Values(items)[..k] + [v] + Values(items)[k..];
    forall j | 0 <= j < |vs| ensures Denotes(g.kids[j], vs[j]) {
      var kid := g.kids[j];
      assert old(Denotes(kid, vs[j]));
    }
    ArrayOf(g, vs);
  }

  twostate lemma ShrunkValue(e: Edit)
    requires old(Valid(e.n) && Denotes(e.n, Array(e.items))) && e.k < |e.n.kids|
    requires Valid(Shrunk(e.n, e.k)) && AllKept(e.n.kids) && e.n.item.kind == old(e.n.item.kind)
    ensures Denotes(Shrunk(e.n, e.k), Array(Removed(e.items, e.k)))
  {
    hide ListOf, Framed, Listed;
    var n, k, items := e.n, e.k, e.items;
    var g, vs := Shrunk(n, k), Values(items)[..k] + Values(items)[k + 1..];
    forall j | 0 <= j < |vs| ensures Denotes(g.kids[j], vs[j]) {
      var j' := if j < k then j else j + 1;
      var kid := n.kids[j'];
      assert old(Denotes(kid, vs[j]));
    }
    ArrayOf(g, vs);
  }

  twostate lemma SwappedValue(e: Edit)
    requires old(Valid(e.n) && Denotes(e.n, Array(e.items)) && Valid(e.s) && Denotes(e.s, e.v)) && e.k < |e.n.kids|
    requires Valid(Swapped(e.n, e.k, e.s)) && AllKept(Swapped(e.n, e.k, e.s).kids) && e.n.item.kind == old(e.n.item.kind)
    ensures Denotes(Swapped(e.n, e.k, e.s), Array(Replaced(e.items, e.k, e.v)))
  {
    hide ListOf, Framed, Listed;
    var n, k, s, items, v := e.n, e.k, e.s, e.items, e.v;
    var g, vs := Swapped(n, k, s), Values(items)[k := v];
    forall j | 0 <= j < |vs| ensures Denotes(g.kids[j], vs[j]) {
      var kid := g.kids[j];
      assert old(Denotes(kid, vs[j]));
    }
    ArrayOf(g, vs);
  }

  /** The tree with another one in place of what is at a path in it. */
  function Sub(o: Node, path: seq<nat>): Option<Node> {
    if path == [] then Some(o)
    else if path[0] >= |o.kids| then None
    else Sub(o.kids[path[0]], path[1..])
  }

  function Graft(o: Node, path: seq<nat>, m: Node): Node
    requires Sub(o, path).Some?
    decreases |path|
  {
    if path == [] then m
    else
      var kid := o.kids[path[0]];
      var g := Graft(kid, path[1..], m);
      Node(o.item, o.kids[path[0] := g], o.below - Items(kid) + Items(g))
  }

  /** A path from an item to one that is at it or below it. */
  datatype Place = Place(o: Node, path: seq<nat>, n: Node)

  /** Nothing is changed but at a place and below it, and not the place in a list either. */
  twostate predicate AroundKept(p: Place)
    reads *
  {
    (forall x :: x in Items(p.o) && x !in Items(p.n) ==> unchanged(x)) && unchanged(p.n.item`next) && unchanged(p.n.item`prev)
  }

  /** Changing the list of an item keeps all that is around it in order. */
  twostate lemma {:induction false} Grafted(p: Place, new m: Node)
    requires old(Valid(p.o)) && Sub(p.o, p.path) == Some(p.n) && m.item == p.n.item && Valid(m)
    requires Items(m) !! Items(p.o) - Items(p.n) && AroundKept(p)
    ensures Items(p.n) <= Items(p.o) && p.o.item !in p.n.below
    ensures var g := Graft(p.o, p.path, m);
      g.item == p.o.item && Valid(g) && Items(g) == Items(p.o) - Items(p.n) + Items(m)
    decreases |p.path|
  {
    if p.path != [] {
      hide Framed, Listed;
      var next := Place(p.o.kids[p.path[0]], p.path[1..], p.n);
      KidInside(p.o, p.path[0]);
      Grafted(next, m);
      GraftedKid(p, m, Graft(next.o, next.path, m));
    }
  }

  lemma KidInside(o: Node, i: nat)
    requires Framed(o) && i < |o.kids|
    ensures Items(o.kids[i]) <= o.below && o.item !in o.below
  {
    assert o.kids[i].below <= o.below;
  }

  twostate lemma GraftedKid(p: Place, new m: Node, new k: Node)
    requires old(Valid(p.o)) && p.path != [] && p.path[0] < |p.o.kids| && Valid(k) && AroundKept(p)
    requires var kid := p.o.kids[p.path[0]];
      && k.item == kid.item && Items(p.n) <= Items(kid) && kid.item !in p.n.below
      && Items(k) == Items(kid) - Items(p.n) + Items(m)
    requires Items(m) !! Items(p.o) - Items(p.n)
    ensures var kid := p.o.kids[p.path[0]];
      var g := Node(p.o.item, p.o.kids[p.path[0] := k], p.o.below - Items(kid) + Items(k));
      Valid(g) && Items(g) == Items(p.o) - Items(p.n) + Items(m)
  {
    hide Listed, AroundKept;
    var o, i := p.o, p.path[0];
    var g := Node(o.item, o.kids[i := k], o.below - Items(o.kids[i]) + Items(k));
    GraftedFramed(o, i, p.n, m, k);
    OthersKept(p);
    assert Heads(g.kids) == Heads(o.kids);
    hide Framed;
    forall j | 0 <= j < |g.kids| ensures Valid(g.kids[j]) {
      assert j != i ==> g.kids[j] == o.kids[j];
    }
  }

  lemma GraftedFramed(o: Node, i: nat, n: Node, m: Node, k: Node)
    requires Framed(o) && i < |o.kids| && Framed(k)
    requires Items(n) <= Items(o.kids[i]) && Items(k) == Items(o.kids[i]) - Items(n) + Items(m)
    requires Items(m) !! Items(o) - Items(n)
    ensures var g := Node(o.item, o.kids[i := k], o.below - Items(o.kids[i]) + Items(k));
      Framed(g) && Items(g) == Items(o) - Items(n) + Items(m)
  {
    KidInside(o, i);
    ShrunkFramed(o, i);
    hide Framed;
    GrownFramed(Shrunk(o, i), i, k);
    assert Node(o.item, o.kids[i := k], o.below - Items(o.kids[i]) + Items(k)) == Grown(Shrunk(o, i), i, k);
  }

  twostate lemma OthersKept(p: Place)
    requires old(Valid(p.o)) && p.path != [] && p.path[0] < |p.o.kids| && AroundKept(p)
    requires Items(p.n) <= Items(p.o.kids[p.path[0]]) && p.o.kids[p.path[0]].item !in p.n.below
    ensures Listed(p.o.item.child, Heads(p.o.kids))
    ensures forall j :: 0 <= j < |p.o.kids| && j != p.path[0] ==> Valid(p.o.kids[j])
  {
    var o, i := p.o, p.path[0];
    KidInside(o, i);
    HeadsKept(p);
    forall j | 0 <= j < |o.kids| && j != i ensures Valid(o.kids[j]) {
      var kid := o.kids[j];
      KidInside(o, j);
      assert Items(o.kids[i]) !! Items(o.kids[j]);
      Undisturbed(kid);
    }
  }

  twostate lemma HeadsKept(p: Place)
    requires old(Valid(p.o)) && p.path != [] && p.path[0] < |p.o.kids| && AroundKept(p)
    requires Items(p.n) <= Items(p.o.kids[p.path[0]]) && p.o.kids[p.path[0]].item !in p.n.below
    ensures Listed(p.o.item.child, Heads(p.o.kids))
  {
    var o: Node, i: nat, hs: seq<Item> := p.o, p.path[0], Heads(p.o.kids);
    HeadsApart(o);
    KidInside(o, i);
    forall k | 0 <= k < |hs| ensures hs[k].next == old(hs[k].next) && hs[k].prev == old(hs[k].prev) {
      assert hs[k] == o.kids[k].item && (k == i || hs[k] != hs[i]);
      assert o.kids[i].below == o.kids[i].below;
    }
  }

  lemma GrownFramed(n: Node, k: nat, s: Node)
    requires Framed(n) && Framed(s) && k <= |n.kids| && Items(n) !! Items(s)
    ensures Framed(Grown(n, k, s)) && s.item !in Heads(n.kids)
    ensures Heads(Grown(n, k, s).kids) == Heads(n.kids)[..k] + [s.item] + Heads(n.kids)[k..]
    ensures forall x :: x in Heads(Grown(n, k, s).kids) <==> x in Heads(n.kids) || x == s.item
  {
    var g := Grown(n, k, s);
    assert Heads(n.kids) == Heads(n.kids)[..k] + Heads(n.kids)[k..];
    forall i, j {:trigger Items(g.kids[i]), Items(g.kids[j])} | 0 <= i < j < |g.kids|
      ensures Items(g.kids[i]) !! Items(g.kids[j])
    {
      GrownApart(n, k, s, i, j);
    }
  }

  lemma GrownApart(n: Node, k: nat, s: Node, i: nat, j: nat)
    requires Framed(n) && k <= |n.kids| && Items(n) !! Items(s) && i < j < |Grown(n, k, s).kids|
    ensures Items(Grown(n, k, s).kids[i]) !! Items(Grown(n, k, s).kids[j])
  {
    if i == k || j == k {
      var o := if i == k then n.kids[j - 1] else n.kids[i];
      assert o.below <= n.below && o.item in n.below;
    } else {
      var i', j' := if i < k then i else i - 1, if j < k then j else j - 1;
      assert Items(n.kids[i']) !! Items(n.kids[j']);
    }
  }

  /** New items linked so far: each points to the next and, but for the first, back. */
  ghost predicate Chained(hs: seq<Item>)
    reads hs`next, hs`prev
  {
    && (forall k {:trigger hs[k].next} :: 0 <= k < |hs| ==> hs[k].next == At(hs, k + 1))
    && (forall k {:trigger hs[k].prev} :: 0 < k < |hs| ==> hs[k].prev == hs[k - 1])
  }

  class Item {
    var kind: Kind
    var number: int
    var text: Option<seq<byte>>
    /** The name of a member. */
    var name: Option<seq<byte>>
    var next: Item?
    var prev: Item?
    var child: Item?

    constructor ()
      ensures kind == Invalid && number == 0 && text == name == None && next == prev == child == null
    {
      kind, number, text, name := Invalid, 0, None, None;
      next, prev, child := null, null, null;
    }

    /** The child at an index, or null. */
    method GetItem(index: nat, ghost hs: seq<Item>) returns (item: Item?)
      requires Listed(child, hs)
      ensures item == At(hs, index)
    {
      item := child;
      var left: nat := index;
      while item != null && left > 0
        invariant left <= index && item == At(hs, index - left)
      {
        assert item == hs[index - left];
        item := item.next;
        left := left - 1;
      }
    }

    /** Adds an item that is in no list, and so has no next one, behind the last child. */
    method LinkLast(item: Item, ghost hs: seq<Item>)
      requires Listed(child, hs) && Distinct(hs) && item !in hs && item.next == null
      modifies this`child, item`next, item`prev, hs`next, hs`prev
      ensures Listed(child, hs + [item])
    {
      if child == null {
        child := item;
        item.prev := item;
        item.next := null;
      } else {
        assert child == hs[0] && child.prev == hs[|hs| - 1];
        child.prev.next := item;
        item.prev := child.prev;
        child.prev := item;
      }
    }

    method Append(item: Item, ghost n: Node, ghost s: Node)
      requires n.item == this && Valid(n) && s.item == item && Valid(s) && Items(n) !! Items(s) && item.next == null
      modifies this`child, item`next, item`prev, Heads(n.kids)`next, Heads(n.kids)`prev
      ensures Valid(Grown(n, |n.kids|, s)) && AllKept(Grown(n, |n.kids|, s).kids)
      ensures forall items, v :: old(Denotes(n, Array(items)) && Denotes(s, v)) ==>
        Denotes(Grown(n, |n.kids|, s), Array(Inserted(items, |n.kids|, v)))
    {
      hide Framed, Listed;
      ghost var k := |n.kids|;
      GrownFramed(n, k, s);
      HeadsApart(n);
      HeadsApart(Grown(n, k, s));
      label before:
      LinkLast(item, Heads(n.kids));
      KidsKept@before(Grown(n, k, s).kids);
      assert Heads(n.kids)[..k] + [item] + [] == Heads(n.kids) + [item];
      Relinked@before(Grown(n, k, s));
      forall items, v | old(Denotes(n, Array(items)) && Denotes(s, v))
        ensures Denotes(Grown(n, k, s), Array(Inserted(items, k, v)))
      {
        GrownValue@before(Edit(n, k, s, items, v));
      }
    }

    /** Puts an item that is in no list before the k-th child, `after`. */
    method LinkBefore(after: Item, item: Item, ghost hs: seq<Item>, ghost k: nat)
      requires Listed(child, hs) && Distinct(hs) && item !in hs && k < |hs| && after == hs[k]
      modifies this`child, item`next, item`prev, hs`next, hs`prev
      ensures Listed(child, hs[..k] + [item] + hs[k..])
    {
      assert after.prev == Before(hs, k);
      item.next := after;
      item.prev := after.prev;
      after.prev := item;
      if after == child {
        child := item;
      } else {
        item.prev.next := item;
      }
    }

    method InsertBefore(after: Item, item: Item, ghost n: Node, ghost k: nat, ghost s: Node)
      requires n.item == this && Valid(n) && s.item == item && Valid(s) && Items(n) !! Items(s)
      requires k < |n.kids| && after == n.kids[k].item
      modifies this`child, item`next, item`prev, Heads(n.kids)`next, Heads(n.kids)`prev
      ensures Valid(Grown(n, k, s)) && AllKept(Grown(n, k, s).kids)
      ensures forall items, v :: old(Denotes(n, Array(items)) && Denotes(s, v)) ==>
        Denotes(Grown(n, k, s), Array(Inserted(items, k, v)))
    {
      hide Framed, Listed;
      GrownFramed(n, k, s);
      HeadsApart(n);
      HeadsApart(Grown(n, k, s));
      label before:
      LinkBefore(after, item, Heads(n.kids), k);
      KidsKept@before(Grown(n, k, s).kids);
      Relinked@before(Grown(n, k, s));
      forall items, v | old(Denotes(n, Array(items)) && Denotes(s, v))
        ensures Denotes(Grown(n, k, s), Array(Inserted(items, k, v)))
      {
        GrownValue@before(Edit(n, k, s, items, v));
      }
    }

    /** Puts an item that is in no list before the child at an index, or behind all. */
    method Insert(which: int, item: Item, ghost n: Node, ghost s: Node) returns (ok: bool)
      requires n.item == this && Valid(n) && s.item == item && Valid(s) && Items(n) !! Items(s) && item.next == null
      modifies this`child, item`next, item`prev, Heads(n.kids)`next, Heads(n.kids)`prev
      ensures ok == (which >= 0)
      ensures !ok ==> Valid(n) && unchanged(this`child) && unchanged(item) && unchanged(Heads(n.kids))
      ensures ok ==>
        var k := if which < |n.kids| then which else |n.kids|;
        && Valid(Grown(n, k, s)) && AllKept(Grown(n, k, s).kids)
        && forall items, v :: old(Denotes(n, Array(items)) && Denotes(s, v)) ==>
             Denotes(Grown(n, k, s), Array(Inserted(items, k, v)))
    {
      hide Framed, Listed, Valid, Denotes;
      ListOfValid(n);
      ok := which >= 0;
      if !ok {
        return;
      }
      var after := GetItem(which, Heads(n.kids));
      if after == null {
        Append(item, n, s);
      } else {
        InsertBefore(after, item, n, which, s);
      }
    }

    /** Takes a child, the k-th, out of the list. */
    method Unlink(item: Item, ghost hs: seq<Item>, ghost k: nat)
      requires Listed(child, hs) && Distinct(hs) && k < |hs| && item == hs[k]
      modifies this`child, hs`next, hs`prev
      ensures Listed(child, hs[..k] + hs[k + 1..]) && item.next == null && item.prev == null
    {
      assert item.prev == Before(hs, k) && item.next == At(hs, k + 1);
      if item != child {
        item.prev.next := item.next;
      }
      if item.next != null {
        item.next.prev := item.prev;
      }
      if item == child {
        child := item.next;
      } else if item.next == null {
        child.prev := item.prev;
      }
      item.prev := null;
      item.next := null;
      CutListed(child, hs, k);
    }

    method Detach(item: Item, ghost n: Node, ghost k: nat)
      requires n.item == this && Valid(n) && k < |n.kids| && item == n.kids[k].item
      modifies this`child, Heads(n.kids)`next, Heads(n.kids)`prev
      ensures Valid(Shrunk(n, k)) && AllKept(n.kids)
      ensures item.next == null && item.prev == null
      ensures forall items :: old(Denotes(n, Array(items))) ==> Denotes(Shrunk(n, k), Array(Removed(items, k)))
    {
      hide Framed, Listed;
      ShrunkFramed(n, k);
      HeadsApart(n);
      label before:
      Unlink(item, Heads(n.kids), k);
      KidsKept@before(n.kids);
      Relinked@before(Shrunk(n, k));
      forall items | old(Denotes(n, Array(items))) ensures Denotes(Shrunk(n, k), Array(Removed(items, k))) {
        ShrunkValue@before(Edit(n, k, n, items, Null));
      }
    }

    /** Puts an item that is in no list in the place of a child, the k-th. */
    method LinkInstead(item: Item, replacement: Item, ghost hs: seq<Item>, ghost k: nat)
      requires Listed(child, hs) && Distinct(hs) && k < |hs| && item == hs[k] && replacement !in hs
      modifies this`child, replacement`next, replacement`prev, hs`next, hs`prev
      ensures Listed(child, hs[k := replacement]) && item.next == null && item.prev == null
    {
      assert item.prev == Before(hs, k) && item.next == At(hs, k + 1);
      replacement.next := item.next;
      replacement.prev := item.prev;
      if replacement.next != null {
        replacement.next.prev := replacement;
      }
      if child == item {
        if child.prev == child {
          replacement.prev := replacement;
        }
        child := replacement;
      } else {
        if replacement.prev != null {
          replacement.prev.next := replacement;
        }
        if replacement.next == null {
          child.prev := replacement;
        }
      }
      item.next := null;
      item.prev := null;
      InsteadListed(child, hs, k, replacement);
    }

    method Replace(item: Item, replacement: Item, ghost n: Node, ghost k: nat, ghost s: Node)
      requires n.item == this && Valid(n) && k < |n.kids| && item == n.kids[k].item
      requires replacement == item || (s.item == replacement && Valid(s) && Items(n) !! Items(s))
      modifies this`child, replacement`next, replacement`prev, Heads(n.kids)`next, Heads(n.kids)`prev
      ensures replacement == item ==> Valid(n) && unchanged(this`child) && unchanged(Heads(n.kids))
      ensures replacement != item ==>
        && Valid(Swapped(n, k, s)) && AllKept(Swapped(n, k, s).kids) && AllKept([n.kids[k]])
        && item.next == null && item.prev == null
        && forall items, v :: old(Denotes(n, Array(items)) && Denotes(s, v)) ==>
             Denotes(Swapped(n, k, s), Array(Replaced(items, k, v)))
    {
      if replacement != item {
        ReplaceOther(item, replacement, n, k, s);
      }
    }

    method ReplaceOther(item: Item, replacement: Item, ghost n: Node, ghost k: nat, ghost s: Node)
      requires n.item == this && Valid(n) && k < |n.kids| && item == n.kids[k].item
      requires s.item == replacement && Valid(s) && Items(n) !! Items(s)
      modifies this`child, replacement`next, replacement`prev, Heads(n.kids)`next, Heads(n.kids)`prev
      ensures Valid(Swapped(n, k, s)) && AllKept(Swapped(n, k, s).kids) && AllKept([n.kids[k]])
      ensures item.next == null && item.prev == null
      ensures forall items, v :: old(Denotes(n, Array(items)) && Denotes(s, v)) ==>
        Denotes(Swapped(n, k, s), Array(Replaced(items, k, v)))
    {
      hide Framed, Listed;
      SwappedFramed(n, k, s);
      HeadsApart(n);
      HeadsApart(Swapped(n, k, s));
      label before:
      LinkInstead(item, replacement, Heads(n.kids), k);
      KidsKept@before([n.kids[k]]);
      KidsKept@before(Swapped(n, k, s).kids);
      Relinked@before(Swapped(n, k, s));
      forall items, v | old(Denotes(n, Array(items)) && Denotes(s, v))
        ensures Denotes(Swapped(n, k, s), Array(Replaced(items, k, v)))
      {
        SwappedValue@before(Edit(n, k, s, items, v));
      }
    }
  }

  /** The first item's `prev` is the last one. */
  method CloseList(first: Item?, last: Item?, ghost hs: seq<Item>)
    requires Chained(hs) && Distinct(hs) && first == At(hs, 0)
    requires last == if hs == [] then null else hs[|hs| - 1]
    modifies if first == null then {} else {first}`prev
    ensures Listed(first, hs)
  {
    if first != null {
      first.prev := last;
    }
  }

  /** `i` is what is left of the elements behind the first `k`. */
  ghost predicate Behind(x: Elements, k: nat, i: Elements) {
    k <= |Values(x)| && Values(i) == Values(x)[k..] && ElementsSize(i) <= ElementsSize(x)
  }

  lemma ArrayKid(n: Node, x: Elements, i: Elements, k: nat)
    requires Valid(n) && Denotes(n, Array(x)) && Behind(x, k, i) && k <= |n.kids|
    ensures k == |n.kids| <==> i.NoItem?
    ensures k < |n.kids| ==>
      && Valid(n.kids[k]) && Denotes(n.kids[k], i.value) && Behind(x, k + 1, i.rest)
      && Size(i.value) < ElementsSize(x)
  {
    if k < |n.kids| {
      assert Values(i)[0] == Values(x)[k] && Values(i)[1..] == Values(x)[k + 1..];
    }
  }

  lemma BehindNone(x: Elements)
    ensures Behind(x, 0, x)
  {
  }

  /** The same for members. */
  ghost predicate BehindMembers(x: Members, k: nat, i: Members) {
    k <= |Pairs(x)| && Pairs(i) == Pairs(x)[k..] && MembersSize(i) <= MembersSize(x)
  }

  lemma ObjectKid(n: Node, x: Members, i: Members, k: nat)
    requires Valid(n) && Denotes(n, Object(x)) && BehindMembers(x, k, i) && k <= |n.kids|
    ensures |n.kids| == |Pairs(x)| && (k == |n.kids| <==> i.NoMember?)
    ensures k < |n.kids| ==>
      && n.kids[k].item.name == Some(i.name) && Valid(n.kids[k]) && Denotes(n.kids[k], i.value)
      && Pairs(x)[k].value == i.value && BehindMembers(x, k + 1, i.rest) && Size(i.value) < MembersSize(x)
  {
    if k < |n.kids| {
      assert Pairs(i)[0] == Pairs(x)[k] && Pairs(i)[1..] == Pairs(x)[k + 1..];
    }
  }

  lemma BehindNoMember(x: Members)
    ensures BehindMembers(x, 0, x)
  {
  }
}
