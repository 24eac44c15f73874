/** Duplicating an item with all that is below it (src/cJSON/cJSON.c, lines 2721 to 2802). */
module JsonDuplicate {
  import opened Bytes
  import opened JsonText
  import opened JsonList
  import opened JsonCompare

  ghost predicate SameFields(a: Item, b: Item)
    reads a, b
  {
    a.kind == b.kind && a.number == b.number && a.text == b.text && a.name == b.name
  }

  /** The same in every field and at every level, but for the items themselves. */
  ghost predicate Same(n: Node, m: Node)
    requires Valid(n) && Valid(m)
    reads n.item, n.below, m.item, m.below
    decreases n
  {
    && SameFields(n.item, m.item) && |n.kids| == |m.kids|
    && forall k :: 0 <= k < |n.kids| ==> Same(n.kids[k], m.kids[k])
  }

  /** What is the same stands for the same value. */
  lemma {:induction false} SameDenotes(n: Node, m: Node, v: Json)
    requires Valid(n) && Valid(m) && Same(n, m) && Denotes(n, v)
    ensures Denotes(m, v)
    decreases n
  {
    forall k | 0 <= k < |n.kids| && v.Array? ensures Denotes(m.kids[k], Values(v.items)[k]) {
      SameDenotes(n.kids[k], m.kids[k], Values(v.items)[k]);
    }
    forall k | 0 <= k < |n.kids| && v.Object? ensures Denotes(m.kids[k], Pairs(v.members)[k].value) {
      SameDenotes(n.kids[k], m.kids[k], Pairs(v.members)[k].value);
    }
  }

  /** The first children have been copied and linked, and the copy points to the first. */
  ghost predicate Copied(n: Node, m: Node)
    requires Valid(n) && Framed(m)
    reads n.item, n.below, m.item, m.below
  {
    && |m.kids| <= |n.kids| && Chained(Heads(m.kids)) && m.item.child == At(Heads(m.kids), 0)
    && forall j :: 0 <= j < |m.kids| ==>
         assert m.kids[j].below <= m.below; assert n.kids[j].below <= n.below;
         Valid(m.kids[j]) && Same(n.kids[j], m.kids[j])
  }

  datatype Copy = Copy(n: Node, m: Node)

  twostate lemma SameKept(c: Copy)
    requires old(Valid(c.n) && Valid(c.m) && Same(c.n, c.m)) && Still(c.n) && Still(c.m)
    ensures Valid(c.n) && Valid(c.m) && Same(c.n, c.m)
  {
  }

  /** What has been copied stays a copy when only links around the copies are changed. */
  twostate lemma CopiedKept(c: Copy)
    requires old(Valid(c.n)) && Still(c.n) && Framed(c.m) && |c.m.kids| <= |c.n.kids|
    requires forall j {:trigger c.m.kids[j].below} :: 0 <= j < |c.m.kids| ==>
      old(Valid(c.m.kids[j]) && Same(c.n.kids[j], c.m.kids[j])) && Still(c.m.kids[j])
    ensures Valid(c.n) && forall j :: 0 <= j < |c.m.kids| ==> Valid(c.m.kids[j]) && Same(c.n.kids[j], c.m.kids[j])
  {
    hide Framed, Listed, Same;
    Undisturbed(c.n);
    KidsStill(c.n);
    forall j | 0 <= j < |c.m.kids| ensures Valid(c.m.kids[j]) && Same(c.n.kids[j], c.m.kids[j]) {
      assert c.m.kids[j].below == c.m.kids[j].below;
      assert c.n.kids[j].below == c.n.kids[j].below;
      SameKept(Copy(c.n.kids[j], c.m.kids[j]));
    }
  }

  twostate lemma KidsStill(n: Node)
    requires old(Valid(n)) && Still(n)
    ensures forall j {:trigger n.kids[j].below} :: 0 <= j < |n.kids| ==> Still(n.kids[j])
  {
    forall j {:trigger n.kids[j].below} | 0 <= j < |n.kids| ensures Still(n.kids[j]) {
      KidInside(n, j);
    }
  }

  /** Crosswires a new item with the last one. */
  method Wire(copy: Item, last: Item?, newchild: Item, ghost hs: seq<Item>)
    requires Chained(hs) && Distinct(hs) && copy.child == At(hs, 0) && newchild !in hs && newchild.next == null
    requires last == if hs == [] then null else hs[|hs| - 1]
    modifies copy`child, newchild`prev, if last == null then {} else {last}`next
    ensures Chained(hs + [newchild]) && copy.child == At(hs + [newchild], 0)
  {
    if last != null {
      last.next := newchild;
      newchild.prev := last;
    } else {
      copy.child := newchild;
    }
  }

  /** Links the copy of the next child behind the others. */
  method Attach(copy: Item, last: Item?, newchild: Item, ghost n: Node, ghost m: Node, ghost s: Node)
    requires m.item == copy && s.item == newchild && Valid(n) && Framed(m) && Copied(n, m) && Valid(s)
    requires Items(n) !! Items(m) && Items(n) !! Items(s) && Items(m) !! Items(s)
    requires |m.kids| < |n.kids| && Same(n.kids[|m.kids|], s)
    requires last == (if m.kids == [] then null else m.kids[|m.kids| - 1].item) && newchild.next == null
    modifies copy`child, newchild`prev, if last == null then {} else {last}`next
    ensures Framed(Grown(m, |m.kids|, s)) && Valid(n) && Copied(n, Grown(m, |m.kids|, s))
  {
    hide Framed, Listed, Chained, Same;
    ghost var g := Grown(m, |m.kids|, s);
    GrownFramed(m, |m.kids|, s);
    HeadsApart(m);
    HeadsApart(g);
    label before:
    Wire(copy, last, newchild, Heads(m.kids));
    assert Heads(g.kids) == Heads(m.kids) + [newchild];
    CopiedKept@before(Copy(n, g));
  }

  lemma Childless(n: Node, m: Node)
    requires Valid(n) && m.kids == [] && m.below == {} && m.item.child == null
    ensures Framed(m) && Valid(m) && Copied(n, m)
  {
  }

  method Close(copy: Item, last: Item?, ghost n: Node, ghost m: Node)
    requires m.item == copy && Valid(n) && Framed(m) && Copied(n, m) && Items(n) !! Items(m)
    requires last == if m.kids == [] then null else m.kids[|m.kids| - 1].item
    modifies if copy.child == null then {} else {copy.child}`prev
    ensures Valid(n) && Valid(m)
    ensures forall j :: 0 <= j < |m.kids| ==> Same(n.kids[j], m.kids[j])
  {
    hide Framed, Listed, Chained, Same;
    HeadsApart(m);
    label before:
    CloseList(copy.child, last, Heads(m.kids));
    CopiedKept@before(Copy(n, m));
  }

  /** Where the copying is: `last` is the copy linked last. */
  ghost predicate Copying(n: Node, m: Node, last: Item?)
    requires Valid(n)
    reads n.item, n.below, m.item, m.below
  {
    && Framed(m) && Copied(n, m) && m.item.next == null && m.item.prev == null && SameFields(n.item, m.item)
    && last == if m.kids == [] then null else m.kids[|m.kids| - 1].item
  }

  /** Copies the next child, `child`. */
  method CopyChild(copy: Item, child: Item, last: Item?, ghost n: Node, ghost m: Node) returns (newchild: Item, ghost g: Node)
    requires m.item == copy && Valid(n) && Copying(n, m, last) && copy !in Items(n) && Items(n) !! m.below
    requires |m.kids| < |n.kids| && child == n.kids[|m.kids|].item
    modifies copy`child, if last == null then {} else {last}`next
    ensures g.item == copy && |g.kids| == |m.kids| + 1 && fresh(g.below - m.below)
    ensures Valid(n) && Copying(n, g, newchild) && fresh(newchild)
    ensures child.next == At(Heads(n.kids), |g.kids|)
    decreases n, 0
  {
    hide Listed, Chained, Copied;
    NextChild(n);
    ghost var s;
    newchild, s := Duplicate(child, true, n.kids[|m.kids|]);
    Attach(copy, last, newchild, n, m, s);
    g := Grown(m, |m.kids|, s);
    NextChild(n);
  }

  method Duplicate(item: Item, recurse: bool, ghost n: Node) returns (copy: Item, ghost m: Node)
    requires n.item == item && Valid(n)
    ensures m.item == copy && fresh(Items(m)) && Valid(n) && Valid(m)
    ensures if recurse then Same(n, m) else m.kids == [] && SameFields(item, copy)
    ensures copy.next == null && copy.prev == null
    decreases n, 2
  {
    hide Framed, Listed, Chained, Copied;
    copy := new Item();
    copy.kind, copy.number, copy.text, copy.name := item.kind, item.number, item.text, item.name;
    m := Node(copy, [], {});
    Childless(n, m);
    if recurse {
      m := CopyChildren(item, copy, n, m);
    }
  }

  /** Walks the list of children. */
  method CopyChildren(item: Item, copy: Item, ghost n: Node, ghost m0: Node) returns (ghost m: Node)
    requires n.item == item && m0.item == copy && Valid(n) && m0.kids == [] && m0.below == {} && copy !in Items(n)
    requires Copying(n, m0, null)
    modifies copy`child
    ensures m.item == copy && fresh(m.below) && Valid(n) && Valid(m) && Same(n, m)
    ensures copy.next == null && copy.prev == null
    decreases n, 1
  {
    m := m0;
    NextChild(n);
    hide Framed, Listed, Chained, Copied, Copying, Valid, Same, Items, Heads;
    var child, last: Item? := item.child, null;
    var newchild: Item? := null;
    while child != null
      invariant |m.kids| <= |n.kids| && child == At(Heads(n.kids), |m.kids|) && Valid(n)
      invariant m.item == copy && fresh(m.below) && Copying(n, m, last)
      invariant last == newchild && (last == null || fresh(last))
      decreases |n.kids| - |m.kids|
    {
      newchild, m := CopyChild(copy, child, last, n, m);
      last := newchild;
      child := child.next;
    }
    Finish(copy, newchild, n, m);
  }

  method Finish(copy: Item, last: Item?, ghost n: Node, ghost m: Node)
    requires m.item == copy && Valid(n) && Copying(n, m, last) && |m.kids| == |n.kids|
    requires copy !in Items(n) && Items(n) !! m.below
    modifies m.below`prev
    ensures Valid(n) && Valid(m) && Same(n, m) && copy.next == null && copy.prev == null
  {
    hide Listed, Chained;
    assert copy.child == null || copy.child in m.below;
    Close(copy, last, n, m);
  }

  /** A duplicate compares equal to its source exactly if no object has two members with one
      name that denote different values. */
  method DuplicateCompares(item: Item, ghost n: Node, ghost v: Json) returns (r: bool)
    requires n.item == item && Valid(n) && Denotes(n, v) && Proper(v)
    ensures r == Coherent(v)
  {
    hide Listed, Framed, Valid, Denotes, Same, Compare, Coherent, Proper;
    ghost var m;
    var copy;
    copy, m := Duplicate(item, true, n);
    SameDenotes(n, m, v);
    SeparateFair(n, m, v);
    r := CompareItems(item, copy, n, m, v, v);
    CompareMeans(v, v);
  }

  lemma SeparateFair(n: Node, m: Node, v: Json)
    ensures Items(n) !! Items(m) ==> Fair(n, m, v, v)
  {
  }
}
