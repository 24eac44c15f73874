/** Evaluation loses no character but blanks and brackets, whatever the text
    (src/cmnds/cmd_if.c, lines 885 to 966). */
module ScriptCounts {
  import opened Bytes
  import opened ScriptOperators
  import opened ScriptExpressions
  import opened ScriptSyntax

  /** What the evaluator takes an expression for: blanks inside brackets stay with a lone
      operand. */
  datatype Tree = Leaf(text: string) | Neg(arg: Tree) | Op(op: nat, left: Tree, right: Tree)

  function Interp<V>(sem: Semantics<V>, tree: Tree): V {
    match tree
    case Leaf(text) => sem.atom(text)
    case Neg(arg) => sem.neg(Interp(sem, arg))
    case Op(op, l, r) => sem.bin(op, Interp(sem, l), Interp(sem, r))
  }

  /** The meaning that tells any two expressions apart. */
  function Free(): Semantics<Tree> {
    Semantics(Leaf(""), text => Leaf(text), (op, l, r) => Op(op, l, r), arg => Neg(arg))
  }

  lemma {:induction false} FreeInterp(tree: Tree)
    ensures Interp(Free(), tree) == tree
  {
    match tree
    case Leaf(_) =>
    case Neg(arg) => FreeInterp(arg);
    case Op(_, l, r) => FreeInterp(l); FreeInterp(r);
  }

  /** The characters counted: not the second ones of operators either. */
  function Counted(c: char): nat {
    if IsBlank(c) || c == '(' || c == ')' || Pairs(c) then 0 else 1
  }

  function Count(s: string): nat {
    if s == "" then 0 else Counted(s[0]) + Count(s[1..])
  }

  function CountIn(t: string, s: nat, stop: nat): nat
    requires stop <= |t|
  {
    if s > stop then 0 else Count(t[s..stop])
  }

  function Weight(tree: Tree): nat {
    match tree
    case Leaf(text) => Count(text)
    case Neg(arg) => 1 + Weight(arg)
    case Op(op, l, r) => Weight(l) + (if op < OPERATORS then Counted(OpText(op)[0]) else 0) + Weight(r)
  }

  lemma {:induction false} CountConcat(a: string, b: string)
    ensures Count(a + b) == Count(a) + Count(b)
  {
    if a == "" {
      assert a + b == b;
    } else {
      assert (a + b)[1..] == a[1..] + b;
      CountConcat(a[1..], b);
    }
  }

  lemma CountCut(t: string, s: nat, k: nat, stop: nat)
    requires s <= k <= stop <= |t|
    ensures CountIn(t, s, stop) == CountIn(t, s, k) + CountIn(t, k, stop)
  {
    assert t[s..stop] == t[s..k] + t[k..stop];
    CountConcat(t[s..k], t[k..stop]);
  }

  lemma CountFirst(t: string, s: nat, stop: nat)
    requires s < stop <= |t|
    ensures CountIn(t, s, stop) == Counted(t[s]) + CountIn(t, s + 1, stop)
  {
    assert t[s..stop][1..] == t[s + 1..stop];
  }

  lemma CountLast(t: string, s: nat, stop: nat)
    requires s < stop <= |t|
    ensures CountIn(t, s, stop) == CountIn(t, s, stop - 1) + Counted(t[stop - 1])
  {
    hide Counted;
    CountCut(t, s, stop - 1, stop);
    CountFirst(t, stop - 1, stop);
  }

  lemma {:induction false} TrimEndCount(t: string, s: nat, stop: nat)
    requires stop <= |t|
    ensures CountIn(t, s, TrimEnd(t, s, stop)) == CountIn(t, s, stop)
    decreases stop
  {
    hide Count;
    if stop > s && IsBlank(t[stop - 1]) {
      CountLast(t, s, stop);
      TrimEndCount(t, s, stop - 1);
    }
  }

  lemma {:induction false} TrimStartCount(t: string, s: nat, stop: nat)
    requires s <= |t| && stop <= |t|
    ensures var r := TrimStart(t, s, stop);
      CountIn(t, s, stop) == if r.None? then 0 else CountIn(t, r.value, stop)
    decreases |t| - s
  {
    hide Count;
    if IsBlank(At(t, s)) {
      if s < stop {
        CountFirst(t, s, stop);
      }
      if s + 1 >= stop {
        NothingBetween(t, s + 1, stop);
        NothingBetween(t, s, stop);
      } else {
        TrimStartCount(t, s + 1, stop);
      }
    }
  }

  lemma NothingBetween(t: string, s: nat, stop: nat)
    requires stop <= |t|
    ensures s >= stop ==> CountIn(t, s, stop) == 0
  {
  }

  lemma {:induction false} StripCount(t: string, s: nat, stop: nat)
    requires s <= |t| && stop <= |t|
    ensures var r := Strip(t, s, stop); CountIn(t, r.s, r.stop) == CountIn(t, s, stop)
    decreases stop
  {
    hide Count;
    if Enclosed(t, s, stop) {
      if s < stop - 1 {
        CountFirst(t, s, stop);
        CountLast(t, s + 1, stop);
      } else {
        EnclosedTwo(t, s, stop);
      }
      StripCount(t, s + 1, stop - 1);
    }
  }

  lemma EnclosedTwo(t: string, s: nat, stop: nat)
    requires s <= |t| && stop <= |t| && Enclosed(t, s, stop)
    ensures s < stop - 1
  {
  }

  lemma TrimmedCount(t: string, s: nat, stop: nat)
    requires s <= |t| && stop <= |t|
    ensures var r := Trimmed(t, s, stop);
      CountIn(t, s, stop) == if r.None? then 0 else CountIn(t, r.value.s, r.value.stop)
  {
    hide CountIn, Strip;
    var end := TrimEnd(t, s, stop);
    TrimEndCount(t, s, stop);
    TrimStartCount(t, s, end);
    var start := TrimStart(t, s, end);
    if start.Some? {
      StripCount(t, start.value, end);
    }
  }

  lemma SplitCount(t: string, s: nat, stop: nat, k: nat, o: nat)
    requires IsText(t) && s <= k < stop <= |t| && o < OPERATORS && Matches(t, k, o)
    ensures CountIn(t, s, stop) == CountIn(t, s, k) + Counted(OpText(o)[0]) + CountIn(t, k + OpLen(o), stop)
  {
    hide Count, Counted;
    CountCut(t, s, k, stop);
    CountFirst(t, k, stop);
    if OpLen(o) == 2 {
      PairUncounted(o);
      if k + 1 < stop {
        CountFirst(t, k + 1, stop);
      } else {
        NothingBetween(t, k + 1, stop);
      }
    }
  }

  lemma PairUncounted(o: nat)
    requires o < OPERATORS && OpLen(o) == 2
    ensures Counted(OpText(o)[1]) == 0
  {
  }

  /** A slice that ends at a `!` ends at the operator `!=`, as all slices do that come about
      when a whole text is evaluated. */
  predicate EndsWell(t: string, stop: nat) {
    At(t, stop) == '!' ==> At(t, stop + 1) == '='
  }

  lemma {:induction false} TrimEndWell(t: string, s: nat, stop: nat)
    requires stop <= |t| && EndsWell(t, stop)
    ensures EndsWell(t, TrimEnd(t, s, stop))
    decreases stop
  {
    if stop > s && IsBlank(t[stop - 1]) {
      TrimEndWell(t, s, stop - 1);
    }
  }

  lemma {:induction false} StripWell(t: string, s: nat, stop: nat)
    requires s <= |t| && EndsWell(t, stop)
    ensures EndsWell(t, Strip(t, s, stop).stop)
    decreases stop
  {
    if Enclosed(t, s, stop) {
      StripWell(t, s + 1, stop - 1);
    }
  }

  lemma TrimmedWell(t: string, s: nat, stop: nat)
    requires s <= |t| && stop <= |t| && EndsWell(t, stop)
    ensures var r := Trimmed(t, s, stop); r.Some? ==> EndsWell(t, r.value.stop)
  {
    hide EndsWell, Strip;
    TrimEndWell(t, s, stop);
    var end := TrimEnd(t, s, stop);
    var start := TrimStart(t, s, end);
    if start.Some? {
      StripWell(t, start.value, end);
    }
  }

  lemma MatchWell(t: string, k: nat, o: nat)
    requires o < OPERATORS && Matches(t, k, o)
    ensures EndsWell(t, k)
  {
  }

  /** Conservation: the tree that any text is taken for has its counted characters. */
  lemma {:induction false} Conserved(t: string, s: nat, stop: nat)
    requires IsText(t) && s <= |t| && stop <= |t| && EndsWell(t, stop)
    ensures var r := Eval(Free(), t, s, stop); r.Value? ==> Weight(r.value) == CountIn(t, s, stop)
    decreases Size(s, stop), 1
  {
    hide Trimmed, EvalInner, CountIn, EndsWell;
    TrimmedCount(t, s, stop);
    TrimmedWell(t, s, stop);
    NothingLeft(t, s, stop);
    var inner := Trimmed(t, s, stop);
    if inner.Some? {
      ConservedInner(t, inner.value.s, inner.value.stop);
    }
  }

  lemma NothingLeft(t: string, s: nat, stop: nat)
    requires stop <= |t|
    ensures Weight(Leaf("")) == 0 && (s == |t| ==> CountIn(t, s, stop) == 0)
  {
  }

  lemma {:induction false} ConservedInner(t: string, s: nat, stop: nat)
    requires IsText(t) && s <= |t| && stop <= |t| && EndsWell(t, stop)
    ensures var r := EvalInner(Free(), t, s, stop); r.Value? ==> Weight(r.value) == CountIn(t, s, stop)
    decreases Size(s, stop), 0
  {
    hide Eval, FindOp, Count, Matches, EndsWell;
    if s <= stop {
      var found := FindOp(t, s, stop);
      if found.Some? {
        var k, o := found.value.pos, found.value.op;
        MatchFits(t, k, o);
        MatchWell(t, k, o);
        Conserved(t, s, k);
        Conserved(t, k + OpLen(o), stop);
        SplitCount(t, s, stop, k, o);
      } else if At(t, s) == '!' {
        if s < stop {
          Conserved(t, s + 1, stop);
          CountFirst(t, s, stop);
        } else {
          NothingNegated(t, s);
        }
      }
    }
  }

  lemma NothingNegated(t: string, s: nat)
    requires IsText(t) && s < |t| && At(t, s) == '!' && EndsWell(t, s)
    ensures Eval(Free(), t, s + 1, s) == Stuck
  {
  }
}
