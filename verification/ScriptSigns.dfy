/** Where a sign may be written for the search to pass over it (src/cmnds/cmd_if.c, lines 62
    and 82 to 108). */
module ScriptSigns {
  import opened Bytes
  import opened ScriptOperators
  import opened ScriptExpressions
  import opened ScriptSyntax

  /** A sign outside brackets, other than one at the very start. */
  predicate Loose(e: Expr) {
    match e
    case Not(_, arg) => Leading(arg) || Loose(arg)
    case Bin(l, _, _, _, r) => Loose(l) || Leading(r) || Loose(r)
    case _ => false
  }

  const SUM := 6

  /** A sign is passed over at the start of an expression, of a bracket without blanks, and
      behind a comparison or a logical operator. Behind an arithmetic operator it must follow
      directly, and there must be no further one within the right operand of a sum. A negation
      takes no sign, and blanks may stand between a bracket and a sign only if the bracket
      holds no product and no lone operand. */
  predicate SignsFit(e: Expr)
    requires WellFormed(e)
    decreases e, 0
  {
    match e
    case Atom(_) => true
    case Signed(_) => true
    case Not(_, arg) => !arg.Signed? && SignsFit(arg)
    case Bin(l, _, op, gapR, r) =>
      && SignsFit(l) && SignsFit(r)
      && (OpPrio(op) <= SUM ==> (Leading(r) ==> gapR == "") && !Loose(r))
    case Paren(padL, inner, _) => SignsFitWithin(padL, inner)
  }

  /** The same for what follows blanks that are not stripped. */
  predicate SignsFitWithin(padL: string, e: Expr)
    requires WellFormed(e)
    decreases e, 1
  {
    SignsFit(e) && (padL != "" && Leading(e) ==> Level(e) >= SUM)
  }

  /** The search changes nothing but its expectation of a sign. */
  predicate Unmoved(e: Expr, i: nat, st: Scan)
    requires WellFormed(e)
  {
    Seen(e, i, st) == st.(skip := NOWHERE)
  }

  /** Behind an operator looser than all of an expression, only signs can be found in it, and
      not even those if the operator is looser than a sum. */
  lemma {:induction false} Tighter(e: Expr, i: nat, st: Scan)
    requires WellFormed(e) && Ready(st, e, i) && Level(e) < st.best
    requires st.best > SUM || (!Loose(e) && (Leading(e) ==> st.skip == i))
    ensures Unmoved(e, i, st)
    decreases e
  {
    match e
    case Atom(_) =>
    case Signed(_) =>
    case Not(gap, arg) => Tighter(arg, i + 1 + |gap|, st);
    case Bin(l, _, op, _, r) =>
      Tighter(l, i, st);
      Tighter(r, RightPos(e, i), st.(skip := NOWHERE));
    case Paren(_, _, _) =>
  }

  lemma {:induction false} Lone(e: Expr, i: nat, st: Scan)
    requires WellFormed(e) && Ready(st, e, i) && !e.Bin? && SignsFit(e) && (Leading(e) ==> st.skip == i)
    ensures Unmoved(e, i, st)
    decreases e
  {
    if e.Not? {
      Lone(e.arg, i + 1 + |e.gap|, st);
    }
  }

  function Max(a: nat, b: nat): nat {
    if a < b then b else a
  }

  /** No operator looser than the outermost one and a minus is met. */
  lemma {:induction false} Bounded(e: Expr, i: nat, st: Scan)
    requires WellFormed(e) && Ready(st, e, i)
    ensures Seen(e, i, st).best <= Max(st.best, Max(Level(e), SUM))
    decreases e
  {
    match e
    case Atom(_) =>
    case Signed(_) =>
    case Not(gap, arg) => Bounded(arg, i + 1 + |gap|, st);
    case Bin(l, _, op, _, r) =>
      Bounded(l, i, st);
      SeenKeeps(l, i, st);
      Bounded(r, RightPos(e, i), Met(Seen(l, i, st), OpPos(e, i), op, Tight(e)));
    case Paren(_, _, _) =>
  }

  const PRODUCT := 4

  /** In a product whose signs fit no sign is met. */
  lemma {:induction false} Product(e: Expr, i: nat, st: Scan)
    requires WellFormed(e) && Ready(st, e, i) && Level(e) <= PRODUCT && st.best <= PRODUCT && st.level == 0
    requires SignsFit(e) && (Leading(e) ==> st.skip == i)
    ensures Seen(e, i, st).best <= PRODUCT
    decreases e
  {
    if e.Bin? {
      Product(e.left, i, st);
      SeenKeeps(e.left, i, st);
      Tighter(e.right, RightPos(e, i), Met(Seen(e.left, i, st), OpPos(e, i), e.op, Tight(e)));
    } else {
      Lone(e, i, st);
    }
  }

  function Root(e: Expr, i: nat): Option<Found>
    requires WellFormed(e)
  {
    if e.Bin? then Some(Found(OpPos(e, i), e.op)) else None
  }

  /** Where the search for the operator of an expression starts. */
  predicate Starts(st: Scan, e: Expr, i: nat) {
    Ready(st, e, i) && st.level == 0 && st.best == 0 && st.found == None
  }

  /** Signs that fit do not keep the search from the outermost operator. */
  lemma RootSeen(e: Expr, i: nat, st: Scan)
    requires WellFormed(e) && Starts(st, e, i) && SignsFit(e)
    requires Leading(e) && st.skip != i ==> Level(e) >= SUM
    ensures Seen(e, i, st).found == Root(e, i)
  {
    if e.Bin? {
      hide Loose, Seen, OpText;
      SeenBin(e, i, st);
      SeenKeeps(e.left, i, st);
      Bounded(e.left, i, st);
      if OpPrio(e.op) == PRODUCT {
        Product(e.left, i, st);
      }
      Tighter(e.right, RightPos(e, i), Met(Seen(e.left, i, st), OpPos(e, i), e.op, Tight(e)));
    } else {
      Lone(e, i, st);
    }
  }

  lemma SeenBin(e: Expr, i: nat, st: Scan)
    requires WellFormed(e) && e.Bin?
    ensures Seen(e, i, st) == Seen(e.right, RightPos(e, i), Met(Seen(e.left, i, st), OpPos(e, i), e.op, Tight(e)))
  {
  }

  /** Comparisons and logical operators are found whatever signs there are. */
  lemma LooseRootSeen(e: Expr, i: nat, st: Scan)
    requires WellFormed(e) && Starts(st, e, i) && e.Bin? && OpPrio(e.op) > SUM
    ensures Seen(e, i, st).found == Root(e, i)
  {
    hide Seen, OpText;
    SeenBin(e, i, st);
    SeenKeeps(e.left, i, st);
    Bounded(e.left, i, st);
    Tighter(e.right, RightPos(e, i), Met(Seen(e.left, i, st), OpPos(e, i), e.op, Tight(e)));
  }

  /** Anything found is in the expression. */
  lemma {:induction false} FoundInside(e: Expr, i: nat, st: Scan)
    requires WellFormed(e)
    ensures var r := Seen(e, i, st).found; r == st.found || (r.Some? && i <= r.value.pos < i + |Render(e)|)
    decreases e
  {
    match e
    case Atom(_) =>
    case Signed(_) =>
    case Not(gap, arg) => FoundInside(arg, i + 1 + |gap|, st);
    case Bin(l, _, op, _, r) =>
      FoundInside(l, i, st);
      FoundInside(r, RightPos(e, i), Met(Seen(l, i, st), OpPos(e, i), op, Tight(e)));
    case Paren(_, _, _) =>
  }

  /** A sign at the start that is not expected is an operator. */
  lemma {:induction false} Unexpected(e: Expr, i: nat, st: Scan)
    requires WellFormed(e) && Ready(st, e, i) && st.level == 0 && Leading(e) && st.skip != i
    ensures Seen(e, i, st).best >= SUM && (e.Signed? && st.best <= SUM ==> Seen(e, i, st).found.Some?)
    decreases e
  {
    if e.Bin? {
      Unexpected(e.left, i, st);
      SeenKeeps(e.left, i, st);
      SeenKeeps(e.right, RightPos(e, i), Met(Seen(e.left, i, st), OpPos(e, i), e.op, Tight(e)));
    }
  }

  /** Behind a sum or a product, a sign that does not follow directly is found. */
  lemma {:induction false} Caught(e: Expr, i: nat, st: Scan)
    requires WellFormed(e) && Ready(st, e, i) && st.level == 0 && Level(e) < st.best <= SUM
    requires (Leading(e) && st.skip != i) || Loose(e)
    ensures var r := Seen(e, i, st); r.best == SUM && r.found.Some? && i <= r.found.value.pos
    decreases e
  {
    hide OpText, Render;
    match e
    case Signed(_) =>
    case Not(gap, arg) => Caught(arg, i + 1 + |gap|, st);
    case Bin(l, _, op, _, r) =>
      var s1 := Seen(l, i, st);
      var s2 := Met(s1, OpPos(e, i), op, Tight(e));
      SeenKeeps(l, i, st);
      if (Leading(l) && st.skip != i) || Loose(l) {
        Caught(l, i, st);
        Bounded(r, RightPos(e, i), s2);
        SeenKeeps(r, RightPos(e, i), s2);
        FoundInside(r, RightPos(e, i), s2);
      } else {
        Tighter(l, i, st);
        Caught(r, RightPos(e, i), s2);
      }
  }

  /** If the outermost operator is found, the signs around it fit. */
  lemma RootFits(e: Expr, i: nat, st: Scan)
    requires WellFormed(e) && Starts(st, e, i) && e.Bin? && Seen(e, i, st).found == Root(e, i)
    ensures OpPrio(e.op) <= SUM ==> (Leading(e.right) ==> e.gapR == "") && !Loose(e.right)
    ensures Leading(e) && st.skip != i ==> Level(e) >= SUM
  {
    hide Loose, Seen, OpText;
    SeenBin(e, i, st);
    var s1, f := Seen(e.left, i, st), RightPos(e, i);
    var s2 := Met(s1, OpPos(e, i), e.op, Tight(e));
    SeenKeeps(e.left, i, st);
    FoundInside(e.left, i, st);
    FoundInside(e.right, f, s2);
    assert s1.best <= OpPrio(e.op);
    if Leading(e.left) && st.skip != i {
      Unexpected(e.left, i, st);
    }
    if OpPrio(e.op) <= SUM && ((Leading(e.right) && e.gapR != "") || Loose(e.right)) {
      Caught(e.right, f, s2);
    }
  }
}
