/** Expressions of the script language as they are written, with the blanks and brackets the
    writer chose, and how the search for operators runs over them. */
module ScriptSyntax {
  import opened Bytes
  import opened ScriptOperators
  import opened ScriptExpressions

  datatype Expr =
    | Atom(text: string)
    | Signed(digits: string)
    | Not(gap: string, arg: Expr)
    | Bin(left: Expr, gapL: string, op: nat, gapR: string, right: Expr)
    | Paren(padL: string, inner: Expr, padR: string)

  /** Characters that can be the second of an operator. */
  predicate Pairs(c: char) {
    c == '=' || c == '&' || c == '|'
  }

  /** Characters that are no operator without a second one. */
  predicate Half(c: char) {
    Pairs(c) || c == '!'
  }

  predicate OpChar(c: char) {
    c == '>' || c == '<' || c == '!' || c == '+' || c == '-' || c == '*' || c == '/' || c == '%' || Pairs(c)
  }

  /** Neither operator nor bracket: the search passes over it. */
  predicate Plain(c: char) {
    !OpChar(c) && c != '(' && c != ')' && c != '\0'
  }

  predicate AtomChar(c: char) {
    Plain(c) && !IsBlank(c)
  }

  predicate Blanks(s: string) {
    forall i :: 0 <= i < |s| ==> IsBlank(s[i])
  }

  predicate Atomic(s: string) {
    s != [] && forall i :: 0 <= i < |s| ==> AtomChar(s[i])
  }

  /** What a sign may be written before: the source looks for a digit behind it. */
  predicate Number(s: string) {
    Atomic(s) && IsDigit(s[0])
  }

  function Level(e: Expr): nat {
    if e.Bin? && e.op < OPERATORS then OpPrio(e.op) else 0
  }

  /** What may be written without further brackets: operators to the left of a binary one
      bind at least as tight, those to its right tighter, and a negation takes a single
      operand. */
  predicate WellFormed(e: Expr) {
    match e
    case Atom(text) => Atomic(text)
    case Signed(digits) => Number(digits)
    case Not(gap, arg) => Blanks(gap) && !arg.Bin? && WellFormed(arg)
    case Bin(l, gapL, op, gapR, r) =>
      && op < OPERATORS && Blanks(gapL) && Blanks(gapR) && WellFormed(l) && WellFormed(r)
      && Level(l) <= OpPrio(op) && Level(r) < OpPrio(op)
    case Paren(padL, inner, padR) => Blanks(padL) && Blanks(padR) && WellFormed(inner)
  }

  function Render(e: Expr): string
    requires WellFormed(e)
  {
    match e
    case Atom(text) => text
    case Signed(digits) => "-" + digits
    case Not(gap, arg) => "!" + (gap + Render(arg))
    case Bin(l, gapL, op, gapR, r) => Render(l) + (gapL + (OpText(op) + (gapR + Render(r))))
    case Paren(padL, inner, padR) => "(" + (padL + (Render(inner) + (padR + ")")))
  }

  /** An expression that begins with a sign. */
  predicate Leading(e: Expr) {
    match e
    case Signed(_) => true
    case Bin(l, _, _, _, _) => Leading(l)
    case _ => false
  }

  lemma {:induction false} Ends(e: Expr)
    requires WellFormed(e)
    ensures var s := Render(e);
      && |s| > 0
      && (AtomChar(s[0]) || s[0] == '(' || s[0] == '!' || s[0] == '-')
      && (s[0] == '-' <==> Leading(e))
      && (Leading(e) ==> |s| > 1 && IsDigit(s[1]))
      && (AtomChar(s[|s| - 1]) || s[|s| - 1] == ')')
    ensures !e.Bin? ==> (Render(e)[0] == '(' <==> e.Paren?) && (Render(e)[0] == '!' <==> e.Not?)
  {
    match e
    case Atom(_) =>
    case Signed(_) =>
    case Not(_, arg) => Ends(arg);
    case Bin(l, _, _, _, r) => Ends(l); Ends(r);
    case Paren(_, inner, _) =>
  }

  lemma ReadsAt(t: string, i: nat, s: string, k: nat)
    requires Reads(t, i, s) && k < |s|
    ensures At(t, i + k) == s[k]
  {
    ReadsItem(t, i, s, k);
  }

  lemma {:induction false} ScanJoin(t: string, k: nat, l: nat, m: nat, st: Scan)
    requires k <= l <= m
    ensures ScanTo(t, k, m, st) == ScanTo(t, l, m, ScanTo(t, k, l, st))
    decreases l - k
  {
    if k < l {
      ScanJoin(t, k + 1, l, m, ScanStep(t, k, st));
    }
  }

  lemma {:induction false} TryNone(t: string, k: nat, st: Scan, o: nat)
    requires o <= OPERATORS && forall p :: o <= p < OPERATORS ==> !Matches(t, k, p)
    ensures TryAll(t, k, st, o) == st
    decreases OPERATORS - o
  {
    if o < OPERATORS {
      TryNone(t, k, st, o + 1);
    }
  }

  lemma NoMatch(t: string, k: nat)
    requires !OpChar(At(t, k)) || (Half(At(t, k)) && !Pairs(At(t, k + 1)))
    ensures forall o :: 0 <= o < OPERATORS ==> !Matches(t, k, o)
  {
  }

  /** The search passes over a character at which no operator starts. */
  lemma StepOver(t: string, k: nat, st: Scan)
    requires st.skip != k && At(t, k) != '(' && At(t, k) != ')'
    requires !OpChar(At(t, k)) || (Half(At(t, k)) && !Pairs(At(t, k + 1)))
    ensures ScanStep(t, k, st) == st && ScanTo(t, k, k + 1, st) == st
  {
    hide OpChar, Matches, TryAll;
    NoMatch(t, k);
    TryNone(t, k, st, 0);
  }

  lemma {:induction false} ScanPlain(t: string, i: nat, s: string, st: Scan)
    requires Reads(t, i, s) && st.skip == NOWHERE && forall k :: 0 <= k < |s| ==> Plain(s[k])
    ensures ScanTo(t, i, i + |s|, st) == st
    decreases |s|
  {
    if s != [] {
      hide TryAll, ScanStep, Reads, Plain, Matches;
      ReadsAt(t, i, s, 0);
      PlainStep(t, i, st);
      assert s == [s[0]] + s[1..];
      ReadsSplit(t, i, [s[0]], s[1..]);
      ScanPlain(t, i + 1, s[1..], st);
    }
  }

  lemma PlainStep(t: string, k: nat, st: Scan)
    requires st.skip == NOWHERE && Plain(At(t, k))
    ensures ScanStep(t, k, st) == st
  {
    StepOver(t, k, st);
  }

  lemma BlanksPlain(s: string)
    requires Blanks(s)
    ensures forall k :: 0 <= k < |s| ==> Plain(s[k])
  {
  }

  lemma {:induction false} TryDeep(t: string, k: nat, st: Scan, o: nat)
    requires o <= OPERATORS && (st.level > 0 || forall p :: o <= p < OPERATORS && Matches(t, k, p) ==> OpPrio(p) < st.best)
    requires st.level >= 0
    ensures TryAll(t, k, st, o) == st
    decreases OPERATORS - o
  {
    if o < OPERATORS {
      TryDeep(t, k, st, o + 1);
    }
  }

  /** The operators that match at a position have one priority, and the last of them is the
      one written there. */
  lemma OpMatches(t: string, k: nat, o: nat)
    requires o < OPERATORS && Reads(t, k, OpText(o)) && !Pairs(At(t, k + OpLen(o)))
    ensures Matches(t, k, o)
    ensures forall p :: 0 <= p < OPERATORS && Matches(t, k, p) ==> p <= o && OpPrio(p) == OpPrio(o)
  {
    ReadsAt(t, k, OpText(o), 0);
    if OpLen(o) == 2 {
      ReadsAt(t, k, OpText(o), 1);
    }
  }

  lemma {:induction false} TryLast(t: string, k: nat, st: Scan, c: nat, o: nat)
    requires c <= o < OPERATORS && Matches(t, k, o)
    requires forall p :: 0 <= p < OPERATORS && Matches(t, k, p) ==> p <= o && OpPrio(p) == OpPrio(o)
    requires st.level == 0 && st.best <= OpPrio(o)
    ensures TryAll(t, k, st, c) == Met(st, k, o, At(t, k + OpLen(o)) == '-')
    decreases o - c
  {
    hide Matches, OpPrio, OpText;
    if c < o {
      TryLast(t, k, Try(t, k, st, c), c + 1, o);
    } else {
      TryNone(t, k, Try(t, k, st, o), o + 1);
    }
  }

  /** What an operator written at a position does to the search: it is the best so far if it
      is outside brackets and none looser came before, and then a minus directly behind it is
      a sign. */
  function Met(st: Scan, k: nat, o: nat, signed: bool): Scan
    requires o < OPERATORS
  {
    if st.level == 0 && st.best <= OpPrio(o) then
      Scan(0, OpPrio(o), Some(Found(k, o)), if signed then k + OpLen(o) else NOWHERE)
    else st
  }

  /** A state in which the search may come to an expression at position `i`. */
  predicate Ready(st: Scan, e: Expr, i: nat) {
    st.level >= 0 && st.best <= 12 && (st.skip == NOWHERE || (st.skip == i && Leading(e)))
  }

  lemma OpBegins(o: nat)
    requires o < OPERATORS
    ensures OpText(o)[0] != '(' && OpText(o)[0] != ')'
    ensures OpLen(o) == 2 ==> Pairs(OpText(o)[1])
  {
  }

  lemma ScanOp(t: string, k: nat, o: nat, st: Scan)
    requires o < OPERATORS && Reads(t, k, OpText(o)) && !Pairs(At(t, k + OpLen(o)))
    requires st.skip == NOWHERE && st.level >= 0
    ensures ScanTo(t, k, k + OpLen(o), st) == Met(st, k, o, At(t, k + OpLen(o)) == '-')
  {
    hide Matches, OpText, TryAll, Try;
    OpMatches(t, k, o);
    OpBegins(o);
    ReadsAt(t, k, OpText(o), 0);
    if st.level == 0 && st.best <= OpPrio(o) {
      TryLast(t, k, st, 0, o);
    } else {
      TryDeep(t, k, st, 0);
    }
    var met := Met(st, k, o, At(t, k + OpLen(o)) == '-');
    assert ScanStep(t, k, st) == met;
    if OpLen(o) == 2 {
      ReadsAt(t, k, OpText(o), 1);
      StepOver(t, k + 1, met);
    }
  }

  /** Where the operator of a binary expression is. */
  function OpPos(e: Expr, i: nat): nat
    requires WellFormed(e) && e.Bin?
  {
    i + |Render(e.left)| + |e.gapL|
  }

  /** Where its right operand is. */
  function RightPos(e: Expr, i: nat): nat
    requires WellFormed(e) && e.Bin?
  {
    OpPos(e, i) + OpLen(e.op) + |e.gapR|
  }

  /** A minus directly behind the operator. */
  predicate Tight(e: Expr)
    requires e.Bin?
  {
    e.gapR == "" && Leading(e.right)
  }

  const MINUS := 9

  /** The search over a whole expression. A sign that it does not expect is an operator to
      it. */
  function Seen(e: Expr, i: nat, st: Scan): Scan
    requires WellFormed(e)
  {
    match e
    case Atom(_) => st
    case Signed(_) => if st.skip == i then st.(skip := NOWHERE) else Met(st, i, MINUS, false)
    case Not(gap, arg) => Seen(arg, i + 1 + |gap|, st)
    case Bin(l, _, op, _, r) => Seen(r, RightPos(e, i), Met(Seen(l, i, st), OpPos(e, i), op, Tight(e)))
    case Paren(_, _, _) => st
  }

  /** What the search keeps over an expression. */
  lemma {:induction false} SeenKeeps(e: Expr, i: nat, st: Scan)
    requires WellFormed(e) && Ready(st, e, i)
    ensures var r := Seen(e, i, st);
      && r.level == st.level && st.best <= r.best <= 12 && r.skip == NOWHERE
      && (st.level > 0 && st.skip == NOWHERE ==> r == st)
    decreases e
  {
    hide OpText;
    match e
    case Atom(_) =>
    case Signed(_) =>
    case Not(gap, arg) => SeenKeeps(arg, i + 1 + |gap|, st);
    case Bin(l, _, op, _, r) =>
      SeenKeeps(l, i, st);
      SeenKeeps(r, RightPos(e, i), Met(Seen(l, i, st), OpPos(e, i), op, Tight(e)));
    case Paren(_, _, _) =>
  }

  /** Where the parts of a binary expression are, that no two-character operator arises where
      they meet, and whether a sign does. */
  lemma BinParts(e: Expr, t: string, i: nat)
    requires WellFormed(e) && e.Bin? && Reads(t, i, Render(e))
    ensures var k := OpPos(e, i);
      var f := k + OpLen(e.op) + |e.gapR|;
      && Reads(t, i, Render(e.left)) && Reads(t, i + |Render(e.left)|, e.gapL) && Reads(t, k, OpText(e.op))
      && Reads(t, k + OpLen(e.op), e.gapR) && Reads(t, f, Render(e.right))
      && f + |Render(e.right)| == i + |Render(e)|
      && !Pairs(At(t, k + OpLen(e.op))) && (At(t, k + OpLen(e.op)) == '-' <==> Tight(e))
  {
    hide Reads, OpText, Pairs, Blanks;
    var k, s, r := OpPos(e, i), OpText(e.op), Render(e.right);
    ReadsFive(t, i, Render(e.left), e.gapL, s, e.gapR, r);
    Ends(e.right);
    ReadsAt(t, k + |s|, e.gapR + r, 0);
    NextPlain(e.gapR, e.right);
  }

  lemma ReadsFive(t: string, i: nat, a: string, b: string, c: string, d: string, e: string)
    requires Reads(t, i, a + (b + (c + (d + e))))
    ensures Reads(t, i, a) && Reads(t, i + |a|, b) && Reads(t, i + |a| + |b|, c)
    ensures Reads(t, i + |a| + |b| + |c|, d) && Reads(t, i + |a| + |b| + |c| + |d|, e)
    ensures Reads(t, i + |a| + |b| + |c|, d + e)
  {
    hide Reads;
    ReadsSplit(t, i, a, b + (c + (d + e)));
    ReadsSplit(t, i + |a|, b, c + (d + e));
    ReadsSplit(t, i + |a| + |b|, c, d + e);
    ReadsSplit(t, i + |a| + |b| + |c|, d, e);
  }

  lemma NextPlain(gap: string, r: Expr)
    requires WellFormed(r) && Blanks(gap)
    ensures var s := gap + Render(r); s != [] && !Pairs(s[0]) && (s[0] == '-' <==> gap == "" && Leading(r))
  {
    Ends(r);
  }

  lemma {:induction false} ScanExpr(e: Expr, t: string, i: nat, st: Scan)
    requires WellFormed(e) && Reads(t, i, Render(e)) && Ready(st, e, i)
    ensures ScanTo(t, i, i + |Render(e)|, st) == Seen(e, i, st)
    decreases e
  {
    hide Reads, ScanTo, OpText, Blanks, Met;
    match e
    case Atom(text) => ScanPlain(t, i, text, st);
    case Signed(_) => ScanSigned(e, t, i, st);
    case Not(_, _) => ScanNot(e, t, i, st);
    case Bin(_, _, _, _, _) => ScanBin(e, t, i, st);
    case Paren(_, _, _) => ScanParen(e, t, i, st);
  }

  lemma SignedParts(e: Expr, t: string, i: nat)
    requires WellFormed(e) && e.Signed? && Reads(t, i, Render(e))
    ensures Reads(t, i, "-") && At(t, i) == '-' && IsDigit(At(t, i + 1)) && Reads(t, i + 1, e.digits)
  {
    hide Reads;
    ReadsSplit(t, i, "-", e.digits);
    ReadsAt(t, i, "-", 0);
    ReadsAt(t, i + 1, e.digits, 0);
  }

  lemma ScanSigned(e: Expr, t: string, i: nat, st: Scan)
    requires WellFormed(e) && e.Signed? && Reads(t, i, Render(e)) && Ready(st, e, i)
    ensures ScanTo(t, i, i + |Render(e)|, st) == Seen(e, i, st)
  {
    hide Reads, TryAll, Plain;
    SignedParts(e, t, i);
    var next := Seen(e, i, st);
    if st.skip != i {
      ScanOp(t, i, MINUS, st);
    }
    assert ScanTo(t, i, i + 1, st) == next;
    assert forall k :: 0 <= k < |e.digits| ==> Plain(e.digits[k]);
    ScanPlain(t, i + 1, e.digits, next);
    ScanJoin(t, i, i + 1, i + |Render(e)|, st);
  }

  lemma NotParts(e: Expr, t: string, i: nat)
    requires WellFormed(e) && e.Not? && Reads(t, i, Render(e))
    ensures At(t, i) == '!' && !Pairs(At(t, i + 1))
    ensures Reads(t, i + 1, e.gap) && Reads(t, i + 1 + |e.gap|, Render(e.arg))
    ensures Reads(t, i + 1, e.gap + Render(e.arg))
  {
    hide Reads;
    var tail := e.gap + Render(e.arg);
    ReadsSplit(t, i, "!", tail);
    ReadsSplit(t, i + 1, e.gap, Render(e.arg));
    ReadsAt(t, i, "!", 0);
    ReadsAt(t, i + 1, tail, 0);
    Ends(e.arg);
    NextPlain(e.gap, e.arg);
  }

  lemma {:induction false} ScanNot(e: Expr, t: string, i: nat, st: Scan)
    requires WellFormed(e) && e.Not? && Reads(t, i, Render(e)) && Ready(st, e, i)
    ensures ScanTo(t, i, i + |Render(e)|, st) == Seen(e, i, st)
    decreases e, 0
  {
    hide Reads, ScanTo, Blanks, Met;
    NotParts(e, t, i);
    StepOver(t, i, st);
    BlanksPlain(e.gap);
    ScanPlain(t, i + 1, e.gap, st);
    ScanExpr(e.arg, t, i + 1 + |e.gap|, st);
    ScanThree(t, i, i + 1, i + 1 + |e.gap|, i + |Render(e)|, st);
  }

  lemma ScanThree(t: string, a: nat, b: nat, c: nat, d: nat, st: Scan)
    requires a <= b <= c <= d
    ensures ScanTo(t, a, d, st) == ScanTo(t, c, d, ScanTo(t, b, c, ScanTo(t, a, b, st)))
  {
    ScanJoin(t, a, b, d, st);
    ScanJoin(t, b, c, d, ScanTo(t, a, b, st));
  }

  lemma {:induction false} ScanBin(e: Expr, t: string, i: nat, st: Scan)
    requires WellFormed(e) && e.Bin? && Reads(t, i, Render(e)) && Ready(st, e, i)
    ensures ScanTo(t, i, i + |Render(e)|, st) == Seen(e, i, st)
    decreases e, 0
  {
    hide Reads, ScanTo, OpText, Blanks, Render;
    BinParts(e, t, i);
    var a, k, d, f := i + |Render(e.left)|, OpPos(e, i), OpPos(e, i) + OpLen(e.op), RightPos(e, i);
    var s1 := Seen(e.left, i, st);
    var s2 := Met(s1, k, e.op, Tight(e));
    SeenKeeps(e.left, i, st);
    ScanExpr(e.left, t, i, st);
    ScanGap(t, a, e.gapL, s1);
    ScanThree(t, i, a, k, i + |Render(e)|, st);
    ScanOp(t, k, e.op, s1);
    ScanGap(t, d, e.gapR, s2);
    ScanThree(t, k, d, f, i + |Render(e)|, s1);
    ScanExpr(e.right, t, f, s2);
  }

  lemma ScanGap(t: string, i: nat, gap: string, st: Scan)
    requires Reads(t, i, gap) && Blanks(gap) && (gap == "" || st.skip == NOWHERE)
    ensures ScanTo(t, i, i + |gap|, st) == st
  {
    hide Reads;
    BlanksPlain(gap);
    if gap != "" {
      ScanPlain(t, i, gap, st);
    }
  }

  lemma ParenParts(e: Expr, t: string, i: nat)
    requires WellFormed(e) && e.Paren? && Reads(t, i, Render(e))
    ensures var c := i + 1 + |e.padL| + |Render(e.inner)|;
      && At(t, i) == '(' && Reads(t, i + 1, e.padL) && Reads(t, i + 1 + |e.padL|, Render(e.inner))
      && Reads(t, c, e.padR) && At(t, c + |e.padR|) == ')'
      && i + |Render(e)| == c + |e.padR| + 1
      && Reads(t, i + 1, e.padL + (Render(e.inner) + e.padR))
  {
    hide Reads, Blanks;
    var s := Render(e.inner);
    var body := e.padL + (s + (e.padR + ")"));
    ReadsSplit(t, i, "(", body);
    ReadsAt(t, i, "(", 0);
    ReadsSplit(t, i + 1, e.padL, s + (e.padR + ")"));
    ReadsSplit(t, i + 1 + |e.padL|, s, e.padR + ")");
    ReadsSplit(t, i + 1 + |e.padL| + |s|, e.padR, ")");
    ReadsAt(t, i + 1 + |e.padL| + |s| + |e.padR|, ")", 0);
    assert body == (e.padL + (s + e.padR)) + ")";
    ReadsSplit(t, i + 1, e.padL + (s + e.padR), ")");
  }

  lemma {:induction false} ScanParen(e: Expr, t: string, i: nat, st: Scan)
    requires WellFormed(e) && e.Paren? && Reads(t, i, Render(e)) && Ready(st, e, i)
    ensures ScanTo(t, i, i + |Render(e)|, st) == st
    decreases e, 0
  {
    hide Reads, Blanks, Render;
    ParenParts(e, t, i);
    BlanksPlain(e.padL);
    BlanksPlain(e.padR);
    var deep := st.(level := st.level + 1);
    var a, b, c := i + 1 + |e.padL|, i + 1 + |e.padL| + |Render(e.inner)|, i + |Render(e)| - 1;
    assert ScanTo(t, i, i + 1, st) == deep;
    ScanPlain(t, i + 1, e.padL, deep);
    ScanExpr(e.inner, t, a, deep);
    SeenKeeps(e.inner, a, deep);
    ScanPlain(t, b, e.padR, deep);
    assert ScanTo(t, c, c + 1, deep) == st;
    ScanThree(t, i, i + 1, a, c + 1, st);
    ScanThree(t, a, b, c, c + 1, deep);
  }

  lemma ScanSingle(t: string, k: nat, st: Scan)
    ensures ScanTo(t, k, k + 1, st) == ScanStep(t, k, st)
  {
  }
}
