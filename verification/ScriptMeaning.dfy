/** Evaluating the text of an expression gives the value of the expression
    (src/cmnds/cmd_if.c, lines 57 to 119 and 858 to 999). */
module ScriptMeaning {
  import opened Bytes
  import opened ScriptOperators
  import opened ScriptExpressions
  import opened ScriptSyntax
  import opened ScriptSigns
  import opened ScriptCounts

  predicate NoBracket(s: string) {
    forall i :: 0 <= i < |s| ==> s[i] != '(' && s[i] != ')'
  }

  lemma {:induction false} ClosingPlain(t: string, i: nat, s: string, level: nat)
    requires Reads(t, i, s) && NoBracket(s)
    ensures Closing(t, i, level) == Closing(t, i + |s|, level)
    decreases |s|
  {
    hide Reads;
    if s != [] {
      ReadsAt(t, i, s, 0);
      assert s == [s[0]] + s[1..];
      ReadsSplit(t, i, [s[0]], s[1..]);
      ReadsEnd(t, i, s);
      ClosingPlain(t, i + 1, s[1..], level);
    }
  }

  lemma ReadsEnd(t: string, i: nat, s: string)
    requires Reads(t, i, s)
    ensures i + |s| <= |t|
  {
  }

  lemma NoBrackets()
    ensures forall s :: Blanks(s) ==> NoBracket(s)
    ensures forall s :: Atomic(s) ==> NoBracket(s) && NoBracket("-" + s)
    ensures forall o :: 0 <= o < OPERATORS ==> NoBracket(OpText(o))
  {
  }

  /** Looking for a closing bracket, an expression is passed over as a whole. */
  lemma {:induction false} ClosingExpr(e: Expr, t: string, i: nat, level: nat)
    requires WellFormed(e) && Reads(t, i, Render(e)) && level >= 1
    ensures Closing(t, i, level) == Closing(t, i + |Render(e)|, level)
    decreases e
  {
    hide Reads, OpText, Blanks, Atomic, NoBracket, Closing;
    NoBrackets();
    ReadsEnd(t, i, Render(e));
    match e
    case Atom(text) =>
      ClosingPlain(t, i, text, level);
    case Signed(digits) =>
      ClosingPlain(t, i, "-" + digits, level);
    case Not(gap, arg) =>
      NotParts(e, t, i);
      ClosingOver(t, i, level);
      ClosingPlain(t, i + 1, gap, level);
      ClosingExpr(arg, t, i + 1 + |gap|, level);
    case Bin(l, gapL, op, gapR, r) =>
      BinParts(e, t, i);
      ClosingExpr(l, t, i, level);
      ClosingPlain(t, i + |Render(l)|, gapL, level);
      ClosingPlain(t, OpPos(e, i), OpText(op), level);
      ClosingPlain(t, OpPos(e, i) + OpLen(op), gapR, level);
      ClosingExpr(r, t, OpPos(e, i) + OpLen(op) + |gapR|, level);
    case Paren(_, _, _) =>
      ClosingParen(e, t, i, level);
  }

  lemma ClosingOver(t: string, i: nat, level: nat)
    requires i < |t| && At(t, i) != '(' && At(t, i) != ')'
    ensures Closing(t, i, level) == Closing(t, i + 1, level)
  {
  }

  lemma ClosingDown(t: string, i: nat, level: nat)
    requires i < |t| && At(t, i) == ')' && level >= 1
    ensures Closing(t, i, level) == if level == 1 then i else Closing(t, i + 1, level - 1)
  {
  }

  /** The bracket that closes the one before this point is the last one of `e`. */
  lemma {:induction false} ClosingInside(e: Expr, t: string, i: nat, level: nat)
    requires WellFormed(e) && e.Paren? && Reads(t, i, Render(e)) && level >= 1
    ensures i + |Render(e)| <= |t| && At(t, i) == '(' && At(t, i + |Render(e)| - 1) == ')'
    ensures Closing(t, i + 1, level) == Closing(t, i + |Render(e)| - 1, level)
    decreases e, 0
  {
    hide Reads, Blanks, NoBracket, Closing;
    NoBrackets();
    ReadsEnd(t, i, Render(e));
    ParenParts(e, t, i);
    ClosingPlain(t, i + 1, e.padL, level);
    ClosingExpr(e.inner, t, i + 1 + |e.padL|, level);
    ClosingPlain(t, i + 1 + |e.padL| + |Render(e.inner)|, e.padR, level);
  }

  lemma {:induction false} ClosingParen(e: Expr, t: string, i: nat, level: nat)
    requires WellFormed(e) && e.Paren? && Reads(t, i, Render(e)) && level >= 1
    ensures i + |Render(e)| <= |t| && Closing(t, i, level) == Closing(t, i + |Render(e)|, level)
    decreases e, 1
  {
    ClosingInside(e, t, i, level + 1);
    ClosingDown(t, i + |Render(e)| - 1, level + 1);
  }

  /** A bracketed expression is enclosed by its own brackets, any other is not enclosed. */
  lemma {:induction false} MatchExpr(e: Expr, t: string, i: nat)
    requires WellFormed(e) && Reads(t, i, Render(e))
    ensures i + |Render(e)| <= |t|
    ensures At(t, i) == '(' ==>
      if e.Paren? then MatchingBrace(t, i) == i + |Render(e)| - 1
      else MatchingBrace(t, i) < i + |Render(e)| - 1
    decreases e
  {
    hide Reads, OpText, Blanks, Atomic, Closing;
    ReadsEnd(t, i, Render(e));
    Ends(e);
    ReadsAt(t, i, Render(e), 0);
    if e.Paren? {
      ClosingInside(e, t, i, 1);
      ClosingDown(t, i + |Render(e)| - 1, 1);
    } else if e.Bin? {
      BinParts(e, t, i);
      MatchExpr(e.left, t, i);
    }
  }

  /** What the evaluator takes an expression for whose signs it passes over: blanks inside
      brackets stay with a lone operand. */
  function Parsed(e: Expr): Tree
    requires WellFormed(e)
    decreases e, 1
  {
    if !e.Paren? then ParsedWithin("", e, "")
    else if e.padL == "" && e.padR == "" then Parsed(e.inner)
    else ParsedWithin(e.padL, e.inner, e.padR)
  }

  /** The same for what is left when enclosing brackets are gone but the blanks within them
      are not. */
  function ParsedWithin(padL: string, e: Expr, padR: string): Tree
    requires WellFormed(e)
    decreases e, 0
  {
    if e.Bin? then Op(e.op, Parsed(e.left), Parsed(e.right))
    else if e.Not? && padL == "" then Neg(Parsed(e.arg))
    else Leaf(padL + (Render(e) + padR))
  }

  /** A slice that holds an expression between blanks. */
  predicate Holds(t: string, s: nat, stop: nat, padL: string, e: Expr, padR: string) {
    && WellFormed(e) && Blanks(padL) && Blanks(padR)
    && stop == s + |padL| + |Render(e)| + |padR|
    && Reads(t, s, padL + (Render(e) + padR))
  }

  lemma HoldsParts(t: string, s: nat, stop: nat, padL: string, e: Expr, padR: string)
    requires Holds(t, s, stop, padL, e, padR)
    ensures s < stop <= |t| && stop - |padR| >= s + |padL| && t[s..stop] == padL + (Render(e) + padR)
    ensures Reads(t, s, padL) && Reads(t, s + |padL|, Render(e)) && Reads(t, stop - |padR|, padR)
  {
    hide WellFormed, Blanks;
    assert |Render(e)| > 0 by { Ends(e); }
    ReadsSplit(t, s, padL, Render(e) + padR);
    ReadsSplit(t, s + |padL|, Render(e), padR);
  }

  /** First and last character of such a slice. */
  lemma HoldsStart(t: string, s: nat, stop: nat, padL: string, e: Expr, padR: string)
    requires Holds(t, s, stop, padL, e, padR)
    ensures if padL == "" && Leading(e) then At(t, s) == '-' && IsDigit(At(t, s + 1)) else At(t, s) != '-'
    ensures padL != "" ==> IsBlank(At(t, s))
    ensures padL == "" ==> !IsBlank(At(t, s)) && At(t, s) == Render(e)[0]
  {
    hide WellFormed, Reads, Render, Leading;
    HoldsParts(t, s, stop, padL, e, padR);
    Ends(e);
    var r := Render(e);
    if padL != "" {
      ReadsAt(t, s, padL, 0);
    } else {
      ReadsAt(t, s, r, 0);
      if Leading(e) {
        ReadsAt(t, s, r, 1);
      }
    }
  }

  lemma HoldsEnds(t: string, s: nat, stop: nat, padL: string, e: Expr, padR: string)
    requires Holds(t, s, stop, padL, e, padR)
    ensures s < stop <= |t| && !OpChar(At(t, stop - 1))
    ensures if padL == "" && Leading(e) then At(t, s) == '-' && IsDigit(At(t, s + 1)) else At(t, s) != '-'
    ensures padL != "" ==> IsBlank(At(t, s))
    ensures padL == "" ==> !IsBlank(At(t, s)) && At(t, s) == Render(e)[0]
    ensures padR != "" ==> IsBlank(At(t, stop - 1))
    ensures padR == "" ==> !IsBlank(At(t, stop - 1))
  {
    hide WellFormed, Reads, Render, Leading;
    HoldsParts(t, s, stop, padL, e, padR);
    HoldsStart(t, s, stop, padL, e, padR);
    Ends(e);
    var r := Render(e);
    if padR != "" {
      ReadsAt(t, stop - |padR|, padR, |padR| - 1);
    } else {
      ReadsAt(t, s + |padL|, r, |r| - 1);
    }
  }

  lemma LastStep(t: string, k: nat, st: Scan)
    requires !OpChar(At(t, k))
    ensures ScanStep(t, k, st).found == st.found
  {
    hide OpChar, Matches, TryAll;
    NoMatch(t, k);
    TryNone(t, k, st, 0);
  }

  /** A sign is expected at the very start. */
  function Begin(padL: string, e: Expr, s: nat): Scan {
    START.(skip := if padL == "" && Leading(e) then s else NOWHERE)
  }

  lemma ScanBegin(t: string, s: nat, stop: nat, padL: string, e: Expr, padR: string)
    requires Holds(t, s, stop, padL, e, padR) && stop - 1 <= ScanEnd(t, stop)
    ensures ScanTo(t, AfterSign(t, s), ScanEnd(t, stop), START) == ScanTo(t, s, ScanEnd(t, stop), Begin(padL, e, s))
  {
    HoldsEnds(t, s, stop, padL, e, padR);
  }

  /** The operator found is that of the search over the expression. */
  lemma FindHeld(t: string, s: nat, stop: nat, padL: string, e: Expr, padR: string)
    requires Holds(t, s, stop, padL, e, padR)
    ensures FindOp(t, s, stop) == Seen(e, s + |padL|, Begin(padL, e, s)).found
  {
    hide Reads, ScanTo, ScanStep, Blanks, Render, Seen;
    HoldsParts(t, s, stop, padL, e, padR);
    HoldsEnds(t, s, stop, padL, e, padR);
    ScanBegin(t, s, stop, padL, e, padR);
    var st := Begin(padL, e, s);
    var a, b, all := s + |padL|, stop - |padR|, Seen(e, s + |padL|, st);
    SeenKeeps(e, a, st);
    ScanGap(t, s, padL, st);
    ScanExpr(e, t, a, st);
    ScanGap(t, b, padR, all);
    ScanThree(t, s, a, b, stop, st);
    if stop == |t| {
      ScanJoin(t, s, stop - 1, stop, st);
      ScanSingle(t, stop - 1, ScanTo(t, s, stop - 1, st));
      LastStep(t, stop - 1, ScanTo(t, s, stop - 1, st));
    }
  }

  /** If the signs fit it is the outermost operator, and none if there is none. */
  lemma FindFit(t: string, s: nat, stop: nat, padL: string, e: Expr, padR: string)
    requires Holds(t, s, stop, padL, e, padR) && SignsFitWithin(padL, e)
    ensures FindOp(t, s, stop) == Root(e, s + |padL|)
  {
    hide Reads, FindOp, Blanks, Render, Seen, SignsFit;
    FindHeld(t, s, stop, padL, e, padR);
    RootSeen(e, s + |padL|, Begin(padL, e, s));
  }

  lemma {:induction false} TrimEndOver(t: string, s: nat, i: nat, pad: string)
    requires s < i && i + |pad| <= |t| && Reads(t, i, pad) && Blanks(pad) && !IsBlank(t[i - 1])
    ensures TrimEnd(t, s, i + |pad|) == i
    decreases |pad|
  {
    if pad != "" {
      var n := |pad| - 1;
      assert pad == pad[..n] + [pad[n]];
      ReadsAt(t, i, pad, n);
      ReadsSplit(t, i, pad[..n], [pad[n]]);
      TrimEndOver(t, s, i, pad[..n]);
    }
  }

  lemma {:induction false} TrimStartOver(t: string, s: nat, stop: nat, pad: string)
    requires Reads(t, s, pad) && Blanks(pad) && s + |pad| < stop <= |t| && !IsBlank(At(t, s + |pad|))
    ensures TrimStart(t, s, stop) == Some(s + |pad|)
    decreases |pad|
  {
    if pad != "" {
      ReadsAt(t, s, pad, 0);
      assert pad == [pad[0]] + pad[1..];
      ReadsSplit(t, s, [pad[0]], pad[1..]);
      TrimStartOver(t, s + 1, stop, pad[1..]);
    }
  }

  lemma TrimHeld(t: string, s: nat, stop: nat, padL: string, e: Expr, padR: string)
    requires Holds(t, s, stop, padL, e, padR)
    ensures Reads(t, s + |padL|, Render(e)) && s < stop <= |t|
    ensures Trimmed(t, s, stop) == Some(Strip(t, s + |padL|, s + |padL| + |Render(e)|))
  {
    hide Reads, Blanks, Render, Strip;
    HoldsParts(t, s, stop, padL, e, padR);
    var a, b := s + |padL|, stop - |padR|;
    HoldsAlone(t, a, b, e);
    HoldsEnds(t, a, b, "", e, "");
    TrimEndOver(t, s, b, padR);
    TrimStartOver(t, s, b, padL);
  }

  lemma HoldsAlone(t: string, a: nat, b: nat, e: Expr)
    requires WellFormed(e) && Reads(t, a, Render(e)) && b == a + |Render(e)|
    ensures Holds(t, a, b, "", e, "")
  {
    assert "" + (Render(e) + "") == Render(e);
  }

  lemma StripHeld(e: Expr, t: string, a: nat)
    requires WellFormed(e) && Reads(t, a, Render(e))
    ensures a + |Render(e)| <= |t|
    ensures var b := a + |Render(e)|;
      if !e.Paren? then Strip(t, a, b) == Slice(a, b) && Holds(t, a, b, "", e, "")
      else
        && Holds(t, a + 1, b - 1, e.padL, e.inner, e.padR)
        && Strip(t, a, b)
           == if e.padL == "" && e.padR == "" then Strip(t, a + 1, b - 1) else Slice(a + 1, b - 1)
  {
    hide Reads, Blanks, Closing, MatchingBrace, IsBlank;
    var b := a + |Render(e)|;
    MatchExpr(e, t, a);
    HoldsAlone(t, a, b, e);
    if e.Paren? {
      ParenParts(e, t, a);
      assert Holds(t, a + 1, b - 1, e.padL, e.inner, e.padR);
      HoldsEnds(t, a + 1, b - 1, e.padL, e.inner, e.padR);
      assert Enclosed(t, a, b);
      BlankNoBracket(At(t, a + 1));
      BlankNoBracket(At(t, b - 2));
    }
  }

  lemma BlankNoBracket(c: char)
    ensures IsBlank(c) ==> c != '(' && c != ')'
  {
  }

  /** Between blanks, an expression evaluates to what it is taken for. */
  lemma {:induction false} EvalHeld<V>(sem: Semantics<V>, t: string, s: nat, stop: nat, padL: string, e: Expr, padR: string)
    requires IsText(t) && Holds(t, s, stop, padL, e, padR) && SignsFit(e)
    ensures s < stop <= |t| && Eval(sem, t, s, stop) == Value(Interp(sem, Parsed(e)))
    decreases e, 2
  {
    hide Reads, Blanks, Render, Trimmed, Strip, EvalInner, Interp, Parsed;
    TrimHeld(t, s, stop, padL, e, padR);
    EvalStripped(sem, t, s + |padL|, e);
  }

  lemma {:induction false} EvalStripped<V>(sem: Semantics<V>, t: string, a: nat, e: Expr)
    requires IsText(t) && WellFormed(e) && Reads(t, a, Render(e)) && SignsFit(e)
    ensures a + |Render(e)| <= |t|
    ensures var inner := Strip(t, a, a + |Render(e)|);
      EvalInner(sem, t, inner.s, inner.stop) == Value(Interp(sem, Parsed(e)))
    decreases e, 1
  {
    hide Reads, Blanks, Render, Strip, EvalInner, Interp, ParsedWithin;
    StripHeld(e, t, a);
    var b := a + |Render(e)|;
    if !e.Paren? {
      EvalWithin(sem, t, a, b, "", e, "");
    } else if e.padL == "" && e.padR == "" {
      HoldsParts(t, a + 1, b - 1, "", e.inner, "");
      EvalStripped(sem, t, a + 1, e.inner);
    } else {
      EvalWithin(sem, t, a + 1, b - 1, e.padL, e.inner, e.padR);
    }
  }

  lemma {:induction false} EvalWithin<V>(sem: Semantics<V>, t: string, s: nat, stop: nat, padL: string, e: Expr, padR: string)
    requires IsText(t) && Holds(t, s, stop, padL, e, padR) && SignsFitWithin(padL, e)
    ensures s < stop <= |t| && EvalInner(sem, t, s, stop) == Value(Interp(sem, ParsedWithin(padL, e, padR)))
    decreases e, 0
  {
    hide Reads, Blanks, Eval, FindOp, Parsed, Loose;
    HoldsParts(t, s, stop, padL, e, padR);
    HoldsEnds(t, s, stop, padL, e, padR);
    FindFit(t, s, stop, padL, e, padR);
    if e.Bin? {
      var k := OpPos(e, s + |padL|);
      BinHeld(t, s, stop, padL, e, padR);
      EvalHeld(sem, t, s, k, padL, e.left, e.gapL);
      EvalHeld(sem, t, k + OpLen(e.op), stop, e.gapR, e.right, padR);
    } else if e.Not? && padL == "" {
      NotHeld(t, s, stop, e, padR);
      EvalHeld(sem, t, s + 1, stop, e.gap, e.arg, padR);
    } else {
      NoNegation(t, s, stop, padL, e, padR);
    }
  }

  /** The slices that the two operands are evaluated on. */
  lemma BinHeld(t: string, s: nat, stop: nat, padL: string, e: Expr, padR: string)
    requires Holds(t, s, stop, padL, e, padR) && e.Bin?
    ensures var k := OpPos(e, s + |padL|);
      Holds(t, s, k, padL, e.left, e.gapL) && Holds(t, k + OpLen(e.op), stop, e.gapR, e.right, padR)
  {
    hide Reads, Blanks, OpText;
    HoldsParts(t, s, stop, padL, e, padR);
    BinParts(e, t, s + |padL|);
    var k := OpPos(e, s + |padL|);
    ReadsJoin(t, s, padL, Render(e.left), e.gapL);
    ReadsJoin(t, k + OpLen(e.op), e.gapR, Render(e.right), padR);
  }

  lemma ReadsJoin(t: string, i: nat, a: string, b: string, c: string)
    requires Reads(t, i, a) && Reads(t, i + |a|, b) && Reads(t, i + |a| + |b|, c)
    ensures Reads(t, i, a + (b + c))
  {
    var m, n := i + |a|, i + |a| + |b|;
    assert t[i..n + |c|] == t[i..m] + (t[m..n] + t[n..n + |c|]);
  }

  lemma NotHeld(t: string, s: nat, stop: nat, e: Expr, padR: string)
    requires Holds(t, s, stop, "", e, padR) && e.Not?
    ensures At(t, s) == '!' && Holds(t, s + 1, stop, e.gap, e.arg, padR)
  {
    hide Reads, Blanks;
    HoldsParts(t, s, stop, "", e, padR);
    NotParts(e, t, s);
    ReadsJoin(t, s + 1, e.gap, Render(e.arg), padR);
  }

  lemma NoNegation(t: string, s: nat, stop: nat, padL: string, e: Expr, padR: string)
    requires Holds(t, s, stop, padL, e, padR) && !e.Bin? && !(e.Not? && padL == "")
    ensures At(t, s) != '!'
  {
    hide Reads, Blanks;
    HoldsEnds(t, s, stop, padL, e, padR);
    Ends(e);
  }

  /** The value that the expression means. */
  function Meaning(e: Expr): Tree {
    match e
    case Atom(text) => Leaf(text)
    case Signed(digits) => Leaf("-" + digits)
    case Not(_, arg) => Neg(Meaning(arg))
    case Bin(l, _, op, _, r) => Op(op, Meaning(l), Meaning(r))
    case Paren(_, inner, _) => Meaning(inner)
  }

  /** Directly inside brackets, blanks are written around binary expressions only, or behind
      a negation. */
  predicate BlanksFit(e: Expr) {
    match e
    case Atom(_) => true
    case Signed(_) => true
    case Not(_, arg) => BlanksFit(arg)
    case Bin(l, _, _, _, r) => BlanksFit(l) && BlanksFit(r)
    case Paren(padL, inner, padR) =>
      BlanksFit(inner) && (inner.Bin? || (padL == "" && (inner.Not? || padR == "")))
  }

  /** A number or name, or a number with a sign. */
  predicate Operand(s: string) {
    Atomic(s) || (s != "" && s[0] == '-' && Number(s[1..]))
  }

  predicate LeavesAtomic(tree: Tree) {
    match tree
    case Leaf(text) => Operand(text)
    case Neg(arg) => LeavesAtomic(arg)
    case Op(_, l, r) => LeavesAtomic(l) && LeavesAtomic(r)
  }

  lemma {:induction false} MeaningAtomic(e: Expr)
    requires WellFormed(e)
    ensures LeavesAtomic(Meaning(e))
    decreases e
  {
    match e
    case Atom(_) =>
    case Signed(digits) => assert ("-" + digits)[1..] == digits;
    case Not(_, arg) => MeaningAtomic(arg);
    case Bin(l, _, _, _, r) => MeaningAtomic(l); MeaningAtomic(r);
    case Paren(_, inner, _) => MeaningAtomic(inner);
  }

  lemma LoneAtomic(padL: string, e: Expr, padR: string)
    requires WellFormed(e) && Blanks(padL) && Blanks(padR) && !e.Bin? && !(e.Not? && padL == "")
    ensures Operand(padL + (Render(e) + padR)) <==> (e.Atom? || e.Signed?) && padL == "" && padR == ""
  {
    var s, r := padL + (Render(e) + padR), Render(e);
    Ends(e);
    assert s[|padL|] == r[0];
    if padL != "" {
      assert s[0] == padL[0];
    } else if padR != "" {
      var n := |s| - 1;
      assert s[n] == padR[|padR| - 1];
      BlankLast(s);
    } else {
      assert s == r;
      if e.Signed? {
        assert r[1..] == e.digits;
      }
    }
  }

  lemma BlankLast(s: string)
    requires |s| > 1 && IsBlank(s[|s| - 1])
    ensures !Operand(s)
  {
    assert s[1..][|s| - 2] == s[|s| - 1];
  }

  /** The evaluator takes an expression for what it means exactly when no blanks stand
      directly inside brackets where they do not fit. */
  lemma {:induction false} ParsedIff(e: Expr)
    requires WellFormed(e)
    ensures LeavesAtomic(Parsed(e)) <==> BlanksFit(e)
    ensures BlanksFit(e) ==> Parsed(e) == Meaning(e)
    decreases e, 1
  {
    if !e.Paren? {
      ParsedWithinIff("", e, "");
    } else if e.padL == "" && e.padR == "" {
      ParsedIff(e.inner);
    } else {
      ParsedWithinIff(e.padL, e.inner, e.padR);
    }
  }

  lemma {:induction false} ParsedWithinIff(padL: string, e: Expr, padR: string)
    requires WellFormed(e) && Blanks(padL) && Blanks(padR)
    requires e.Paren? ==> padL != "" || padR != ""
    ensures LeavesAtomic(ParsedWithin(padL, e, padR))
       <==> BlanksFit(e) && (e.Bin? || (padL == "" && (e.Not? || padR == "")))
    ensures LeavesAtomic(ParsedWithin(padL, e, padR)) ==> ParsedWithin(padL, e, padR) == Meaning(e)
    decreases e, 0
  {
    hide Operand, Blanks;
    if e.Bin? {
      ParsedIff(e.left);
      ParsedIff(e.right);
    } else if e.Not? && padL == "" {
      ParsedIff(e.arg);
    } else {
      LoneAtomic(padL, e, padR);
      assert "" + (Render(e) + "") == Render(e);
    }
  }

  lemma RenderIsText(e: Expr)
    requires WellFormed(e)
    ensures IsText(Render(e))
    decreases e
  {
    match e
    case Atom(_) =>
    case Signed(_) =>
    case Not(_, arg) => RenderIsText(arg);
    case Bin(l, _, _, _, r) => RenderIsText(l); RenderIsText(r);
    case Paren(_, inner, _) => RenderIsText(inner);
  }

  /** Text evaluation is tree evaluation, for every meaning of numbers and operators. */
  lemma EvaluationIsMeaning<V>(sem: Semantics<V>, e: Expr)
    requires WellFormed(e) && BlanksFit(e) && SignsFit(e)
    ensures IsText(Render(e))
    ensures Eval(sem, Render(e), 0, |Render(e)|) == Value(Interp(sem, Meaning(e)))
  {
    hide Eval, Interp, Render, SignsFit;
    RenderIsText(e);
    RenderHeld(e);
    EvalHeld(sem, Render(e), 0, |Render(e)|, "", e, "");
    ParsedIff(e);
  }

  lemma RenderHeld(e: Expr)
    requires WellFormed(e)
    ensures Holds(Render(e), 0, |Render(e)|, "", e, "")
  {
    assert Render(e)[0..|Render(e)|] == Render(e);
    HoldsAlone(Render(e), 0, |Render(e)|, e);
  }

  /** Counting the characters of an expression is counting those of its meaning. */
  lemma {:induction false} MeaningCount(e: Expr)
    requires WellFormed(e)
    ensures Weight(Meaning(e)) == Count(Render(e))
    decreases e
  {
    hide Blanks, OpText, Counted;
    match e
    case Atom(_) =>
    case Signed(_) =>
    case Not(gap, arg) =>
      MeaningCount(arg);
      BlanksCount(gap);
      CountConcat("!", gap + Render(arg));
      CountConcat(gap, Render(arg));
      SingleCounts();
    case Bin(l, gapL, op, gapR, r) =>
      MeaningCount(l);
      MeaningCount(r);
      BlanksCount(gapL);
      BlanksCount(gapR);
      OpCount(op);
      CountFive(Render(l), gapL, OpText(op), gapR, Render(r));
    case Paren(padL, inner, padR) =>
      MeaningCount(inner);
      BlanksCount(padL);
      BlanksCount(padR);
      CountFive("(", padL, Render(inner), padR, ")");
      SingleCounts();
  }

  lemma SingleCounts()
    ensures Count("!") == 1 && Count("(") == 0 && Count(")") == 0
  {
    assert "!"[1..] == "" && "("[1..] == "" && ")"[1..] == "";
  }

  lemma CountFive(a: string, b: string, c: string, d: string, e: string)
    ensures Count(a + (b + (c + (d + e)))) == Count(a) + Count(b) + Count(c) + Count(d) + Count(e)
  {
    CountConcat(a, b + (c + (d + e)));
    CountConcat(b, c + (d + e));
    CountConcat(c, d + e);
    CountConcat(d, e);
  }

  lemma OpCount(o: nat)
    requires o < OPERATORS
    ensures Count(OpText(o)) == Counted(OpText(o)[0])
  {
    var s := OpText(o);
    if |s| == 2 {
      assert s[1..] == [s[1]] && s[1..][1..] == "";
      PairUncounted(o);
    } else {
      assert s[1..] == "";
    }
  }

  lemma {:induction false} BlanksCount(s: string)
    requires Blanks(s)
    ensures Count(s) == 0
  {
    if s != "" {
      BlanksCount(s[1..]);
    }
  }

  /** The characters of the left operand, up to where a slice is split. */
  lemma LeftCount(t: string, s: nat, stop: nat, padL: string, e: Expr, padR: string)
    requires Holds(t, s, stop, padL, e, padR) && e.Bin?
    ensures var k := OpPos(e, s + |padL|);
      s <= k < stop <= |t| && t[k] == OpText(e.op)[0] && CountIn(t, s, k) == Weight(Meaning(e.left))
  {
    hide Reads, Blanks, OpText, Render, Count;
    BinHeld(t, s, stop, padL, e, padR);
    var k := OpPos(e, s + |padL|);
    HoldsParts(t, s, stop, padL, e, padR);
    BinParts(e, t, s + |padL|);
    ReadsAt(t, k, OpText(e.op), 0);
    HeldCount(t, s, k, padL, e.left, e.gapL);
  }

  lemma HeldCount(t: string, s: nat, stop: nat, padL: string, e: Expr, padR: string)
    requires Holds(t, s, stop, padL, e, padR)
    ensures s <= stop <= |t| && CountIn(t, s, stop) == Weight(Meaning(e))
  {
    hide Count, Render;
    HoldsParts(t, s, stop, padL, e, padR);
    MeaningCount(e);
    BlanksCount(padL);
    BlanksCount(padR);
    CountConcat(padL, Render(e) + padR);
    CountConcat(Render(e), padR);
  }

  /** A slice split anywhere but at the outermost operator is taken for another expression:
      its left part has other characters. */
  lemma SplitElsewhere(t: string, s: nat, stop: nat, padL: string, e: Expr, padR: string)
    requires IsText(t) && Holds(t, s, stop, padL, e, padR) && FindOp(t, s, stop) != Root(e, s + |padL|)
    ensures s < stop <= |t| && EvalInner(Free(), t, s, stop) != Value(Meaning(e))
  {
    hide Reads, Blanks, Eval, Render, Seen, FindOp, Count, Counted;
    HoldsParts(t, s, stop, padL, e, padR);
    var found := FindOp(t, s, stop);
    if e.Bin? && found.Some? && found.value.op == e.op {
      var k, k' := OpPos(e, s + |padL|), found.value.pos;
      FindHeld(t, s, stop, padL, e, padR);
      if OpPrio(e.op) > SUM {
        LooseRootSeen(e, s + |padL|, Begin(padL, e, s));
      }
      LeftCount(t, s, stop, padL, e, padR);
      MatchWell(t, k', e.op);
      Conserved(t, s, k');
      Apart(t, s, k, k', e.op);
    } else {
      FindHeld(t, s, stop, padL, e, padR);
      ParenSeen(e, s + |padL|, Begin(padL, e, s));
    }
  }

  lemma ParenSeen(e: Expr, i: nat, st: Scan)
    requires WellFormed(e)
    ensures e.Paren? ==> Seen(e, i, st) == st
  {
  }

  lemma Apart(t: string, s: nat, k: nat, k': nat, o: nat)
    requires s <= k < |t| && s <= k' < |t| && k != k' && o < OPERATORS && OpPrio(o) <= SUM
    requires t[k] == t[k'] == OpText(o)[0]
    ensures CountIn(t, s, k) != CountIn(t, s, k')
  {
    hide Count, CountIn;
    var a, b := if k < k' then k else k', if k < k' then k' else k;
    CountCut(t, s, a, b);
    CountFirst(t, a, b);
  }

  /** Where signs do not fit, an expression is taken for another one. */
  lemma {:induction false} MissHeld(t: string, s: nat, stop: nat, padL: string, e: Expr, padR: string)
    requires IsText(t) && Holds(t, s, stop, padL, e, padR) && !SignsFit(e)
    ensures s < stop <= |t| && Eval(Free(), t, s, stop) != Value(Meaning(e))
    decreases e, 3
  {
    hide Reads, Blanks, Render, Trimmed, Strip, EvalInner, Meaning, SignsFit;
    TrimHeld(t, s, stop, padL, e, padR);
    MissStripped(t, s + |padL|, e);
  }

  lemma {:induction false} MissStripped(t: string, a: nat, e: Expr)
    requires IsText(t) && WellFormed(e) && Reads(t, a, Render(e)) && !SignsFit(e)
    ensures a + |Render(e)| <= |t|
    ensures var inner := Strip(t, a, a + |Render(e)|);
      EvalInner(Free(), t, inner.s, inner.stop) != Value(Meaning(e))
    decreases e, 2
  {
    hide Reads, Blanks, Render, Strip, EvalInner, Free;
    StripHeld(e, t, a);
    var b := a + |Render(e)|;
    if !e.Paren? {
      MissWithin(t, a, b, "", e, "");
    } else if e.padL == "" && e.padR == "" {
      HoldsParts(t, a + 1, b - 1, "", e.inner, "");
      MissStripped(t, a + 1, e.inner);
    } else {
      MissWithin(t, a + 1, b - 1, e.padL, e.inner, e.padR);
    }
  }

  lemma {:induction false} MissWithin(t: string, s: nat, stop: nat, padL: string, e: Expr, padR: string)
    requires IsText(t) && Holds(t, s, stop, padL, e, padR) && !SignsFitWithin(padL, e)
    ensures s < stop <= |t| && EvalInner(Free(), t, s, stop) != Value(Meaning(e))
    decreases e, 1
  {
    hide Reads, Blanks, Eval, FindOp, Loose, Render, Operand;
    HoldsParts(t, s, stop, padL, e, padR);
    if FindOp(t, s, stop) != Root(e, s + |padL|) {
      SplitElsewhere(t, s, stop, padL, e, padR);
    } else if e.Bin? {
      MissBin(t, s, stop, padL, e, padR);
    } else if e.Not? && padL == "" {
      MissNot(t, s, stop, e, padR);
    } else {
      NoNegation(t, s, stop, padL, e, padR);
      LoneAtomic(padL, e, padR);
      MeaningAtomic(e);
    }
  }

  lemma {:induction false} MissBin(t: string, s: nat, stop: nat, padL: string, e: Expr, padR: string)
    requires IsText(t) && Holds(t, s, stop, padL, e, padR) && e.Bin? && !SignsFitWithin(padL, e)
    requires FindOp(t, s, stop) == Root(e, s + |padL|)
    ensures s < stop <= |t| && EvalInner(Free(), t, s, stop) != Value(Meaning(e))
    decreases e, 0
  {
    hide Reads, Blanks, Eval, FindOp, Loose, Render, Seen;
    HoldsParts(t, s, stop, padL, e, padR);
    FindHeld(t, s, stop, padL, e, padR);
    RootFits(e, s + |padL|, Begin(padL, e, s));
    BinHeld(t, s, stop, padL, e, padR);
    var k := OpPos(e, s + |padL|);
    if !SignsFit(e.left) {
      MissHeld(t, s, k, padL, e.left, e.gapL);
    } else {
      MissHeld(t, k + OpLen(e.op), stop, e.gapR, e.right, padR);
    }
  }

  lemma {:induction false} MissNot(t: string, s: nat, stop: nat, e: Expr, padR: string)
    requires IsText(t) && Holds(t, s, stop, "", e, padR) && e.Not? && !SignsFit(e) && FindOp(t, s, stop) == None
    ensures s < stop <= |t| && EvalInner(Free(), t, s, stop) != Value(Meaning(e))
    decreases e, 0
  {
    hide Reads, Blanks, Eval, FindOp, Render;
    HoldsParts(t, s, stop, "", e, padR);
    NotHeld(t, s, stop, e, padR);
    if e.arg.Signed? {
      FindHeld(t, s, stop, "", e, padR);
      Unexpected(e.arg, s + 1 + |e.gap|, START);
      assert false;
    } else {
      MissHeld(t, s + 1, stop, e.gap, e.arg, padR);
    }
  }

  /** A text is taken for the expression exactly when its signs and blanks fit; anywhere else
      the value is that of another expression. */
  lemma EvaluationIff(e: Expr)
    requires WellFormed(e)
    ensures IsText(Render(e))
    ensures Eval(Free(), Render(e), 0, |Render(e)|) == Value(Meaning(e)) <==> BlanksFit(e) && SignsFit(e)
  {
    hide Eval, Interp, Render, Free, SignsFit;
    RenderIsText(e);
    RenderHeld(e);
    MeaningAtomic(e);
    if SignsFit(e) {
      EvalHeld(Free(), Render(e), 0, |Render(e)|, "", e, "");
      ParsedIff(e);
      FreeInterp(Parsed(e));
    } else {
      MissHeld(Render(e), 0, |Render(e)|, "", e, "");
    }
  }

  /** An expression written with the brackets that the priorities need, and with brackets
      around signed numbers. */
  function Print(tree: Tree): Expr {
    match tree
    case Leaf(text) => if text != "" && text[0] == '-' then Paren("", Signed(text[1..]), "") else Atom(text)
    case Neg(arg) => Not("", Wrap(Print(arg), 0))
    case Op(op, l, r) =>
      var p := if op < OPERATORS then OpPrio(op) else 4;
      Bin(Wrap(Print(l), p), "", op, "", Wrap(Print(r), p - 1))
  }

  function Wrap(e: Expr, limit: nat): Expr {
    if Level(e) <= limit then e else Paren("", e, "")
  }

  predicate Operators(tree: Tree) {
    match tree
    case Leaf(_) => true
    case Neg(arg) => Operators(arg)
    case Op(op, l, r) => op < OPERATORS && Operators(l) && Operators(r)
  }

  lemma {:induction false} PrintFits(tree: Tree)
    requires LeavesAtomic(tree) && Operators(tree)
    ensures WellFormed(Print(tree)) && BlanksFit(Print(tree)) && Meaning(Print(tree)) == tree
    ensures SignsFit(Print(tree)) && !Leading(Print(tree)) && !Loose(Print(tree))
  {
    match tree
    case Leaf(text) => assert text[0] == '-' ==> text == "-" + text[1..];
    case Neg(arg) => PrintFits(arg);
    case Op(_, l, r) => PrintFits(l); PrintFits(r);
  }

  /** Any expression at all, printed with only the brackets that priorities and signs need,
      evaluates to its value. */
  lemma PrintedEvaluates<V>(sem: Semantics<V>, tree: Tree)
    requires LeavesAtomic(tree) && Operators(tree)
    ensures WellFormed(Print(tree)) && IsText(Render(Print(tree)))
    ensures Eval(sem, Render(Print(tree)), 0, |Render(Print(tree))|) == Value(Interp(sem, tree))
  {
    PrintFits(tree);
    EvaluationIsMeaning(sem, Print(tree));
  }

  const NEGATIVE_FACTOR := "2+3*-1"

  /** In 2+3*-1 the product is not the best operator so far, so the sign behind it is taken for
      the operator to split at, and the product is left without a factor. */
  lemma NegativeFactor<V>(sem: Semantics<V>)
    ensures var a := sem.atom;
      Eval(sem, NEGATIVE_FACTOR, 0, 6)
      == Value(sem.bin(MINUS, sem.bin(8, a("2"), sem.bin(10, a("3"), a(""))), a("1")))
  {
    hide FindOp, EvalInner;
    var t := NEGATIVE_FACTOR;
    NegativeFactorFound();
    EvalInnerOp(sem, t, 0, 6);
    EvalInnerOp(sem, t, 0, 4);
    EvalInnerOp(sem, t, 2, 4);
    EvalInnerLeaf(sem, t, 0, 1);
    EvalInnerLeaf(sem, t, 2, 3);
    EvalInnerLeaf(sem, t, 4, 4);
    EvalInnerLeaf(sem, t, 5, 6);
    assert t[0..1] == "2" && t[2..3] == "3" && t[4..4] == "" && t[5..6] == "1";
  }

  /** A slice without blanks or brackets at its ends that is split. */
  lemma EvalInnerOp<V>(sem: Semantics<V>, t: string, s: nat, stop: nat)
    requires IsText(t) && s < stop <= |t| && !IsBlank(t[s]) && !IsBlank(t[stop - 1]) && t[s] != '('
    requires FindOp(t, s, stop).Some?
    ensures var found := FindOp(t, s, stop).value;
      && found.pos + OpLen(found.op) <= |t|
      && var a, b := Eval(sem, t, s, found.pos), Eval(sem, t, found.pos + OpLen(found.op), stop);
        a.Value? && b.Value? ==> Eval(sem, t, s, stop) == Value(sem.bin(found.op, a.value, b.value))
  {
    hide FindOp;
    MatchFits(t, FindOp(t, s, stop).value.pos, FindOp(t, s, stop).value.op);
    assert Trimmed(t, s, stop) == Some(Slice(s, stop));
  }

  lemma EvalInnerLeaf<V>(sem: Semantics<V>, t: string, s: nat, stop: nat)
    requires IsText(t) && s <= stop <= |t| && s < |t| && !IsBlank(t[s]) && t[s] != '(' && t[s] != '!'
    requires (s < stop ==> !IsBlank(t[stop - 1])) && FindOp(t, s, stop) == None
    ensures Eval(sem, t, s, stop) == Value(sem.atom(t[s..stop]))
  {
    hide FindOp;
    assert Trimmed(t, s, stop) == Some(Slice(s, stop));
  }

  lemma NegativeFactorFound()
    ensures IsText(NEGATIVE_FACTOR)
    ensures var t := NEGATIVE_FACTOR;
      && FindOp(t, 0, 6) == Some(Found(4, MINUS)) && FindOp(t, 0, 4) == Some(Found(1, 8))
      && FindOp(t, 2, 4) == Some(Found(3, 10)) && FindOp(t, 0, 1) == FindOp(t, 2, 3) == None
      && FindOp(t, 4, 4) == FindOp(t, 5, 6) == None
  {
    hide ScanTo, ScanStep, Try, TryAll;
    var t, st := NEGATIVE_FACTOR, Met(START, 1, 8, false);
    StepOver(t, 0, START);
    StepOver(t, 2, START);
    StepOver(t, 2, st);
    ScanOp(t, 1, 8, START);
    ScanOp(t, 3, 10, START);
    ScanOp(t, 3, 10, st);
    ScanOp(t, 4, MINUS, st);
    ScanThree(t, 0, 1, 2, 3, START);
    ScanThree(t, 0, 3, 4, 5, START);
    ScanThree(t, 2, 3, 4, 4, START);
    ScanJoin(t, 0, 3, 4, START);
    ScanNext(t, 4, 4, Met(START, 3, 10, true));
    ScanNext(t, 5, 4, START);
    ScanNext(t, 5, 5, START);
    ScanNext(t, 4, 4, st);
  }
}
