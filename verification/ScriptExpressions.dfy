/** Evaluating an expression on its text (src/cmnds/cmd_if.c, lines 877 to 999). Operands and
    operators are opaque: the values they stand for are a parameter. */
module ScriptExpressions {
  import opened Bytes
  import opened ScriptOperators

  /** What numbers and operators mean; in the source, single-precision arithmetic on
      constants, channels and the like. */
  datatype Semantics<!V> = Semantics(zero: V, atom: string -> V, bin: (nat, V, V) -> V, neg: V -> V)

  /** `Stuck` when the evaluation would copy a slice of negative length. */
  datatype Outcome<+V> = Value(value: V) | Stuck

  predicate IsBlank(c: char) {
    c == ' ' || '\t' <= c <= '\r'
  }

  function TrimEnd(t: string, s: nat, stop: nat): (r: nat)
    requires stop <= |t|
    ensures r <= stop && (s <= stop ==> s <= r) && (stop < s ==> r == stop)
    decreases stop
  {
    if stop > s && IsBlank(t[stop - 1]) then TrimEnd(t, s, stop - 1) else stop
  }

  /** The first character that is not blank, if the slice has one. */
  function TrimStart(t: string, s: nat, stop: nat): (r: Option<nat>)
    requires s <= |t|
    ensures r.Some? ==> s <= r.value <= |t| && (s < r.value ==> r.value < stop)
    decreases |t| - s
  {
    if !IsBlank(At(t, s)) then Some(s)
    else if s + 1 >= stop then None
    else TrimStart(t, s + 1, stop)
  }

  datatype Slice = Slice(s: nat, stop: nat)

  /** Brackets around the whole slice match each other. */
  predicate Enclosed(t: string, s: nat, stop: nat)
    requires s <= |t|
  {
    At(t, s) == '(' && stop > 0 && At(t, stop - 1) == ')' && MatchingBrace(t, s) == stop - 1
  }

  /** The slice without the brackets around it. */
  function Strip(t: string, s: nat, stop: nat): (r: Slice)
    requires s <= |t|
    ensures s <= r.s <= |t| && r.stop <= stop && (r.s <= r.stop || r == Slice(s, stop))
    decreases stop
  {
    if Enclosed(t, s, stop) then Strip(t, s + 1, stop - 1) else Slice(s, stop)
  }

  /** The slice without blanks around it and then without brackets around it, `None` if it is
      all blanks. */
  function Trimmed(t: string, s: nat, stop: nat): (r: Option<Slice>)
    requires s <= |t| && stop <= |t|
    ensures r.Some? ==> s <= r.value.s <= |t| && r.value.stop <= stop
    ensures r.Some? && r.value.s > r.value.stop ==> r.value == Slice(s, stop)
  {
    var end := TrimEnd(t, s, stop);
    var start := TrimStart(t, s, end);
    if start.None? then None else Some(Strip(t, start.value, end))
  }

  function Size(s: nat, stop: nat): nat {
    if s > stop then 0 else stop - s + 1
  }

  function Eval<V>(sem: Semantics<V>, t: string, s: nat, stop: nat): Outcome<V>
    requires IsText(t) && s <= |t| && stop <= |t|
    decreases Size(s, stop), 1
  {
    if s == |t| then Value(sem.zero)
    else
      var inner := Trimmed(t, s, stop);
      if inner.None? then Value(sem.zero) else EvalInner(sem, t, inner.value.s, inner.value.stop)
  }

  /** A slice without blanks or brackets around it. */
  function EvalInner<V>(sem: Semantics<V>, t: string, s: nat, stop: nat): Outcome<V>
    requires IsText(t) && s <= |t| && stop <= |t|
    decreases Size(s, stop), 0
  {
    if s > stop then Stuck
    else
      var found := FindOp(t, s, stop);
      if found.Some? then
        MatchFits(t, found.value.pos, found.value.op);
        var a := Eval(sem, t, s, found.value.pos);
        var b := Eval(sem, t, found.value.pos + OpLen(found.value.op), stop);
        if a.Value? && b.Value? then Value(sem.bin(found.value.op, a.value, b.value)) else Stuck
      else if At(t, s) == '!' then
        var a := Eval(sem, t, s + 1, stop);
        if a.Value? then Value(sem.neg(a.value)) else Stuck
      else Value(sem.atom(t[s..stop]))
  }

  method Trim(t: string, s0: nat, stop0: nat) returns (r: Option<Slice>)
    requires IsText(t) && s0 <= |t| && stop0 <= |t|
    ensures r == Trimmed(t, s0, stop0)
  {
    hide MatchingBrace, IsBlank;
    var s: nat, stop: nat := s0, stop0;
    while stop > s && IsBlank(t[stop - 1])
      invariant stop <= |t| && TrimEnd(t, s0, stop) == TrimEnd(t, s0, stop0)
      decreases stop
    {
      stop := stop - 1;
    }
    while IsBlank(At(t, s))
      invariant s <= |t| && TrimStart(t, s, stop) == TrimStart(t, s0, stop)
      decreases |t| - s
    {
      BlankInside(t, s);
      s := s + 1;
      if s >= stop {
        return None;
      }
    }
    ghost var inner := Strip(t, s, stop);
    var brace := FindMatchingBrace(t, s);
    while At(t, s) == '(' && stop > 0 && At(t, stop - 1) == ')' && brace == stop - 1
      invariant s <= |t| && stop <= |t| && Strip(t, s, stop) == inner && brace == MatchingBrace(t, s)
      decreases stop
    {
      s := s + 1;
      stop := stop - 1;
      brace := FindMatchingBrace(t, s);
    }
    r := Some(Slice(s, stop));
  }

  lemma BlankInside(t: string, s: nat)
    requires s <= |t| && IsBlank(At(t, s))
    ensures s < |t|
  {
  }

  method EvaluateExpression<V>(sem: Semantics<V>, t: string, s0: nat, stop0: nat) returns (r: Outcome<V>)
    requires IsText(t) && s0 <= |t| && stop0 <= |t|
    ensures r == Eval(sem, t, s0, stop0)
    decreases Size(s0, stop0)
  {
    hide Trimmed, EvalInner;
    if s0 == |t| {
      return Value(sem.zero);
    }
    var inner := Trim(t, s0, stop0);
    if inner.None? {
      return Value(sem.zero);
    }
    r := EvaluateSlice(sem, t, inner.value.s, inner.value.stop);
  }

  /** The rest of the evaluation, once blanks and brackets are gone. */
  method EvaluateSlice<V>(sem: Semantics<V>, t: string, s: nat, stop: nat) returns (r: Outcome<V>)
    requires IsText(t) && s <= |t| && stop <= |t|
    ensures r == EvalInner(sem, t, s, stop)
    decreases Size(s, stop), 0
  {
    hide Eval, FindOp, MatchingBrace;
    if s > stop {
      return Stuck;
    }
    var found := FindOperator(t, s, stop);
    if found.Some? {
      MatchFits(t, found.value.pos, found.value.op);
      var a := EvaluateExpression(sem, t, s, found.value.pos);
      var b := EvaluateExpression(sem, t, found.value.pos + OpLen(found.value.op), stop);
      return if a.Value? && b.Value? then Value(sem.bin(found.value.op, a.value, b.value)) else Stuck;
    }
    if At(t, s) == '!' {
      var a := EvaluateExpression(sem, t, s + 1, stop);
      return if a.Value? then Value(sem.neg(a.value)) else Stuck;
    }
    r := Value(sem.atom(t[s..stop]));
  }
}
