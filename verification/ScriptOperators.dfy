/** Finding the operator to split an expression at (src/cmnds/cmd_if.c, lines 57 to 119 and
    858 to 876). Positions are indexes into a text without NUL; a slice ends before `stop`. */
module ScriptOperators {
  import opened Bytes

  /** The character at a position, NUL from the end of the text on. */
  function At(t: string, k: nat): char {
    if k < |t| then t[k] else '\0'
  }

  const OPERATORS := 13

  function OpText(o: nat): (s: string)
    requires o < OPERATORS
    ensures 1 <= |s| <= 2
  {
    match o
    case 0 => ">" case 1 => "<" case 2 => "==" case 3 => ">=" case 4 => "<=" case 5 => "!="
    case 6 => "&&" case 7 => "||" case 8 => "+" case 9 => "-" case 10 => "*" case 11 => "/" case _ => "%"
  }

  /** The looser an operator binds, the higher its number. */
  function OpPrio(o: nat): (p: nat)
    requires o < OPERATORS
    ensures 4 <= p <= 12
  {
    if o < 6 then 10 else if o < 8 then 12 else if o < 10 then 6 else 4
  }

  function OpLen(o: nat): nat
    requires o < OPERATORS
  {
    |OpText(o)|
  }

  predicate Matches(t: string, k: nat, o: nat)
    requires o < OPERATORS
  {
    At(t, k) == OpText(o)[0] && (OpLen(o) == 2 ==> At(t, k + 1) == OpText(o)[1])
  }

  datatype Found = Found(pos: nat, op: nat)

  /** What the search remembers: the nesting level, the priority of the best operator so far
      (in a byte), where it is, and where a sign follows it. */
  datatype Scan = Scan(level: int, best: byte, found: Option<Found>, skip: int)

  const NOWHERE := -1

  function Try(t: string, k: nat, st: Scan, o: nat): Scan
    requires o < OPERATORS
  {
    var prio := OpPrio(o) - st.level * 1000;
    if Matches(t, k, o) && prio >= st.best then
      Scan(st.level, prio % 256, Some(Found(k, o)), if At(t, k + OpLen(o)) == '-' then k + OpLen(o) else NOWHERE)
    else st
  }

  /** Tries the operators from the `o`-th on. */
  function TryAll(t: string, k: nat, st: Scan, o: nat): Scan
    requires o <= OPERATORS
    decreases OPERATORS - o
  {
    if o == OPERATORS then st else TryAll(t, k, Try(t, k, st, o), o + 1)
  }

  function ScanStep(t: string, k: nat, st: Scan): Scan {
    if At(t, k) == '(' then st.(level := st.level + 1)
    else if At(t, k) == ')' then st.(level := st.level - 1)
    else if k != st.skip then TryAll(t, k, st, 0)
    else st.(skip := NOWHERE)
  }

  function ScanTo(t: string, k: nat, m: nat, st: Scan): Scan
    decreases m - k
  {
    if k >= m then st else ScanTo(t, k + 1, m, ScanStep(t, k, st))
  }

  const START := Scan(0, 0, None, NOWHERE)

  predicate IsDigit(c: char) {
    '0' <= c <= '9'
  }

  /** A minus before a digit at the start is a sign. */
  function AfterSign(t: string, s: nat): nat {
    if At(t, s) == '-' && IsDigit(At(t, s + 1)) then s + 1 else s
  }

  /** The end of the search: it never looks at the last character of the text. */
  function ScanEnd(t: string, stop: nat): nat {
    if stop < |t| then stop else if |t| > 0 then |t| - 1 else 0
  }

  /** The operator a slice is split at. */
  function FindOp(t: string, s: nat, stop: nat): (r: Option<Found>)
    ensures r.Some? ==> r.value.op < OPERATORS && s <= r.value.pos < stop && Matches(t, r.value.pos, r.value.op)
  {
    ScanFound(t, AfterSign(t, s), ScanEnd(t, stop), START);
    ScanTo(t, AfterSign(t, s), ScanEnd(t, stop), START).found
  }

  lemma {:induction false} TryFound(t: string, k: nat, st: Scan, o: nat)
    requires o <= OPERATORS
    ensures var r := TryAll(t, k, st, o).found;
      r == st.found || (r.Some? && r.value.op < OPERATORS && r.value.pos == k && Matches(t, k, r.value.op))
    decreases OPERATORS - o
  {
    if o < OPERATORS {
      hide Try, Matches;
      TryOne(t, k, st, o);
      TryFound(t, k, Try(t, k, st, o), o + 1);
    }
  }

  lemma {:induction false} ScanFound(t: string, k: nat, m: nat, st: Scan)
    ensures var r := ScanTo(t, k, m, st).found;
      r == st.found || (r.Some? && r.value.op < OPERATORS && k <= r.value.pos < m && Matches(t, r.value.pos, r.value.op))
    decreases m - k
  {
    if k < m {
      hide ScanStep, Matches;
      StepFound(t, k, st);
      ScanFound(t, k + 1, m, ScanStep(t, k, st));
    }
  }

  lemma TryOne(t: string, k: nat, st: Scan, o: nat)
    requires o < OPERATORS
    ensures var r := Try(t, k, st, o).found; r == st.found || (r == Some(Found(k, o)) && Matches(t, k, o))
  {
  }

  lemma StepFound(t: string, k: nat, st: Scan)
    ensures var r := ScanStep(t, k, st).found;
      r == st.found || (r.Some? && r.value.op < OPERATORS && r.value.pos == k && Matches(t, k, r.value.op))
  {
    hide TryAll, Matches;
    TryFound(t, k, st, 0);
  }

  predicate IsText(t: string) {
    '\0' !in t
  }

  /** An operator that matches ends within the text. */
  lemma MatchFits(t: string, k: nat, o: nat)
    requires IsText(t) && o < OPERATORS && Matches(t, k, o)
    ensures k + OpLen(o) <= |t|
  {
  }

  method FindOperator(t: string, s: nat, stop: nat) returns (found: Option<Found>)
    requires IsText(t) && s <= |t|
    ensures found == FindOp(t, s, stop)
  {
    hide TryAll, ScanTo, ScanEnd;
    if At(t, s) == '\0' {
      ScanGoesOn(t, s, stop);
      ScanNext(t, s, ScanEnd(t, stop), START);
      return None;
    }
    var k := s;
    if At(t, k) == '-' && IsDigit(At(t, k + 1)) {
      k := k + 1;
    }
    var level: int, best: byte, skip: int := 0, 0, NOWHERE;
    found := None;
    while At(t, k) != '\0' && At(t, k + 1) != '\0' && k < stop
      invariant k <= |t|
      invariant ScanTo(t, k, ScanEnd(t, stop), Scan(level, best, found, skip)).found == FindOp(t, s, stop)
      decreases |t| - k
    {
      ScanGoesOn(t, k, stop);
      ScanNext(t, k, ScanEnd(t, stop), Scan(level, best, found, skip));
      if At(t, k) == '(' {
        level := level + 1;
      } else if At(t, k) == ')' {
        level := level - 1;
      } else if k != skip {
        best, found, skip := TryOperators(t, k, level, best, found, skip);
      } else {
        skip := NOWHERE;
      }
      k := k + 1;
    }
    ScanGoesOn(t, k, stop);
    ScanNext(t, k, ScanEnd(t, stop), Scan(level, best, found, skip));
  }

  lemma ScanNext(t: string, k: nat, m: nat, st: Scan)
    ensures ScanTo(t, k, m, st) == if k >= m then st else ScanTo(t, k + 1, m, ScanStep(t, k, st))
  {
  }

  lemma ScanGoesOn(t: string, k: nat, stop: nat)
    requires IsText(t)
    ensures k < ScanEnd(t, stop) <==> At(t, k) != '\0' && At(t, k + 1) != '\0' && k < stop
  {
  }

  /** The inner loop: every operator of the table is tried at one position. */
  method TryOperators(t: string, k: nat, level: int, best0: byte, found0: Option<Found>, skip0: int)
    returns (best: byte, found: Option<Found>, skip: int)
    ensures Scan(level, best, found, skip) == TryAll(t, k, Scan(level, best0, found0, skip0), 0)
  {
    hide Matches, OpText, OpPrio, At, TryAll;
    best, found, skip := best0, found0, skip0;
    ghost var all := TryAll(t, k, Scan(level, best0, found0, skip0), 0);
    for o := 0 to OPERATORS
      invariant TryAll(t, k, Scan(level, best, found, skip), o) == all
    {
      TryNext(t, k, Scan(level, best, found, skip), o);
      if Matches(t, k, o) {
        var prio := OpPrio(o) - level * 1000;
        if prio >= best {
          best, found := prio % 256, Some(Found(k, o));
          skip := k + OpLen(o);
          if At(t, skip) != '-' {
            skip := NOWHERE;
          }
        }
      }
    }
    TryNext(t, k, Scan(level, best, found, skip), OPERATORS);
  }

  lemma TryNext(t: string, k: nat, st: Scan, o: nat)
    requires o <= OPERATORS
    ensures TryAll(t, k, st, o) == if o == OPERATORS then st else TryAll(t, k, Try(t, k, st, o), o + 1)
  {
  }

  /** Position of the bracket that closes `level` open ones, the end of the text if none does. */
  function Closing(t: string, k: nat, level: nat): (r: nat)
    requires k <= |t|
    ensures k <= r <= |t|
    decreases |t| - k
  {
    if k == |t| then k
    else if t[k] == '(' then Closing(t, k + 1, level + 1)
    else if t[k] == ')' then (if level <= 1 then k else Closing(t, k + 1, level - 1))
    else Closing(t, k + 1, level)
  }

  function MatchingBrace(t: string, s: nat): (r: nat)
    requires s <= |t|
    ensures s <= r <= |t|
  {
    if At(t, s) != '(' then s else Closing(t, s + 1, 1)
  }

  method FindMatchingBrace(t: string, s: nat) returns (r: nat)
    requires IsText(t) && s <= |t|
    ensures r == MatchingBrace(t, s)
  {
    if At(t, s) != '(' {
      return s;
    }
    var level: nat := 1;
    r := s + 1;
    while At(t, r) != '\0'
      invariant r <= |t| && level >= 1 && Closing(t, r, level) == MatchingBrace(t, s)
      decreases |t| - r
    {
      if At(t, r) == '(' {
        level := level + 1;
      } else if At(t, r) == ')' {
        level := level - 1;
        if level == 0 {
          return;
        }
      }
      r := r + 1;
    }
  }
}
