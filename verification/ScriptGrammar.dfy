/** The language in the usual way: conditions of comparisons of sums of products, operators of
    one kind from left to right. Evaluation gives each sentence the value that this reading
    gives it (src/cmnds/cmd_if.c, lines 57 to 119 and 877 to 999). */
module ScriptGrammar {
  import opened Bytes
  import opened ScriptOperators
  import opened ScriptExpressions
  import opened ScriptSyntax
  import opened ScriptSigns
  import opened ScriptCounts
  import opened ScriptMeaning

  /** `&&` and `||` join comparisons. */
  datatype Condition =
    | OneComparison(c: Comparison)
    | Joined(first: Condition, join: string, next: Comparison)

  datatype Comparison =
    | OneSum(s: Sum)
    | Compared(lesser: Comparison, relation: string, greater: Sum)

  datatype Sum =
    | OneProduct(p: Product)
    | Added(so: Sum, sign: string, more: Product)

  datatype Product =
    | OneFactor(f: Factor)
    | Multiplied(product: Product, times: string, factor: Factor)

  datatype Factor =
    | Named(name: string)
    | Bracketed(inside: Condition)
    | Negated(of: Factor)

  predicate Joins(op: string) {
    op == "&&" || op == "||"
  }

  predicate Relates(op: string) {
    op == ">" || op == "<" || op == "==" || op == ">=" || op == "<=" || op == "!="
  }

  predicate Adds(op: string) {
    op == "+" || op == "-"
  }

  predicate Multiplies(op: string) {
    op == "*" || op == "/" || op == "%"
  }

  lemma OneKind(op: string)
    ensures Joins(op) ==> !Relates(op) && !Adds(op) && !Multiplies(op)
    ensures Relates(op) ==> !Adds(op) && !Multiplies(op)
    ensures Adds(op) ==> !Multiplies(op)
  {
  }

  /** The number that the source gives an operator. */
  function Number(op: string): (o: nat)
    ensures o < OPERATORS
  {
    if op == ">" then 0 else if op == "<" then 1 else if op == "==" then 2 else if op == ">=" then 3
    else if op == "<=" then 4 else if op == "!=" then 5 else if op == "&&" then 6 else if op == "||" then 7
    else if op == "+" then 8 else if op == "-" then 9 else if op == "*" then 10 else if op == "/" then 11
    else 12
  }

  predicate ConditionFits(c: Condition) {
    match c
    case OneComparison(d) => ComparisonFits(d)
    case Joined(d, op, e) => Joins(op) && ConditionFits(d) && ComparisonFits(e)
  }

  predicate ComparisonFits(c: Comparison) {
    match c
    case OneSum(s) => SumFits(s)
    case Compared(d, op, s) => Relates(op) && ComparisonFits(d) && SumFits(s)
  }

  predicate SumFits(s: Sum) {
    match s
    case OneProduct(p) => ProductFits(p)
    case Added(r, op, p) => Adds(op) && SumFits(r) && ProductFits(p)
  }

  predicate ProductFits(p: Product) {
    match p
    case OneFactor(f) => FactorFits(f)
    case Multiplied(q, op, f) => Multiplies(op) && ProductFits(q) && FactorFits(f)
  }

  predicate FactorFits(f: Factor) {
    match f
    case Named(name) => Atomic(name)
    case Bracketed(c) => ConditionFits(c)
    case Negated(g) => FactorFits(g)
  }

  function ConditionText(c: Condition): string {
    match c
    case OneComparison(d) => ComparisonText(d)
    case Joined(d, op, e) => ConditionText(d) + (op + ComparisonText(e))
  }

  function ComparisonText(c: Comparison): string {
    match c
    case OneSum(s) => SumText(s)
    case Compared(d, op, s) => ComparisonText(d) + (op + SumText(s))
  }

  function SumText(s: Sum): string {
    match s
    case OneProduct(p) => ProductText(p)
    case Added(r, op, p) => SumText(r) + (op + ProductText(p))
  }

  function ProductText(p: Product): string {
    match p
    case OneFactor(f) => FactorText(f)
    case Multiplied(q, op, f) => ProductText(q) + (op + FactorText(f))
  }

  function FactorText(f: Factor): string {
    match f
    case Named(name) => name
    case Bracketed(c) => "(" + (ConditionText(c) + ")")
    case Negated(g) => "!" + FactorText(g)
  }

  function ConditionValue<V>(sem: Semantics<V>, c: Condition): V {
    match c
    case OneComparison(d) => ComparisonValue(sem, d)
    case Joined(d, op, e) => sem.bin(Number(op), ConditionValue(sem, d), ComparisonValue(sem, e))
  }

  function ComparisonValue<V>(sem: Semantics<V>, c: Comparison): V {
    match c
    case OneSum(s) => SumValue(sem, s)
    case Compared(d, op, s) => sem.bin(Number(op), ComparisonValue(sem, d), SumValue(sem, s))
  }

  function SumValue<V>(sem: Semantics<V>, s: Sum): V {
    match s
    case OneProduct(p) => ProductValue(sem, p)
    case Added(r, op, p) => sem.bin(Number(op), SumValue(sem, r), ProductValue(sem, p))
  }

  function ProductValue<V>(sem: Semantics<V>, p: Product): V {
    match p
    case OneFactor(f) => FactorValue(sem, f)
    case Multiplied(q, op, f) => sem.bin(Number(op), ProductValue(sem, q), FactorValue(sem, f))
  }

  function FactorValue<V>(sem: Semantics<V>, f: Factor): V {
    match f
    case Named(name) => sem.atom(name)
    case Bracketed(c) => ConditionValue(sem, c)
    case Negated(g) => sem.neg(FactorValue(sem, g))
  }

  /** How the operators are spelt. */
  lemma Spelling(op: string)
    requires Joins(op) || Relates(op) || Adds(op) || Multiplies(op)
    ensures OpText(Number(op)) == op
  {
  }

  /** Each kind of operator binds tighter than the one before. */
  lemma Ranks(j: string, r: string, a: string, m: string)
    requires Joins(j) && Relates(r) && Adds(a) && Multiplies(m)
    ensures OpPrio(Number(m)) < OpPrio(Number(a)) < OpPrio(Number(r)) < OpPrio(Number(j))
  {
  }

  lemma RankOf(op: string)
    ensures Joins(op) ==> OpPrio(Number(op)) == OpPrio(Number("&&"))
    ensures Relates(op) ==> OpPrio(Number(op)) == OpPrio(Number("<"))
    ensures Adds(op) ==> OpPrio(Number(op)) == OpPrio(Number("+"))
    ensures Multiplies(op) ==> OpPrio(Number(op)) == OpPrio(Number("*"))
  {
  }

  function ConditionExpr(c: Condition): Expr {
    match c
    case OneComparison(d) => ComparisonExpr(d)
    case Joined(d, op, e) => Bin(ConditionExpr(d), "", Number(op), "", ComparisonExpr(e))
  }

  function ComparisonExpr(c: Comparison): Expr {
    match c
    case OneSum(s) => SumExpr(s)
    case Compared(d, op, s) => Bin(ComparisonExpr(d), "", Number(op), "", SumExpr(s))
  }

  function SumExpr(s: Sum): Expr {
    match s
    case OneProduct(p) => ProductExpr(p)
    case Added(r, op, p) => Bin(SumExpr(r), "", Number(op), "", ProductExpr(p))
  }

  function ProductExpr(p: Product): Expr {
    match p
    case OneFactor(f) => FactorExpr(f)
    case Multiplied(q, op, f) => Bin(ProductExpr(q), "", Number(op), "", FactorExpr(f))
  }

  function FactorExpr(f: Factor): Expr {
    match f
    case Named(name) => Atom(name)
    case Bracketed(c) => Paren("", ConditionExpr(c), "")
    case Negated(g) => Not("", FactorExpr(g))
  }

  /** What is read well: the text, the value, blanks and signs. */
  ghost predicate Reading<V>(sem: Semantics<V>, e: Expr, text: string, v: V) {
    && WellFormed(e) && Render(e) == text && Interp(sem, Meaning(e)) == v
    && BlanksFit(e) && SignsFit(e) && !Leading(e) && !Loose(e)
  }

  /** Two readings and an operator between them. */
  lemma ReadBin<V>(sem: Semantics<V>, l: Expr, op: string, r: Expr, a: string, b: string, x: V, y: V)
    requires Joins(op) || Relates(op) || Adds(op) || Multiplies(op)
    requires Reading(sem, l, a, x) && Reading(sem, r, b, y)
    requires Level(l) <= OpPrio(Number(op)) && Level(r) < OpPrio(Number(op))
    ensures Reading(sem, Bin(l, "", Number(op), "", r), a + (op + b), sem.bin(Number(op), x, y))
  {
    Spelling(op);
    hide OpPrio, OpText, Number;
    assert "" + (op + ("" + b)) == op + b;
  }

  lemma {:induction false} ConditionRead<V>(sem: Semantics<V>, c: Condition)
    requires ConditionFits(c)
    ensures Reading(sem, ConditionExpr(c), ConditionText(c), ConditionValue(sem, c))
    ensures Level(ConditionExpr(c)) <= OpPrio(Number("&&"))
    decreases c
  {
    hide Reading, Number, OpPrio;
    Ranks("&&", "<", "+", "*");
    match c
    case OneComparison(d) => ComparisonRead(sem, d);
    case Joined(d, op, e) =>
      ConditionRead(sem, d);
      ComparisonRead(sem, e);
      RankOf(op);
      ReadBin(sem, ConditionExpr(d), op, ComparisonExpr(e), ConditionText(d), ComparisonText(e),
              ConditionValue(sem, d), ComparisonValue(sem, e));
  }

  lemma {:induction false} ComparisonRead<V>(sem: Semantics<V>, c: Comparison)
    requires ComparisonFits(c)
    ensures Reading(sem, ComparisonExpr(c), ComparisonText(c), ComparisonValue(sem, c))
    ensures Level(ComparisonExpr(c)) <= OpPrio(Number("<"))
    decreases c
  {
    hide Reading, Number, OpPrio;
    Ranks("&&", "<", "+", "*");
    match c
    case OneSum(s) => SumRead(sem, s);
    case Compared(d, op, s) =>
      ComparisonRead(sem, d);
      SumRead(sem, s);
      RankOf(op);
      ReadBin(sem, ComparisonExpr(d), op, SumExpr(s), ComparisonText(d), SumText(s),
              ComparisonValue(sem, d), SumValue(sem, s));
  }

  lemma {:induction false} SumRead<V>(sem: Semantics<V>, s: Sum)
    requires SumFits(s)
    ensures Reading(sem, SumExpr(s), SumText(s), SumValue(sem, s))
    ensures Level(SumExpr(s)) <= OpPrio(Number("+"))
    decreases s
  {
    hide Reading, Number, OpPrio;
    Ranks("&&", "<", "+", "*");
    match s
    case OneProduct(p) => ProductRead(sem, p);
    case Added(r, op, p) =>
      SumRead(sem, r);
      ProductRead(sem, p);
      RankOf(op);
      ReadBin(sem, SumExpr(r), op, ProductExpr(p), SumText(r), ProductText(p), SumValue(sem, r), ProductValue(sem, p));
  }

  lemma {:induction false} ProductRead<V>(sem: Semantics<V>, p: Product)
    requires ProductFits(p)
    ensures Reading(sem, ProductExpr(p), ProductText(p), ProductValue(sem, p))
    ensures Level(ProductExpr(p)) <= OpPrio(Number("*"))
    decreases p
  {
    hide Reading, Number, OpPrio;
    RankOf("*");
    match p
    case OneFactor(f) => FactorRead(sem, f);
    case Multiplied(q, op, f) =>
      ProductRead(sem, q);
      FactorRead(sem, f);
      RankOf(op);
      ReadBin(sem, ProductExpr(q), op, FactorExpr(f), ProductText(q), FactorText(f), ProductValue(sem, q), FactorValue(sem, f));
  }

  lemma {:induction false} FactorRead<V>(sem: Semantics<V>, f: Factor)
    requires FactorFits(f)
    ensures Reading(sem, FactorExpr(f), FactorText(f), FactorValue(sem, f)) && !FactorExpr(f).Bin? && !FactorExpr(f).Signed?
    decreases f
  {
    match f
    case Named(_) =>
    case Bracketed(c) =>
      ConditionRead(sem, c);
      assert "" + (ConditionText(c) + ("" + ")")) == ConditionText(c) + ")";
    case Negated(g) =>
      FactorRead(sem, g);
      assert "" + FactorText(g) == FactorText(g);
  }

  /** Every sentence has the value of its usual reading, for every meaning of names and
      operators. */
  lemma SentenceEvaluates<V>(sem: Semantics<V>, c: Condition)
    requires ConditionFits(c)
    ensures IsText(ConditionText(c))
    ensures Eval(sem, ConditionText(c), 0, |ConditionText(c)|) == Value(ConditionValue(sem, c))
  {
    hide Eval, Interp, Render, SignsFit, BlanksFit, WellFormed, Loose, Leading;
    ConditionRead(sem, c);
    EvaluationIsMeaning(sem, ConditionExpr(c));
  }

  /** A sentence put together from a part, an operator and a part. */
  ghost predicate Says<V>(sem: Semantics<V>, c: Condition, text: string, v: V) {
    ConditionFits(c) && ConditionText(c) == text && ConditionValue(sem, c) == v
  }

  function Alone(name: string): Product {
    OneFactor(Named(name))
  }

  lemma Plain<V>(sem: Semantics<V>, a: string)
    requires Atomic(a)
    ensures FactorFits(Named(a)) && FactorText(Named(a)) == a && FactorValue(sem, Named(a)) == sem.atom(a)
    ensures ProductFits(Alone(a)) && ProductText(Alone(a)) == a && ProductValue(sem, Alone(a)) == sem.atom(a)
  {
  }

  /** A product with one operator. */
  lemma TwoFactors<V>(sem: Semantics<V>, a: string, x: string, b: string) returns (p: Product)
    requires Atomic(a) && Atomic(b) && Multiplies(x)
    ensures ProductFits(p) && ProductText(p) == a + (x + b)
    ensures ProductValue(sem, p) == sem.bin(Number(x), sem.atom(a), sem.atom(b))
  {
    Plain(sem, a);
    Plain(sem, b);
    hide Atomic, Number;
    p := Multiplied(Alone(a), x, Named(b));
  }

  lemma ProductAlone<V>(sem: Semantics<V>, p: Product)
    requires ProductFits(p)
    ensures var s := OneProduct(p);
      SumFits(s) && SumText(s) == ProductText(p) && SumValue(sem, s) == ProductValue(sem, p)
  {
  }

  lemma TwoProducts<V>(sem: Semantics<V>, p: Product, x: string, q: Product) returns (s: Sum)
    requires ProductFits(p) && ProductFits(q) && Adds(x)
    ensures SumFits(s) && SumText(s) == ProductText(p) + (x + ProductText(q))
    ensures SumValue(sem, s) == sem.bin(Number(x), ProductValue(sem, p), ProductValue(sem, q))
  {
    ProductAlone(sem, p);
    hide Number;
    s := Added(OneProduct(p), x, q);
  }

  lemma SumAlone<V>(sem: Semantics<V>, s: Sum)
    requires SumFits(s)
    ensures var c := OneSum(s);
      ComparisonFits(c) && ComparisonText(c) == SumText(s) && ComparisonValue(sem, c) == SumValue(sem, s)
  {
  }

  lemma TwoSums<V>(sem: Semantics<V>, s: Sum, x: string, r: Sum) returns (c: Comparison)
    requires SumFits(s) && SumFits(r) && Relates(x)
    ensures ComparisonFits(c) && ComparisonText(c) == SumText(s) + (x + SumText(r))
    ensures ComparisonValue(sem, c) == sem.bin(Number(x), SumValue(sem, s), SumValue(sem, r))
  {
    SumAlone(sem, s);
    hide Number;
    c := Compared(OneSum(s), x, r);
  }

  lemma ComparisonAlone<V>(sem: Semantics<V>, c: Comparison)
    requires ComparisonFits(c)
    ensures Says(sem, OneComparison(c), ComparisonText(c), ComparisonValue(sem, c))
  {
  }

  lemma Evaluates<V>(sem: Semantics<V>, c: Condition, t: string)
    requires ConditionFits(c) && ConditionText(c) == t
    ensures IsText(t) && Eval(sem, t, 0, |t|) == Value(ConditionValue(sem, c))
  {
    SentenceEvaluates(sem, c);
  }

  /** Comparisons come before `&&` and `||`, on both sides. */
  lemma ComparisonsFirst<V>(sem: Semantics<V>, a: string, x: string, b: string, y: string, c: string, z: string, d: string)
    requires Atomic(a) && Atomic(b) && Atomic(c) && Atomic(d) && Relates(x) && Joins(y) && Relates(z)
    ensures var t, at := a + x + b + y + c + z + d, sem.atom;
      && IsText(t)
      && Eval(sem, t, 0, |t|)
         == Value(sem.bin(Number(y), sem.bin(Number(x), at(a), at(b)), sem.bin(Number(z), at(c), at(d))))
  {
    hide Eval, Number, Atomic, ComparisonText, ComparisonValue, ComparisonFits, Joins, Relates, IsText;
    var l := Related(sem, a, x, b);
    var r := Related(sem, c, z, d);
    ComparisonAlone(sem, l);
    var e := Joined(OneComparison(l), y, r);
    SevenParts(a, x, b, y, c, z, d);
    Evaluates(sem, e, a + x + b + y + c + z + d);
  }

  lemma SevenParts(a: string, x: string, b: string, y: string, c: string, z: string, d: string)
    ensures (a + (x + b)) + (y + (c + (z + d))) == a + x + b + y + c + z + d
  {
    FiveParts(a, x, b, y, c + (z + d));
    Assoc(a + x + b + y, c, z + d);
    Assoc(a + x + b + y + c, z, d);
  }

  lemma FiveParts(a: string, x: string, b: string, y: string, c: string)
    ensures (a + (x + b)) + (y + c) == a + x + b + y + c
    ensures a + (x + (b + (y + c))) == a + x + b + y + c
  {
    Assoc(a, x, b);
    Assoc(a + x + b, y, c);
    Assoc(b, y, c);
    Assoc(x, b + y, c);
    Assoc(a, x, b + y + c);
    Assoc(a + x, b, y + c);
    Assoc(a, x, b + (y + c));
  }

  lemma Related<V>(sem: Semantics<V>, a: string, x: string, b: string) returns (c: Comparison)
    requires Atomic(a) && Atomic(b) && Relates(x)
    ensures ComparisonFits(c) && ComparisonText(c) == a + (x + b)
    ensures ComparisonValue(sem, c) == sem.bin(Number(x), sem.atom(a), sem.atom(b))
  {
    hide Number, Atomic, Relates;
    Plain(sem, a);
    Plain(sem, b);
    ProductAlone(sem, Alone(a));
    ProductAlone(sem, Alone(b));
    c := TwoSums(sem, OneProduct(Alone(a)), x, OneProduct(Alone(b)));
  }

  /** Sums come before comparisons, on either side. */
  lemma SumsFirst<V>(sem: Semantics<V>, a: string, x: string, b: string, y: string, c: string)
    requires Atomic(a) && Atomic(b) && Atomic(c) && ((Adds(x) && Relates(y)) || (Relates(x) && Adds(y)))
    ensures var t, at := a + x + b + y + c, sem.atom;
      && IsText(t)
      && Eval(sem, t, 0, |t|)
         == Value(if Adds(x) then sem.bin(Number(y), sem.bin(Number(x), at(a), at(b)), at(c))
                  else sem.bin(Number(x), at(a), sem.bin(Number(y), at(b), at(c))))
  {
    OneKind(x);
    hide Eval, Number, Atomic, IsText, Joins, Relates, Adds, Multiplies;
    FiveParts(a, x, b, y, c);
    Plain(sem, a);
    Plain(sem, b);
    Plain(sem, c);
    var e;
    if Adds(x) {
      var s := TwoProducts(sem, Alone(a), x, Alone(b));
      ProductAlone(sem, Alone(c));
      e := TwoSums(sem, s, y, OneProduct(Alone(c)));
    } else {
      var s := TwoProducts(sem, Alone(b), y, Alone(c));
      ProductAlone(sem, Alone(a));
      e := TwoSums(sem, OneProduct(Alone(a)), x, s);
    }
    ComparisonAlone(sem, e);
    Evaluates(sem, OneComparison(e), a + x + b + y + c);
  }

  /** Products come before sums, on either side. */
  lemma ProductsFirst<V>(sem: Semantics<V>, a: string, x: string, b: string, y: string, c: string)
    requires Atomic(a) && Atomic(b) && Atomic(c) && ((Multiplies(x) && Adds(y)) || (Adds(x) && Multiplies(y)))
    ensures var t, at := a + x + b + y + c, sem.atom;
      && IsText(t)
      && Eval(sem, t, 0, |t|)
         == Value(if Multiplies(x) then sem.bin(Number(y), sem.bin(Number(x), at(a), at(b)), at(c))
                  else sem.bin(Number(x), at(a), sem.bin(Number(y), at(b), at(c))))
  {
    OneKind(x);
    hide Eval, Number, Atomic, IsText, Joins, Relates, Adds, Multiplies;
    FiveParts(a, x, b, y, c);
    Plain(sem, a);
    Plain(sem, b);
    Plain(sem, c);
    var s;
    if Multiplies(x) {
      var p := TwoFactors(sem, a, x, b);
      s := TwoProducts(sem, p, y, Alone(c));
    } else {
      var p := TwoFactors(sem, b, y, c);
      s := TwoProducts(sem, Alone(a), x, p);
    }
    SumAlone(sem, s);
    ComparisonAlone(sem, OneSum(s));
    Evaluates(sem, OneComparison(OneSum(s)), a + x + b + y + c);
  }

  /** Two operators of one kind are taken from left to right. */
  lemma LeftToRight<V>(sem: Semantics<V>, a: string, x: string, b: string, y: string, c: string)
    requires Atomic(a) && Atomic(b) && Atomic(c)
    requires (Joins(x) && Joins(y)) || (Relates(x) && Relates(y)) || (Adds(x) && Adds(y)) || (Multiplies(x) && Multiplies(y))
    ensures var t, at := a + x + b + y + c, sem.atom;
      IsText(t) && Eval(sem, t, 0, |t|) == Value(sem.bin(Number(y), sem.bin(Number(x), at(a), at(b)), at(c)))
  {
    hide Eval, Number, Atomic, ConditionText, IsText, Joins, Relates, Adds, Multiplies;
    var e := Chain(sem, a, x, b, y, c);
    FiveParts(a, x, b, y, c);
    Evaluates(sem, e, a + x + b + y + c);
  }

  lemma Chain<V>(sem: Semantics<V>, a: string, x: string, b: string, y: string, c: string) returns (e: Condition)
    requires Atomic(a) && Atomic(b) && Atomic(c)
    requires (Joins(x) && Joins(y)) || (Relates(x) && Relates(y)) || (Adds(x) && Adds(y)) || (Multiplies(x) && Multiplies(y))
    ensures Says(sem, e, (a + (x + b)) + (y + c),
                 sem.bin(Number(y), sem.bin(Number(x), sem.atom(a), sem.atom(b)), sem.atom(c)))
  {
    OneKind(x);
    OneKind(y);
    hide Number, Atomic, Joins, Relates, Adds, Multiplies;
    Plain(sem, a);
    Plain(sem, b);
    Plain(sem, c);
    var p, q, r := OneProduct(Alone(a)), OneProduct(Alone(b)), OneProduct(Alone(c));
    ProductAlone(sem, Alone(a));
    ProductAlone(sem, Alone(b));
    ProductAlone(sem, Alone(c));
    SumAlone(sem, p);
    SumAlone(sem, q);
    SumAlone(sem, r);
    if Joins(x) && Joins(y) {
      ComparisonAlone(sem, OneSum(p));
      var i := Joined(OneComparison(OneSum(p)), x, OneSum(q));
      assert Says(sem, i, a + (x + b), sem.bin(Number(x), sem.atom(a), sem.atom(b)));
      e := Joined(i, y, OneSum(r));
    } else if Relates(x) && Relates(y) {
      var d := TwoSums(sem, p, x, q);
      assert ComparisonFits(Compared(d, y, r)) && ComparisonText(Compared(d, y, r)) == (a + (x + b)) + (y + c);
      ComparisonAlone(sem, Compared(d, y, r));
      e := OneComparison(Compared(d, y, r));
    } else if Adds(x) && Adds(y) {
      var l := TwoProducts(sem, Alone(a), x, Alone(b));
      var s := Added(l, y, Alone(c));
      assert SumFits(s) && SumText(s) == (a + (x + b)) + (y + c);
      SumAlone(sem, s);
      ComparisonAlone(sem, OneSum(s));
      e := OneComparison(OneSum(s));
    } else {
      var l := TwoFactors(sem, a, x, b);
      var s := Multiplied(l, y, Named(c));
      assert ProductFits(s) && ProductText(s) == (a + (x + b)) + (y + c);
      ProductAlone(sem, s);
      SumAlone(sem, OneProduct(s));
      ComparisonAlone(sem, OneSum(OneProduct(s)));
      e := OneComparison(OneSum(OneProduct(s)));
    }
  }
}
