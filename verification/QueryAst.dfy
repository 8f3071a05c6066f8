/** The search AST, its building blocks and its well-formedness (app/search/query.py:198-261, 384-442). */
module QueryAst {
  import opened Options
  import opened QuerySyntax
  import opened LikePatterns

  /** A bound parameter: a coerced search value, or the file list a scan binds. */
  datatype Value =
    | IntValue(n: int)
    | RealValue(x: real)
    | TimeValue(instant: int)
    | TextValue(s: string)
    | FilesValue(globs: seq<string>)

  /** `int`, `float` and the timestamp parser, as the code that runs supplies them. */
  datatype Conversions = Conversions(
    toInt: string -> Option<int>, toFloat: string -> Option<real>, toTime: string -> Option<int>)

  datatype Connective = AndOp | OrOp

  datatype Node =
    | Comparison(column: string, operator: string, value: Option<Value>, values: seq<Value>)
    | FreeText(text: string)
    | Not(child: Node)
    | BoolOp(connective: Connective, children: seq<Node>)

  // ---------- Building comparisons ----------

  function Coerce(co: Conversions, column: string, value: string): Result<Value> {
    if column in NumericColumns() then
      if column == "response_time_ms" then
        match co.toFloat(value) case None => Err(BadNumber) case Some(x) => Ok(RealValue(x))
      else
        match co.toInt(value) case None => Err(BadNumber) case Some(n) => Ok(IntValue(n))
    else if column in TimestampColumns() then
      match co.toTime(value) case None => Err(BadTimestamp) case Some(t) => Ok(TimeValue(t))
    else Ok(TextValue(value))
  }

  function CoerceAll(co: Conversions, column: string, values: seq<string>): (r: Result<seq<Value>>)
    ensures r.Ok? ==> |r.value| == |values|
    ensures r.Ok? ==> forall i :: 0 <= i < |values| ==> Coerce(co, column, values[i]) == Ok(r.value[i])
  {
    if values == [] then Ok([])
    else match Coerce(co, column, values[0])
      case Err(e) => Err(e)
      case Ok(v) =>
        match CoerceAll(co, column, values[1..])
        case Err(e) => Err(e)
        case Ok(vs) => Ok([v] + vs)
  }

  predicate IsOperator(operator: string) {
    operator in SqlOperators() || operator == "~"
  }

  /** A single value is matched as a pattern: always with `~`, and whenever a non-numeric column gets a star. */
  predicate IsPattern(column: string, operator: string, raw: string) {
    operator == "~" || ('*' in raw && column !in NumericColumns())
  }

  function BuildComparison(co: Conversions, column: string, operator: string, values: seq<string>): Result<Node>
    requires values != []
  {
    if !IsOperator(operator) then Err(UnsupportedOperator)
    else if |values| > 1 then
      if operator !in {"=", "==", ":"} then Err(ListNeedsEquality)
      else match CoerceAll(co, column, values)
        case Err(e) => Err(e)
        case Ok(vs) => Ok(Comparison(column, "=", None, vs))
    else if IsPattern(column, operator, values[0]) then
      Ok(Comparison(column, "~", Some(TextValue(ToLikePattern(values[0]))), []))
    else match Coerce(co, column, values[0])
      case Err(e) => Err(e)
      case Ok(v) => Ok(Comparison(column, operator, Some(v), []))
  }

  // ---------- Measures and well-formedness ----------

  /** The nodes the parser counts: negations and leaves. */
  function CountNodes(node: Node): nat
    decreases node, 0
  {
    match node
    case Comparison(_, _, _, _) => 1
    case FreeText(_) => 1
    case Not(child) => 1 + CountNodes(child)
    case BoolOp(_, children) => CountAll(children)
  }

  function CountAll(nodes: seq<Node>): nat
    decreases nodes, 0
  {
    if nodes == [] then 0 else CountNodes(nodes[0]) + CountAll(nodes[1..])
  }

  /** Levels of the grammar: a full expression, an operand of OR, an operand of AND or NOT. */
  datatype Level = OrLevel | AndLevel | TermLevel

  predicate NeedsParens(connective: Connective, level: Level) {
    level == TermLevel || (level == AndLevel && connective == OrOp)
  }

  function OperandLevel(connective: Connective): Level {
    if connective == OrOp then AndLevel else TermLevel
  }

  /** The parenthesis nesting a tree needs when it stands at `level`. */
  function Nesting(node: Node, level: Level): nat
    decreases node, 0
  {
    match node
    case Comparison(_, _, _, _) => 0
    case FreeText(_) => 0
    case Not(child) => Nesting(child, TermLevel)
    case BoolOp(connective, children) =>
      (if NeedsParens(connective, level) then 1 else 0) + NestingAll(children, OperandLevel(connective))
  }

  function NestingAll(nodes: seq<Node>, level: Level): nat
    decreases nodes, 0
  {
    if nodes == [] then 0
    else var first, rest := Nesting(nodes[0], level), NestingAll(nodes[1..], level);
         if first > rest then first else rest
  }

  /** What every tree the parser or the filter compiler builds satisfies: allow-listed columns, known operators. */
  predicate WellFormed(node: Node)
    decreases node, 0
  {
    match node
    case Comparison(column, operator, value, values) =>
      && column in QueryableColumns() && IsOperator(operator) && |values| <= 50
      && (values == [] ==> value.Some?)
    case FreeText(_) => true
    case Not(child) => WellFormed(child)
    case BoolOp(_, children) => |children| >= 2 && AllWellFormed(children)
  }

  predicate AllWellFormed(nodes: seq<Node>)
    decreases nodes, 0
  {
    nodes == [] || (WellFormed(nodes[0]) && AllWellFormed(nodes[1..]))
  }

  lemma {:induction false} CountAppend(a: seq<Node>, b: seq<Node>)
    ensures CountAll(a + b) == CountAll(a) + CountAll(b)
  {
    if a == [] {
      assert a + b == b;
    } else {
      assert (a + b)[1..] == a[1..] + b;
      CountAppend(a[1..], b);
    }
  }

  lemma {:induction false} NestingAppend(a: seq<Node>, n: Node, level: Level)
    ensures NestingAll(a + [n], level)
         == if NestingAll(a, level) > Nesting(n, level) then NestingAll(a, level) else Nesting(n, level)
  {
    if a == [] {
      assert (a + [n])[1..] == [];
    } else {
      assert (a + [n])[1..] == a[1..] + [n];
      NestingAppend(a[1..], n, level);
    }
  }

  lemma {:induction false} WellFormedAppend(a: seq<Node>, n: Node)
    ensures AllWellFormed(a + [n]) <==> AllWellFormed(a) && WellFormed(n)
  {
    if a == [] {
      assert (a + [n])[1..] == [];
    } else {
      assert (a + [n])[1..] == a[1..] + [n];
      WellFormedAppend(a[1..], n);
    }
  }
}
