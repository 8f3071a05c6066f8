/**
 What a search means on a row, and the proof that the emitted SQL means the same.

 A missing cell makes a comparison unknown; AND, OR and NOT are those of three-valued logic, so a row
 is selected exactly when the query is true on it.
 */
module QueryMeaning {
  import opened Options
  import opened QuerySyntax
  import opened QueryAst
  import opened LikePatterns
  import opened Sql
  import opened QueryCompiler
  import opened QueryPrinter
  import opened SearchIntent

  // ---------- Meaning of trees ----------

  predicate CellContains(cell: Cell, text: string, fold: char -> char) {
    cell.Cell? && Contains(cell.text, text, fold)
  }

  /** Free text: somewhere in the message or in the raw line. */
  function TextSearch(text: string, row: Row): Truth {
    var message, raw := CellOf(row, "message"), CellOf(row, "raw_message");
    if CellContains(message, text, row.fold) || CellContains(raw, text, row.fold) then True3
    else if message.Null? || raw.Null? then Unknown
    else False3
  }

  ghost function NodeMeaning(node: Node, row: Row): Truth
    requires WellFormed(node)
    decreases node, 1
  {
    match node
    case Comparison(column, operator, value, values) =>
      var cell := CellOf(row, column);
      if cell.Null? then Unknown
      else if values != [] then Decide(exists v :: v in values && Equal(cell.value, v))
      else if operator == "~" then IlikeTruth(cell, value.value, row.fold)
      else Decide(Holds(SqlOperators()[operator], cell.value, value.value))
    case FreeText(text) => TextSearch(text, row)
    case Not(child) => Not3(NodeMeaning(child, row))
    case BoolOp(connective, children) => Combined(connective, NodeMeanings(children, row))
  }

  ghost function NodeMeanings(nodes: seq<Node>, row: Row): (r: seq<Truth>)
    requires AllWellFormed(nodes)
    ensures |r| == |nodes|
    decreases nodes, 0
  {
    if nodes == [] then [] else [NodeMeaning(nodes[0], row)] + NodeMeanings(nodes[1..], row)
  }

  function Combined(connective: Connective, truths: seq<Truth>): Truth {
    if connective == AndOp then AllOf(truths) else AnyOf(truths)
  }

  // ---------- The SQL means what the tree means ----------

  lemma FreeTextMeaning(text: string, row: Row)
    ensures Or3(IlikeTruth(CellOf(row, "message"), TextValue(ContainsPattern(text)), row.fold),
                IlikeTruth(CellOf(row, "raw_message"), TextValue(ContainsPattern(text)), row.fold))
                    == TextSearch(text, row)
  {
    var message, raw := CellOf(row, "message"), CellOf(row, "raw_message");
    if message.Cell? { ContainsPatternMeaning(text, message.text, row.fold); }
    if raw.Cell? { ContainsPatternMeaning(text, raw.text, row.fold); }
  }

  /** The parameters of `node` stand at `n` in `params`. */
  predicate BoundAt(params: seq<Value>, n: nat, own: seq<Value>) {
    n + |own| <= |params| && params[n..n + |own|] == own
  }

  lemma BoundSplit(params: seq<Value>, n: nat, a: seq<Value>, b: seq<Value>)
    requires BoundAt(params, n, a + b)
    ensures BoundAt(params, n, a) && BoundAt(params, n + |a|, b)
  {
    var own := params[n..n + |a + b|];
    assert params[n..n + |a|] == own[..|a|];
    assert params[n + |a|..n + |a| + |b|] == own[|a|..];
  }

  lemma BoundIndex(params: seq<Value>, n: nat, own: seq<Value>, i: nat)
    requires BoundAt(params, n, own) && i < |own|
    ensures params[n + i] == own[i]
  {
    assert params[n..n + |own|][i] == own[i];
  }

  /** Evaluated with its own parameters in its holes, a compiled tree is worth what the tree means. */
  lemma {:induction false} ImageMeaning(node: Node, n: nat, params: seq<Value>, row: Row)
    requires WellFormed(node) && BoundAt(params, n, Compile(node).params)
    ensures Eval(Image(node, n), params, row) == NodeMeaning(node, row)
    decreases node, 1
  {
    match node {
      case Comparison(_, _, _, _) => ComparisonMeaning(node, n, params, row);
      case FreeText(text) =>
        BoundIndex(params, n, CompileFreeText(text).params, 0);
        BoundIndex(params, n, CompileFreeText(text).params, 1);
        FreeTextMeaning(text, row);
      case Not(child) => ImageMeaning(child, n, params, row);
      case BoolOp(connective, children) => BoolOpMeaning(connective, children, n, params, row);
    }
  }

  lemma {:induction false} BoolOpMeaning(
      connective: Connective, children: seq<Node>, n: nat, params: seq<Value>, row: Row)
    requires AllWellFormed(children) && children != [] && BoundAt(params, n, CompileAll(connective, children).params)
    ensures Eval(ImageTail(connective, Image(children[0], n), children[1..], n + |Compile(children[0]).params|),
            params, row)
         == Combined(connective, NodeMeanings(children, row))
    decreases children, 2
  {
    OperandMeaning(connective, children, n, params, row);
    var truth := NodeMeaning(children[0], row);
    assert Combined(connective, [truth]) == truth;
    TailMeaning(connective, Image(children[0], n), [truth], children[1..], n + |Compile(children[0]).params|, params,
        row);
  }

  lemma {:induction false} OperandMeaning(
      connective: Connective, nodes: seq<Node>, n: nat, params: seq<Value>, row: Row)
    requires AllWellFormed(nodes) && nodes != [] && BoundAt(params, n, RestParams(connective, nodes))
    ensures Eval(Image(nodes[0], n), params, row) == NodeMeaning(nodes[0], row)
    ensures BoundAt(params, n + |Compile(nodes[0]).params|, RestParams(connective, nodes[1..]))
    decreases nodes, 0
  {
    FirstParams(connective, nodes);
    BoundSplit(params, n, Compile(nodes[0]).params, RestParams(connective, nodes[1..]));
    ImageMeaning(nodes[0], n, params, row);
  }

  lemma ComparisonMeaning(node: Node, n: nat, params: seq<Value>, row: Row)
    requires node.Comparison? && WellFormed(node) && BoundAt(params, n, CompileComparison(node).params)
    ensures Eval(Image(node, n), params, row) == NodeMeaning(node, row)
  {
    var own := CompileComparison(node).params;
    var cell := CellOf(row, node.column);
    if node.values != [] && cell.Cell? {
      if v :| v in node.values && Equal(cell.value, v) {
        var i :| 0 <= i < |own| && own[i] == v;
        BoundIndex(params, n, own, i);
        assert Equal(cell.value, params[n + i]);
      }
      if i :| n <= i < n + |own| && Equal(cell.value, params[i]) {
        BoundIndex(params, n, own, i - n);
        assert own[i - n] in own;
      }
    } else if node.values == [] {
      BoundIndex(params, n, own, 0);
    }
  }

  function RestParams(connective: Connective, nodes: seq<Node>): seq<Value>
    requires AllWellFormed(nodes)
  {
    if nodes == [] then [] else CompileAll(connective, nodes).params
  }

  lemma FirstParams(connective: Connective, nodes: seq<Node>)
    requires AllWellFormed(nodes) && nodes != []
    ensures CompileAll(connective, nodes).params == Compile(nodes[0]).params + RestParams(connective, nodes[1..])
  {
  }

  lemma {:induction false} TailMeaning(connective: Connective, left: SqlExpr, done: seq<Truth>,
        nodes: seq<Node>, n: nat, params: seq<Value>, row: Row)
    requires AllWellFormed(nodes) && BoundAt(params, n, RestParams(connective, nodes))
    requires done != [] && Eval(left, params, row) == Combined(connective, done)
    ensures Eval(ImageTail(connective, left, nodes, n), params, row)
            == Combined(connective, done + NodeMeanings(nodes, row))
    decreases nodes, 1
  {
    hide Compile, Image, NodeMeaning, Combined, Eval, Join, BoundAt, RestParams;
    if nodes == [] {
      assert done + NodeMeanings(nodes, row) == done;
    } else {
      OperandMeaning(connective, nodes, n, params, row);
      var truth := NodeMeaning(nodes[0], row);
      var joined := Join(connective, left, Image(nodes[0], n));
      JoinMeaning(connective, left, Image(nodes[0], n), done, truth, params, row);
      TailMeaning(connective, joined, done + [truth], nodes[1..], n + |Compile(nodes[0]).params|, params, row);
      assert done + ([truth] + NodeMeanings(nodes[1..], row)) == done + [truth] + NodeMeanings(nodes[1..], row);
    }
  }

  lemma JoinMeaning(connective: Connective, left: SqlExpr, right: SqlExpr, done: seq<Truth>, truth: Truth,
        params: seq<Value>, row: Row)
    requires done != [] && Eval(left, params, row) == Combined(connective, done) && Eval(right, params, row) == truth
    ensures Eval(Join(connective, left, right), params, row) == Combined(connective, done + [truth])
  {
    if connective == AndOp {
      AndFold(Combined(connective, done), done, truth);
    } else {
      OrFold(Combined(connective, done), done, truth);
    }
  }

  /** Parsing the emitted text, binding the i-th hole to the i-th parameter and evaluating gives the tree's truth. */
  lemma CompiledMeaning(node: Node, row: Row)
    requires WellFormed(node)
    ensures PredicateTruth(Compile(node).sql, Compile(node).params, row) == Some(NodeMeaning(node, row))
  {
    hide Compile, Image, NodeMeaning, Eval;
    var c := Compile(node);
    CompiledParses(node, [], 0);
    assert c.sql + [] == c.sql;
    ImageMeaning(node, 0, c.params, row);
  }

  // ---------- Meaning of queries ----------

  /** What the user asked for. */
  ghost function QueryTruth(co: Conversions, q: Query, row: Row): Truth
    requires Build(co, q).Ok?
    decreases q, 1
  {
    match q
    case Compare(field, operator, values) =>
      CompareTruth(co, ResolveColumn(field.text).value, operator, Texts(values), row)
    case Words(text) => TextSearch(text.text, row)
    case Negate(query) => Not3(QueryTruth(co, query, row))
    case Group(query) => QueryTruth(co, query, row)
    case Connect(connective, parts) => Combined(connective, QueryTruths(co, parts, row))
  }

  ghost function QueryTruths(co: Conversions, parts: seq<Query>, row: Row): seq<Truth>
    requires BuildAll(co, parts).Ok?
    decreases parts, 0
  {
    if parts == [] then [] else [QueryTruth(co, parts[0], row)] + QueryTruths(co, parts[1..], row)
  }

  /** A built comparison is worth what its operator and texts ask for. */
  lemma ComparisonIsAsked(co: Conversions, column: string, operator: string, texts: seq<string>, row: Row)
    requires column in QueryableColumns() && 1 <= |texts| <= MAX_IN_VALUES
    requires BuildComparison(co, column, operator, texts).Ok?
    ensures var node := BuildComparison(co, column, operator, texts).value;
            WellFormed(node) && NodeMeaning(node, row) == CompareTruth(co, column, operator, texts, row)
  {
    hide Asks, StandsFor, Coerce, Denotes, Holds, Equal, Same;
    var cell := CellOf(row, column);
    if |texts| > 1 {
      ListIsAsked(co, column, operator, texts, cell, row);
    } else {
      PatternsMean(column, operator, texts[0]);
      if IsPattern(column, operator, texts[0]) {
        if cell.Cell? { ToLikePatternMeaning(texts[0], cell.text, row.fold); }
      } else {
        SingleIsAsked(co, column, operator, texts, cell, row);
      }
    }
  }

  lemma ListIsAsked(co: Conversions, column: string, operator: string, texts: seq<string>, cell: Cell, row: Row)
    requires |texts| > 1 && CoerceAll(co, column, texts).Ok?
    ensures cell.Cell? ==>
      (Asked(co, column, operator, texts, cell, row.fold) <==>
        exists v :: v in CoerceAll(co, column, texts).value && Equal(cell.value, v))
  {
    hide StandsFor, Coerce, Equal, Same;
    var vs := CoerceAll(co, column, texts).value;
    if cell.Cell? {
      if v :| v in vs && Equal(cell.value, v) {
        var i :| 0 <= i < |vs| && vs[i] == v;
        CoerceMeans(co, column, texts[i], v);
        SameIsEqual(cell.value, v);
      }
      if i, v :| 0 <= i < |texts| && StandsFor(co, column, texts[i], v) && Same(cell.value, v) {
        CoerceMeans(co, column, texts[i], v);
        SameIsEqual(cell.value, v);
        assert v == vs[i] && v in vs;
      }
    }
  }

  lemma SingleIsAsked(co: Conversions, column: string, operator: string, texts: seq<string>, cell: Cell, row: Row)
    requires |texts| == 1 && operator in SqlOperators() && !MatchesText(column, operator, texts[0])
    requires Coerce(co, column, texts[0]).Ok?
    ensures cell.Cell? ==>
      (Asked(co, column, operator, texts, cell, row.fold) <==>
        Holds(SqlOperators()[operator], cell.value, Coerce(co, column, texts[0]).value))
  {
    hide StandsFor, Coerce, MatchesText, Asks, Holds, SqlOperators;
    var value := Coerce(co, column, texts[0]).value;
    CoerceMeans(co, column, texts[0], value);
    if cell.Cell? {
      OperatorsMean(operator, cell.value, value);
      if v :| StandsFor(co, column, texts[0], v) && Asks(operator, cell.value, v) {
        CoerceMeans(co, column, texts[0], v);
      }
    }
  }

  lemma CompareMeaning(co: Conversions, q: Query, row: Row)
    requires q.Compare? && Printable(q) && Build(co, q).Ok?
    ensures WellFormed(Build(co, q).value) && NodeMeaning(Build(co, q).value, row) == QueryTruth(co, q, row)
  {
    hide NodeMeaning, CompareTruth, BuildComparison;
    ComparisonIsAsked(co, ResolveColumn(q.field.text).value, q.operator, Texts(q.values), row);
  }

  /** The tree built for a query is well-formed and means what the query asks for. */
  lemma {:induction false} BuildMeaning(co: Conversions, q: Query, row: Row)
    requires Printable(q) && Build(co, q).Ok?
    ensures WellFormed(Build(co, q).value) && NodeMeaning(Build(co, q).value, row) == QueryTruth(co, q, row)
    decreases q, 1
  {
    match q {
      case Compare(_, _, _) => CompareMeaning(co, q, row);
      case Words(_) =>
      case Negate(query) => BuildMeaning(co, query, row);
      case Group(query) => BuildMeaning(co, query, row);
      case Connect(_, parts) => AllBuildMeaning(co, parts, row);
    }
  }

  lemma {:induction false} AllBuildMeaning(co: Conversions, parts: seq<Query>, row: Row)
    requires AllPrintable(parts) && BuildAll(co, parts).Ok?
    ensures AllWellFormed(BuildAll(co, parts).value)
    ensures NodeMeanings(BuildAll(co, parts).value, row) == QueryTruths(co, parts, row)
    decreases parts, 0
  {
    if parts != [] {
      BuildMeaning(co, parts[0], row);
      AllBuildMeaning(co, parts[1..], row);
      var nodes := BuildAll(co, parts).value;
      assert nodes[0] == Build(co, parts[0]).value && nodes[1..] == BuildAll(co, parts[1..]).value;
    }
  }

  // ---------- Operators and starred values ----------

  /**
   `!=` is the negation of `=` on every row exactly when the value is not matched as a pattern: a
   starred value of a non-numeric column is compiled to the same ILIKE under every operator.
   */
  lemma InequalityNegatesEquality(co: Conversions, column: string, raw: string)
    requires column in QueryableColumns()
    requires BuildComparison(co, column, "=", [raw]).Ok?
    ensures BuildComparison(co, column, "!=", [raw]).Ok?
    ensures (forall row :: NodeMeaning(BuildComparison(co, column, "!=", [raw]).value, row)
                        == Not3(NodeMeaning(BuildComparison(co, column, "=", [raw]).value, row)))
       <==> !('*' in raw && column !in NumericColumns())
  {
    var equal, unequal := BuildComparison(co, column, "=", [raw]).value, BuildComparison(co, column, "!=", [raw]).value;
    if '*' in raw && column !in NumericColumns() {
      assert equal == unequal;
      var row := Row(map[column := Cell(TextValue(""), "")], c => c);
      assert NodeMeaning(unequal, row) != Not3(NodeMeaning(equal, row));
    }
  }
}
