/**
 The search API (app/search/query.py:448-515): compiling typed text, compiling filter maps and
 combining compiled queries, with the meaning of what they return.
 */
module Search {
  import opened Options
  import opened QuerySyntax
  import opened QueryAst
  import opened Sql
  import opened QueryCompiler
  import opened QueryPrinter
  import opened QueryMeaning
  import opened QueryText
  import opened SearchIntent
  import QueryParser
  import Tokenizer

  datatype CompiledQuery = CompiledQuery(sql: seq<SqlToken>, params: seq<Value>, text: string)

  const EMPTY := CompiledQuery([], [], "")

  // ---------- compile_query ----------

  /** What a parse yields is always fit for compilation. */
  function ParsedNode(co: Conversions, ts: seq<Lexeme>): (r: Result<Option<Node>>)
    ensures r == QueryParser.ParseQuery(co, ts)
    ensures r.Ok? && r.value.Some? ==> WellFormed(r.value.value) && CountNodes(r.value.value) <= MAX_NODES
  {
    var r := QueryParser.ParseQuery(co, ts);
    if r.Ok? && r.value.Some? then
      QueryParser.OrBounded(co, ts, 0, 0);
      r
    else r
  }

  function CompileText(co: Conversions, text: string): Result<CompiledQuery> {
    var stripped := Strip(text);
    if stripped == "" then Ok(EMPTY)
    else match Tokenizer.TokenizeSpec(stripped)
      case Err(e) => Err(e)
      case Ok(tokens) =>
        match ParsedNode(co, Lexemes(tokens))
        case Err(e) => Err(e)
        case Ok(None) => Ok(CompiledQuery([], [], stripped))
        case Ok(Some(node)) => Ok(CompiledQuery(Compile(node).sql, Compile(node).params, stripped))
  }

  method CompileQuery(co: Conversions, text: string) returns (r: Result<CompiledQuery>)
    ensures r == CompileText(co, text)
  {
    var stripped := Strip(text);
    if stripped == "" { return Ok(EMPTY); }
    var tokens := Tokenizer.Tokenize(stripped);
    if tokens.Err? { return Err(tokens.error); }
    var parser := new QueryParser.Parser(co, tokens.value);
    var node := parser.Parse();
    if node.Err? { return Err(node.error); }
    if node.value.None? { return Ok(CompiledQuery([], [], stripped)); }
    assert ParsedNode(co, Lexemes(tokens.value)) == node;
    return Ok(CompiledQuery(Compile(node.value.value).sql, Compile(node.value.value).params, stripped));
  }

  /** Blanks before each lexeme of a text, and after the last. */
  datatype Layout = Layout(gaps: seq<string>, tail: string)

  /** The layout keeps the lexemes of the query apart wherever they would fuse. */
  predicate Lays(layout: Layout, style: Style, q: Query) {
    Spaced(Print(style, q, OrLevel), layout.gaps) && IsBlank(layout.tail)
  }

  /** The text of a query in a style and a layout. */
  function Show(style: Style, layout: Layout, q: Query): string
    requires Lays(layout, style, q)
  {
    Lay(Print(style, q, OrLevel), layout.gaps) + layout.tail
  }

  /** A query that can be typed this way, within the limits of the language. */
  predicate Writable(style: Style, layout: Layout, q: Query) {
    && Printable(q) && Typeable(q) && ValidStyle(style) && Lays(layout, style, q)
    && Size(q) <= 64 && Parens(q, OrLevel) <= 8 && |Strip(Show(style, layout, q))| <= 4096
  }

  /**
   Within the limits of the language, compiling typed text gives the compiled tree of the query, or its first
   error.
   */
  lemma CompileTextOfShow(style: Style, layout: Layout, co: Conversions, q: Query)
    requires Writable(style, layout, q)
    ensures var r := CompileText(co, Show(style, layout, q));
            match Build(co, q)
            case Err(e) => r == Err(e)
            case Ok(node) => r.Ok? && FromTree(r.value, node)
  {
    hide Print, Lay, Strip, Tokenizer.TokenizeSpec, Build, QueryParser.ParseQuery, Compile;
    var lexes, gaps := Print(style, q, OrLevel), layout.gaps;
    PrintSpellable(style, q, OrLevel);
    PrintOpens(style, q, OrLevel);
    LayStrips(lexes, gaps, layout.tail);
    TokenizeInvertsLay(lexes, gaps[0 := ""]);
    ParseInvertsPrint(style, co, q);
    assert ParsedNode(co, lexes) == QueryParser.ParseQuery(co, lexes);
  }

  /**
   The whole compiler: a query typed in any style and layout and within the limits compiles to SQL that,
   parsed by the database and evaluated with the bound parameters, is worth on every row exactly what the
   user asked for.
   */
  lemma SearchMeansWhatItSays(style: Style, layout: Layout, co: Conversions, q: Query, row: Row)
    requires Writable(style, layout, q) && Build(co, q).Ok?
    ensures CompileText(co, Show(style, layout, q)).Ok?
    ensures var c := CompileText(co, Show(style, layout, q)).value;
            PredicateTruth(c.sql, c.params, row) == Some(QueryTruth(co, q, row))
  {
    CompileTextOfShow(style, layout, co, q);
    BuildMeaning(co, q, row);
    CompiledMeaning(Build(co, q).value, row);
  }

  /**
   Whatever is typed, an accepted query is at most 4096 characters long and binds at most 64 * 50 parameters, and its
   SQL holds no text of the user's.
   */
  lemma AcceptedIsBounded(co: Conversions, text: string)
    requires CompileText(co, text).Ok?
    ensures |Strip(text)| <= 4096 && |CompileText(co, text).value.params| <= 64 * 50
    ensures Closed(CompileText(co, text).value.sql)
    ensures Meaningful(CompileText(co, text).value)
  {
    var stripped := Strip(text);
    if stripped != "" {
      var ts := Lexemes(Tokenizer.TokenizeSpec(stripped).value);
      var parsed := ParsedNode(co, ts).value;
      if parsed.Some? {
        ParametersBounded(parsed.value);
        CompiledIsClosed(parsed.value);
        assert FromTree(CompileText(co, text).value, parsed.value);
      }
    }
  }

  // ---------- compile_filters ----------

  /** A filter value: absent, one value, or several. */
  datatype FilterValue = Absent | One(value: string) | Many(values: seq<string>)

  function FilterValues(value: FilterValue): seq<string> {
    match value
    case Absent => []
    case One(v) => if v == "" then [] else [v]
    case Many(vs) => if |vs| <= MAX_IN_VALUES then vs else vs[..MAX_IN_VALUES]
  }

  function FilterNodes(co: Conversions, filters: seq<(string, FilterValue)>): (r: Result<seq<Node>>)
    ensures r.Ok? ==> AllWellFormed(r.value)
  {
    if filters == [] then Ok([])
    else if filters[0].1.Absent? || filters[0].1 == One("") then FilterNodes(co, filters[1..])
    else match ResolveColumn(filters[0].0)
      case Err(e) => Err(e)
      case Ok(column) =>
        var values := FilterValues(filters[0].1);
        if values == [] then FilterNodes(co, filters[1..])
        else match BuildComparison(co, column, "=", values)
          case Err(e) => Err(e)
          case Ok(node) =>
            match FilterNodes(co, filters[1..])
            case Err(e) => Err(e)
            case Ok(nodes) => Ok([node] + nodes)
  }

  function CompileFilters(co: Conversions, filters: seq<(string, FilterValue)>): Result<CompiledQuery> {
    match FilterNodes(co, filters)
    case Err(e) => Err(e)
    case Ok(nodes) =>
      if nodes == [] then Ok(EMPTY)
      else
        var node := if |nodes| == 1 then nodes[0] else BoolOp(AndOp, nodes);
        Ok(CompiledQuery(Compile(node).sql, Compile(node).params, ""))
  }

  /** What one filter asks: nothing when absent or empty, else that the field has one of the first values given. */
  ghost function FilterTruth(co: Conversions, filter: (string, FilterValue), row: Row): Truth {
    match filter.1
    case Absent => True3
    case One(v) => if v == "" then True3 else FieldTruth(co, filter.0, [v], row)
    case Many(vs) =>
      if vs == [] then True3
      else FieldTruth(co, filter.0, if |vs| > 50 then vs[..50] else vs, row)
  }

  ghost function FieldTruth(co: Conversions, field: string, texts: seq<string>, row: Row): Truth {
    match ResolveColumn(field)
    case Err(_) => Unknown
    case Ok(column) => CompareTruth(co, column, "=", texts, row)
  }

  ghost function FilterTruths(co: Conversions, filters: seq<(string, FilterValue)>, row: Row): seq<Truth> {
    if filters == [] then [] else [FilterTruth(co, filters[0], row)] + FilterTruths(co, filters[1..], row)
  }

  lemma AllOfOneMore(truth: Truth, truths: seq<Truth>)
    ensures AllOf([truth] + truths) == And3(truth, AllOf(truths))
    ensures AllOf([True3] + truths) == AllOf(truths)
  {
  }

  /** The comparisons of a filter map ask what its filters ask. */
  lemma {:induction false} FilterNodesMean(co: Conversions, filters: seq<(string, FilterValue)>, row: Row)
    requires FilterNodes(co, filters).Ok?
    ensures AllOf(NodeMeanings(FilterNodes(co, filters).value, row)) == AllOf(FilterTruths(co, filters, row))
    decreases |filters|
  {
    hide CompareTruth, BuildComparison, NodeMeaning, AllOf;
    if filters != [] {
      var nodes := FilterNodes(co, filters).value;
      FilterNodesMean(co, filters[1..], row);
      AllOfOneMore(FilterTruth(co, filters[0], row), FilterTruths(co, filters[1..], row));
      var values := FilterValues(filters[0].1);
      if values != [] {
        ComparisonIsAsked(co, ResolveColumn(filters[0].0).value, "=", values, row);
        assert nodes[1..] == FilterNodes(co, filters[1..]).value;
        AllOfOneMore(NodeMeaning(nodes[0], row), NodeMeanings(nodes[1..], row));
      }
    }
  }

  /** A compiled filter map is worth on a row what all of its filters together ask; an empty one restricts nothing. */
  lemma FiltersMeaning(co: Conversions, filters: seq<(string, FilterValue)>, row: Row)
    requires FilterNodes(co, filters).Ok?
    ensures var c := CompileFilters(co, filters).value;
            && Meaningful(c)
            && (IsEmpty(c) ==> AllOf(FilterTruths(co, filters, row)) == True3)
            && (!IsEmpty(c) ==> PredicateTruth(c.sql, c.params, row) == Some(AllOf(FilterTruths(co, filters, row))))
  {
    hide CompareTruth, BuildComparison, FilterNodes, FilterTruths;
    FilterNodesMean(co, filters, row);
    var nodes := FilterNodes(co, filters).value;
    if nodes != [] {
      var node := if |nodes| == 1 then nodes[0] else BoolOp(AndOp, nodes);
      CompiledMeaning(node, row);
      CombinedTruth(AndOp, nodes, node, row);
      assert FromTree(CompileFilters(co, filters).value, node);
    }
  }

  // ---------- combine ----------

  predicate IsEmpty(q: CompiledQuery) {
    q.sql == []
  }

  function Active(queries: seq<CompiledQuery>): (r: seq<CompiledQuery>)
    ensures forall i :: 0 <= i < |r| ==> !IsEmpty(r[i]) && r[i] in queries
  {
    if queries == [] then [] else (if IsEmpty(queries[0]) then [] else [queries[0]]) + Active(queries[1..])
  }

  function JoinSql(connective: Connective, queries: seq<CompiledQuery>): seq<SqlToken> {
    if queries == [] then []
    else if |queries| == 1 then [Open] + queries[0].sql + [Close]
    else [Open] + queries[0].sql + [Close, ConnectiveToken(connective)] + JoinSql(connective, queries[1..])
  }

  function JoinParams(queries: seq<CompiledQuery>): seq<Value> {
    if queries == [] then [] else queries[0].params + JoinParams(queries[1..])
  }

  function JoinText(connective: Connective, queries: seq<CompiledQuery>): string {
    if queries == [] then ""
    else
      var rest := JoinText(connective, queries[1..]);
      if queries[0].text == "" then rest
      else if rest == "" then queries[0].text
      else queries[0].text + (if connective == AndOp then " AND " else " OR ") + rest
  }

  function Combine(connective: Connective, queries: seq<CompiledQuery>): CompiledQuery {
    var active := Active(queries);
    if active == [] then EMPTY
    else if |active| == 1 then active[0]
    else CompiledQuery(JoinSql(connective, active), JoinParams(active), JoinText(connective, active))
  }

  predicate FromTree(q: CompiledQuery, node: Node) {
    WellFormed(node) && q.sql == Compile(node).sql && q.params == Compile(node).params
  }

  ghost predicate HasTree(q: CompiledQuery) {
    exists node :: FromTree(q, node)
  }

  /** Empty, or the compilation of some tree; every query this module returns is so. */
  ghost predicate Meaningful(q: CompiledQuery) {
    (IsEmpty(q) && q.params == []) || HasTree(q)
  }

  predicate AllFromTrees(queries: seq<CompiledQuery>, nodes: seq<Node>) {
    |queries| == |nodes| && forall i :: 0 <= i < |queries| ==> FromTree(queries[i], nodes[i])
  }

  lemma {:induction false} JoinIsCompileAll(connective: Connective, queries: seq<CompiledQuery>, nodes: seq<Node>)
    requires AllFromTrees(queries, nodes) && queries != []
    ensures AllWellFormed(nodes)
    ensures JoinSql(connective, queries) == CompileAll(connective, nodes).sql
    ensures JoinParams(queries) == CompileAll(connective, nodes).params
    decreases |queries|
  {
    assert FromTree(queries[0], nodes[0]);
    if |queries| == 1 {
      assert queries[1..] == [] && nodes[1..] == [];
      assert JoinParams(queries) == queries[0].params;
    } else {
      forall i | 0 <= i < |queries| - 1 ensures FromTree(queries[1..][i], nodes[1..][i]) {
        assert FromTree(queries[i + 1], nodes[i + 1]);
      }
      JoinIsCompileAll(connective, queries[1..], nodes[1..]);
    }
  }

  ghost function Trees(queries: seq<CompiledQuery>): (nodes: seq<Node>)
    requires forall i :: 0 <= i < |queries| ==> HasTree(queries[i])
    ensures AllFromTrees(queries, nodes)
  {
    if queries == [] then []
    else
      assert HasTree(queries[0]);
      var node :| FromTree(queries[0], node);
      [node] + Trees(queries[1..])
  }

  /** The truth of a meaningful query that is not empty. */
  function TruthOf(q: CompiledQuery, row: Row): Truth {
    match PredicateTruth(q.sql, q.params, row) case Some(t) => t case None => Unknown
  }

  function Truths(queries: seq<CompiledQuery>, row: Row): (r: seq<Truth>)
    ensures |r| == |queries|
  {
    seq(|queries|, i requires 0 <= i < |queries| => TruthOf(queries[i], row))
  }

  /** Combining keeps the parameters with their holes: the result is the AND or OR of the active queries. */
  lemma CombineMeaning(connective: Connective, queries: seq<CompiledQuery>, row: Row)
    requires forall i :: 0 <= i < |queries| ==> Meaningful(queries[i])
    ensures Meaningful(Combine(connective, queries))
    ensures Active(queries) == [] ==> Combine(connective, queries) == EMPTY
    ensures Active(queries) != [] ==>
              PredicateTruth(Combine(connective, queries).sql, Combine(connective, queries).params, row)
              == Some(Combined(connective, Truths(Active(queries), row)))
  {
    hide FromTree, Compile, JoinSql, JoinParams, JoinText, PredicateTruth, NodeMeaning, NodeMeanings, Combined, Truths;
    var active := Active(queries);
    if active != [] {
      forall i | 0 <= i < |active| ensures HasTree(active[i]) {
        var j :| 0 <= j < |queries| && queries[j] == active[i];
        assert Meaningful(queries[j]);
      }
      var nodes := Trees(active);
      var node := CombinedTree(connective, queries, nodes);
      TreeTruth(Combine(connective, queries), node, row);
      TruthsAreMeanings(active, nodes, row);
      CombinedTruth(connective, nodes, node, row);
    }
  }

  /** The tree of a combination: that of the only active query, or the trees of all of them under the connective. */
  lemma CombinedTree(connective: Connective, queries: seq<CompiledQuery>, nodes: seq<Node>) returns (node: Node)
    requires Active(queries) != [] && AllFromTrees(Active(queries), nodes)
    ensures AllWellFormed(nodes) && FromTree(Combine(connective, queries), node)
    ensures |nodes| > 0 && node == if |nodes| == 1 then nodes[0] else BoolOp(connective, nodes)
  {
    hide JoinSql, JoinParams, JoinText;
    var active := Active(queries);
    JoinIsCompileAll(connective, active, nodes);
    if |active| == 1 {
      node := nodes[0];
      assert FromTree(active[0], nodes[0]);
    } else {
      node := BoolOp(connective, nodes);
    }
  }

  lemma TreeTruth(q: CompiledQuery, node: Node, row: Row)
    requires FromTree(q, node)
    ensures WellFormed(node) && PredicateTruth(q.sql, q.params, row) == Some(NodeMeaning(node, row))
  {
    CompiledMeaning(node, row);
  }

  lemma CombinedTruth(connective: Connective, nodes: seq<Node>, node: Node, row: Row)
    requires AllWellFormed(nodes) && |nodes| > 0
    requires WellFormed(node) && node == if |nodes| == 1 then nodes[0] else BoolOp(connective, nodes)
    ensures NodeMeaning(node, row) == Combined(connective, NodeMeanings(nodes, row))
  {
    if |nodes| == 1 {
      assert nodes[1..] == [] && NodeMeanings(nodes, row) == [NodeMeaning(node, row)];
      hide NodeMeaning;
      SingleTruth(connective, NodeMeaning(node, row));
    }
  }

  lemma SingleTruth(connective: Connective, truth: Truth)
    ensures Combined(connective, [truth]) == truth
  {
    if connective == AndOp { AndFold(truth, [], truth); } else { OrFold(truth, [], truth); }
  }

  lemma {:induction false} TruthsAreMeanings(queries: seq<CompiledQuery>, nodes: seq<Node>, row: Row)
    requires AllFromTrees(queries, nodes) && AllWellFormed(nodes)
    ensures Truths(queries, row) == NodeMeanings(nodes, row)
    decreases |queries|
  {
    if queries != [] {
      assert FromTree(queries[0], nodes[0]);
      CompiledMeaning(nodes[0], row);
      forall i | 0 <= i < |queries| - 1 ensures FromTree(queries[1..][i], nodes[1..][i]) {
        assert FromTree(queries[i + 1], nodes[i + 1]);
      }
      TruthsAreMeanings(queries[1..], nodes[1..], row);
      assert Truths(queries, row) == [TruthOf(queries[0], row)] + Truths(queries[1..], row);
    }
  }
}
