/**
 The statements the engine runs around a search predicate (app/storage/duckdb_engine.py:204-279): the
 file list is bound first, then the time range, the predicate's own parameters, the limit and the offset.
 */
module LogQuery {
  import opened Options
  import opened QuerySyntax
  import opened QueryAst
  import opened Sql
  import opened QueryCompiler
  import opened QueryMeaning
  import opened Search
  import opened PageOrder

  const ABSOLUTE_MAX_ROWS := 1000000

  // ---------- The clauses ----------

  function TimeClause(op: SqlCmp): seq<SqlToken> {
    [Column("timestamp"), CompareWith(op), Hole]
  }

  /** The list of conditions and the list of values, as the engine accumulates them. */
  method AssembleClauses(globs: seq<string>, start: Option<int>, end: Option<int>, where: CompiledQuery)
    returns (clauses: seq<seq<SqlToken>>, values: seq<Value>)
    ensures clauses == ClausesOf(start, end, where)
    ensures values == [FilesValue(globs)] + ValuesOf(start, end, where)
  {
    clauses, values := [], [FilesValue(globs)];
    if start.Some? {
      clauses, values := clauses + [TimeClause(CmpGe)], values + [TimeValue(start.value)];
    }
    if end.Some? {
      clauses, values := clauses + [TimeClause(CmpLe)], values + [TimeValue(end.value)];
    }
    if !IsEmpty(where) {
      clauses, values := clauses + [[Open] + where.sql + [Close]], values + where.params;
    }
  }

  /** `rest`, after `first` when the bound is given. */
  function WithBound<T>(bound: Option<int>, first: int -> T, rest: seq<T>): seq<T> {
    match bound case None => rest case Some(t) => [first(t)] + rest
  }

  function ClausesOf(start: Option<int>, end: Option<int>, where: CompiledQuery): seq<seq<SqlToken>> {
    WithBound(start, _ => TimeClause(CmpGe), WithBound(end, _ => TimeClause(CmpLe),
      if IsEmpty(where) then [] else [[Open] + where.sql + [Close]]))
  }

  function ValuesOf(start: Option<int>, end: Option<int>, where: CompiledQuery): seq<Value> {
    WithBound(start, t => TimeValue(t), WithBound(end, t => TimeValue(t), if IsEmpty(where) then [] else where.params))
  }

  function JoinClauses(clauses: seq<seq<SqlToken>>): seq<SqlToken> {
    if clauses == [] then []
    else if |clauses| == 1 then clauses[0]
    else clauses[0] + [KwAnd] + JoinClauses(clauses[1..])
  }

  function Where(clauses: seq<seq<SqlToken>>): seq<SqlToken> {
    if clauses == [] then [] else [KwWhere] + JoinClauses(clauses)
  }

  // ---------- The statements ----------

  datatype Page = Page(columns: seq<string>, orderBy: string, direction: string, limit: int, offset: int)

  /** No file lies in the range, a name is not allow-listed, or there is a statement to run. */
  datatype Statement = NoFiles | Rejected | Statement(sql: seq<SqlToken>, params: seq<Value>)

  function ColumnList(columns: seq<string>): seq<SqlToken> {
    if columns == [] then [] else if |columns| == 1 then [Column(columns[0])]
    else [Column(columns[0]), Comma] + ColumnList(columns[1..])
  }

  /** The scan of the bound file list. */
  function Source(): seq<SqlToken> {
    [FromFiles, Hole, FilesEnd]
  }

  function Ending(page: Page): seq<SqlToken> {
    [KwOrderBy, Column(page.orderBy), Sort(Direction(page.direction)), KwLimit, Hole, KwOffset, Hole]
  }

  function Min(a: int, b: int): int { if a < b then a else b }

  function Max(a: int, b: int): int { if a > b then a else b }

  /** Identifiers that are interpolated are allow-listed first. */
  predicate Acceptable(page: Page) {
    && (forall c :: c in page.columns ==> c in QueryableColumns())
    && page.orderBy in QueryableColumns()
    && Direction(page.direction) in {"ASC", "DESC"}
  }

  lemma AcceptableMeans(page: Page)
    ensures Acceptable(page) <==>
              && (forall c :: c in page.columns ==> c in QueryableColumns()) && page.orderBy in QueryableColumns()
              && (AsksFor(page.direction, "ASC") || AsksFor(page.direction, "DESC"))
  {
    hide QueryableColumns, Direction, AsksFor;
    DirectionMeans(page.direction, "ASC");
    DirectionMeans(page.direction, "DESC");
  }

  method QueryLogs(globs: seq<string>, where: CompiledQuery, start: Option<int>, end: Option<int>,
        page: Page) returns (s: Statement)
    ensures s == LogStatement(globs, where, start, end, page)
    ensures s == NoFiles <==> globs == []
    ensures s == Rejected <==>
              globs != [] && !(
                && (forall c :: c in page.columns ==> c in QueryableColumns()) && page.orderBy in QueryableColumns()
                && (AsksFor(page.direction, "ASC") || AsksFor(page.direction, "DESC")))
  {
    AcceptableMeans(page);
    hide QueryableColumns, AsksFor, SortedColumns;
    if globs == [] { return NoFiles; }
    var selected := if page.columns != [] then page.columns else SortedColumns();
    if !Acceptable(page) { return Rejected; }
    var clauses, values := AssembleClauses(globs, start, end, where);
    var sql := [KwSelect] + ColumnList(selected) + Source() + Where(clauses) + Ending(page);
    values := values + [IntValue(Min(page.limit, ABSOLUTE_MAX_ROWS)), IntValue(Max(0, page.offset))];
    return Statement(sql, values);
  }

  function LogStatement(globs: seq<string>, where: CompiledQuery, start: Option<int>, end: Option<int>,
        page: Page): Statement {
    if globs == [] then NoFiles
    else if !Acceptable(page) then Rejected
    else Statement(
      [KwSelect] + ColumnList(if page.columns != [] then page.columns else SortedColumns()) + Source()
        + Where(ClausesOf(start, end, where)) + Ending(page),
      [FilesValue(globs)] + ValuesOf(start, end, where)
        + [IntValue(Min(page.limit, ABSOLUTE_MAX_ROWS)), IntValue(Max(0, page.offset))])
  }

  method CountLogs(globs: seq<string>, where: CompiledQuery, start: Option<int>, end: Option<int>)
    returns (s: Statement)
    ensures s == CountStatement(globs, where, start, end)
  {
    if globs == [] { return NoFiles; }
    var clauses, values := AssembleClauses(globs, start, end, where);
    return Statement([KwSelectCount] + Source() + Where(clauses), values);
  }

  function CountStatement(globs: seq<string>, where: CompiledQuery, start: Option<int>, end: Option<int>): Statement {
    if globs == [] then NoFiles
    else Statement([KwSelectCount] + Source() + Where(ClausesOf(start, end, where)),
        [FilesValue(globs)] + ValuesOf(start, end, where))
  }

  // ---------- How the database reads a statement ----------

  /** A parsed SELECT: `files`, `limit` and `offset` are the numbers of the holes bound there. */
  datatype Select =
    | NoSelect
    | Select(columns: seq<string>, files: nat, where: Option<SqlExpr>, orderBy: string, direction: string, limit: nat,
        offset: nat, holes: nat)

  function ParseColumns(ts: seq<SqlToken>): (r: (seq<string>, seq<SqlToken>))
    ensures |r.1| <= |ts|
  {
    if ts == [] || !ts[0].Column? then ([], ts)
    else if |ts| > 1 && ts[1] == Comma then
      var rest := ParseColumns(ts[2..]);
      ([ts[0].name] + rest.0, rest.1)
    else ([ts[0].name], ts[1..])
  }

  function ParseEnding(columns: seq<string>, where: Option<SqlExpr>, ts: seq<SqlToken>, holes: nat): Select {
    if |ts| == 7 && ts[0] == KwOrderBy && ts[1].Column? && ts[2].Sort?
       && ts[3..] == [KwLimit, Hole, KwOffset, Hole]
    then Select(columns, 0, where, ts[1].name, ts[2].direction, holes, holes + 1, holes + 2)
    else NoSelect
  }

  /** The WHERE part and what follows it; the scan's own hole is number 0. */
  function ParseWhere(columns: seq<string>, ts: seq<SqlToken>): Select {
    if ts == [] || ts[0] != KwWhere then ParseEnding(columns, None, ts, 1)
    else
      var p := ParseOr(ts[1..], 1);
      if p.NoParse? then NoSelect else ParseEnding(columns, Some(p.e), p.rest, p.holes)
  }

  function ParseSelect(ts: seq<SqlToken>): Select {
    if ts == [] || ts[0] != KwSelect then NoSelect
    else
      var (columns, rest) := ParseColumns(ts[1..]);
      if |rest| >= 3 && rest[..3] == Source() then ParseWhere(columns, rest[3..]) else NoSelect
  }

  /** A parsed SELECT COUNT: the number of the hole the files are bound to, and the WHERE part. */
  datatype Count = NoCount | Count(files: nat, where: Option<SqlExpr>, holes: nat)

  function ParseCount(ts: seq<SqlToken>): Count {
    if ts == [] || ts[0] != KwSelectCount || |ts| < 4 || ts[1..4] != Source() then NoCount
    else if |ts| == 4 then Count(0, None, 1)
    else if ts[4] != KwWhere then NoCount
    else
      var p := ParseOr(ts[5..], 1);
      if p.NoParse? || p.rest != [] then NoCount else Count(0, Some(p.e), p.holes)
  }

  // ---------- The clauses as one conjunction ----------

  function TimeNode(operator: string, t: int): Node {
    Comparison("timestamp", operator, Some(TimeValue(t)), [])
  }

  /** The conditions as trees. */
  function ClauseNodes(start: Option<int>, end: Option<int>, where: Option<Node>): seq<Node> {
    WithBound(start, t => TimeNode(">=", t), WithBound(end, t => TimeNode("<=", t),
      if where.Some? then [where.value] else []))
  }

  /** A clause is the text of its tree, in parentheses unless the tree is a single comparison. */
  predicate Renders(clause: seq<SqlToken>, node: Node) {
    WellFormed(node) &&
    (clause == [Open] + Compile(node).sql + [Close] || (node.Comparison? && clause == Compile(node).sql))
  }

  predicate AllRender(clauses: seq<seq<SqlToken>>, nodes: seq<Node>) {
    |clauses| == |nodes| && (nodes == [] || (Renders(clauses[0], nodes[0]) && AllRender(clauses[1..], nodes[1..])))
  }

  lemma ClauseParses(clause: seq<SqlToken>, node: Node, rest: seq<SqlToken>, n: nat)
    requires Renders(clause, node)
    ensures ParseNot(clause + rest, n) == SqlParse(Image(node, n), rest, n + |Compile(node).params|)
  {
    if clause == [Open] + Compile(node).sql + [Close] {
      OperandParses(node, rest, n);
    } else {
      ComparisonParses(node, rest, n);
    }
  }

  function Tail(clauses: seq<seq<SqlToken>>): seq<SqlToken> {
    if clauses == [] then [] else [KwAnd] + JoinClauses(clauses)
  }

  function CountParams(nodes: seq<Node>): nat
    requires AllWellFormed(nodes)
  {
    if nodes == [] then 0 else |Compile(nodes[0]).params| + CountParams(nodes[1..])
  }

  lemma AndAdvances(left: SqlExpr, right: SqlExpr, operand: seq<SqlToken>, after: seq<SqlToken>, n: nat, m: nat)
    requires ParseNot(operand, n) == SqlParse(right, after, m)
    ensures ParseAndTail(left, [KwAnd] + operand, n) == ParseAndTail(SqlAnd(left, right), after, m)
  {
    assert ([KwAnd] + operand)[1..] == operand;
  }

  lemma ClauseAdvances(left: SqlExpr, clauses: seq<seq<SqlToken>>, node: Node, rest: seq<SqlToken>, n: nat)
    requires clauses != [] && Renders(clauses[0], node)
    ensures ParseAndTail(left, Tail(clauses) + rest, n)
         == ParseAndTail(SqlAnd(left, Image(node, n)), Tail(clauses[1..]) + rest, n + |Compile(node).params|)
  {
    hide ParseAndTail, Image, Tail, Compile;
    var after := Tail(clauses[1..]) + rest;
    ClauseParses(clauses[0], node, after, n);
    TailIsFirstAndTail(clauses, rest);
    AndAdvances(left, Image(node, n), clauses[0] + after, after, n, n + |Compile(node).params|);
  }

  lemma {:induction false} ClauseTailParses(left: SqlExpr, clauses: seq<seq<SqlToken>>, nodes: seq<Node>,
        rest: seq<SqlToken>, n: nat)
    requires AllRender(clauses, nodes) && AllWellFormed(nodes) && EndsPredicate(rest)
    ensures ParseAndTail(left, Tail(clauses) + rest, n)
         == SqlParse(ImageTail(AndOp, left, nodes, n), rest, n + CountParams(nodes))
    decreases |nodes|
  {
    hide ParseAndTail, Image, Compile, EndsPredicate, Tail;
    if nodes == [] {
      ClauseTailEnds(left, rest, n);
    } else {
      var next, m := SqlAnd(left, Image(nodes[0], n)), n + |Compile(nodes[0]).params|;
      ClauseTailParses(next, clauses[1..], nodes[1..], rest, m);
      assert n + CountParams(nodes) == m + CountParams(nodes[1..]);
      assert ImageTail(AndOp, left, nodes, n) == ImageTail(AndOp, next, nodes[1..], m);
      ClauseAdvances(left, clauses, nodes[0], rest, n);
    }
  }

  lemma ClauseTailEnds(left: SqlExpr, rest: seq<SqlToken>, n: nat)
    requires EndsPredicate(rest)
    ensures ParseAndTail(left, Tail([]) + rest, n) == SqlParse(left, rest, n)
  {
    assert Tail([]) + rest == rest;
  }

  lemma TailIsFirstAndTail(clauses: seq<seq<SqlToken>>, rest: seq<SqlToken>)
    requires clauses != []
    ensures Tail(clauses) + rest == [KwAnd] + (clauses[0] + (Tail(clauses[1..]) + rest))
  {
    JoinIsFirstAndTail(clauses, rest);
    assert Tail(clauses) + rest == [KwAnd] + (JoinClauses(clauses) + rest);
  }

  lemma JoinIsFirstAndTail(clauses: seq<seq<SqlToken>>, rest: seq<SqlToken>)
    requires clauses != []
    ensures JoinClauses(clauses) + rest == clauses[0] + (Tail(clauses[1..]) + rest)
  {
  }

  lemma ClausesParse(clauses: seq<seq<SqlToken>>, nodes: seq<Node>, rest: seq<SqlToken>, n: nat)
    requires AllRender(clauses, nodes) && AllWellFormed(nodes) && nodes != [] && EndsPredicate(rest)
    ensures ParseOr(JoinClauses(clauses) + rest, n)
         == SqlParse(ImageTail(AndOp, Image(nodes[0], n), nodes[1..], n + |Compile(nodes[0]).params|), rest,
            n + CountParams(nodes))
  {
    hide ParseOr, ParseAndTail, Image, ImageTail, EndsPredicate, JoinClauses;
    var m := n + |Compile(nodes[0]).params|;
    ClauseTailParses(Image(nodes[0], n), clauses[1..], nodes[1..], rest, m);
    assert n + CountParams(nodes) == m + CountParams(nodes[1..]);
    FirstClauseParses(clauses[0], nodes[0], Tail(clauses[1..]) + rest, n);
    JoinIsFirstAndTail(clauses, rest);
  }

  lemma FirstClauseParses(clause: seq<SqlToken>, node: Node, after: seq<SqlToken>, n: nat)
    requires Renders(clause, node)
    requires var tail := ParseAndTail(Image(node, n), after, n + |Compile(node).params|);
             tail.SqlParse? && EndsPredicate(tail.rest)
    ensures ParseOr(clause + after, n) == ParseAndTail(Image(node, n), after, n + |Compile(node).params|)
  {
    ClauseParses(clause, node, after, n);
    AndStarts(clause + after, Image(node, n), after, n, n + |Compile(node).params|);
  }

  /** The parameters of the conditions, in order. */
  lemma {:induction false} CountIsRest(nodes: seq<Node>)
    requires AllWellFormed(nodes)
    ensures CountParams(nodes) == |RestParams(AndOp, nodes)|
    decreases |nodes|
  {
    if nodes != [] {
      FirstParams(AndOp, nodes);
      CountIsRest(nodes[1..]);
    }
  }

  /** Conditions, their trees and their parameters, in step. */
  predicate InStep(clauses: seq<seq<SqlToken>>, nodes: seq<Node>, values: seq<Value>) {
    AllRender(clauses, nodes) && AllWellFormed(nodes) && RestParams(AndOp, nodes) == values
  }

  lemma StepCons(clause: seq<SqlToken>, node: Node, own: seq<Value>, clauses: seq<seq<SqlToken>>,
        nodes: seq<Node>, values: seq<Value>)
    requires InStep(clauses, nodes, values) && Renders(clause, node) && Compile(node).params == own
    ensures InStep([clause] + clauses, [node] + nodes, own + values)
  {
    assert ([clause] + clauses)[1..] == clauses && ([node] + nodes)[1..] == nodes;
    FirstParams(AndOp, [node] + nodes);
  }

  lemma TimeNodeRenders(operator: string, op: SqlCmp, t: int)
    requires (operator == ">=" && op == CmpGe) || (operator == "<=" && op == CmpLe)
    ensures Renders(TimeClause(op), TimeNode(operator, t)) && Compile(TimeNode(operator, t)).params == [TimeValue(t)]
  {
  }

  lemma ClausesRender(start: Option<int>, end: Option<int>, where: CompiledQuery, node: Option<Node>)
    requires if node.Some? then !IsEmpty(where) && FromTree(where, node.value) else IsEmpty(where)
    ensures InStep(ClausesOf(start, end, where), ClauseNodes(start, end, node), ValuesOf(start, end, where))
  {
    var none: Option<int> := None;
    assert InStep([], [], []);
    if node.Some? {
      StepCons([Open] + where.sql + [Close], node.value, where.params, [], [], []);
      assert [node.value] + [] == ClauseNodes(none, none, node) && where.params + [] == where.params;
    }
    assert InStep(ClausesOf(none, none, where), ClauseNodes(none, none, node), ValuesOf(none, none, where));
    if end.Some? {
      TimeNodeRenders("<=", CmpLe, end.value);
      StepCons(TimeClause(CmpLe), TimeNode("<=", end.value), [TimeValue(end.value)],
               ClausesOf(none, none, where), ClauseNodes(none, none, node), ValuesOf(none, none, where));
    }
    assert InStep(ClausesOf(none, end, where), ClauseNodes(none, end, node), ValuesOf(none, end, where));
    if start.Some? {
      TimeNodeRenders(">=", CmpGe, start.value);
      StepCons(TimeClause(CmpGe), TimeNode(">=", start.value), [TimeValue(start.value)],
               ClausesOf(none, end, where), ClauseNodes(none, end, node), ValuesOf(none, end, where));
    }
  }

  // ---------- What a statement selects ----------

  /** A row is returned by a statement read as `s` when its WHERE part, if any, is true. */
  predicate Selects(s: Select, params: seq<Value>, row: Row)
    requires s.Select?
  {
    s.where.None? || Eval(s.where.value, params, row) == True3
  }

  predicate InRange(row: Row, start: Option<int>, end: Option<int>) {
    var cell := CellOf(row, "timestamp");
    && (start.Some? ==> cell.Cell? && cell.value.TimeValue? && start.value <= cell.value.instant)
    && (end.Some? ==> cell.Cell? && cell.value.TimeValue? && cell.value.instant <= end.value)
  }

  lemma {:induction false} ColumnsParse(columns: seq<string>, rest: seq<SqlToken>)
    requires rest != [] && !rest[0].Column? && rest[0] != Comma
    ensures ParseColumns(ColumnList(columns) + rest) == (columns, rest)
    decreases |columns|
  {
    var ts := ColumnList(columns) + rest;
    if |columns| == 0 {
      assert ts == rest;
    } else if |columns| == 1 {
      assert ts[1..] == rest && [columns[0]] == columns;
    } else {
      assert ts[2..] == ColumnList(columns[1..]) + rest && [columns[0]] + columns[1..] == columns;
      ColumnsParse(columns[1..], rest);
    }
  }

  lemma TimeNodeMeaning(operator: string, t: int, row: Row)
    requires operator in {">=", "<="}
    requires var cell := CellOf(row, "timestamp"); cell.Cell? ==> cell.value.TimeValue?
    ensures WellFormed(TimeNode(operator, t))
    ensures NodeMeaning(TimeNode(operator, t), row) == True3
       <==> if operator == ">=" then InRange(row, Some(t), None) else InRange(row, None, Some(t))
  {
  }

  lemma {:induction false} MeaningAt(nodes: seq<Node>, row: Row, i: nat)
    requires AllWellFormed(nodes) && i < |nodes|
    ensures WellFormed(nodes[i]) && NodeMeanings(nodes, row)[i] == NodeMeaning(nodes[i], row)
    decreases i
  {
    if i > 0 { MeaningAt(nodes[1..], row, i - 1); }
  }

  /** The conditions are all true exactly of the rows in range on which the predicate is true. */
  lemma ConditionsMeaning(start: Option<int>, end: Option<int>, node: Option<Node>, row: Row)
    requires AllWellFormed(ClauseNodes(start, end, node)) && (node.Some? ==> WellFormed(node.value))
    requires var cell := CellOf(row, "timestamp"); cell.Cell? ==> cell.value.TimeValue?
    ensures AllOf(NodeMeanings(ClauseNodes(start, end, node), row)) == True3
       <==> InRange(row, start, end) && (node.Some? ==> NodeMeaning(node.value, row) == True3)
  {
    var nodes := ClauseNodes(start, end, node);
    var truths := NodeMeanings(nodes, row);
    if start.Some? {
      MeaningAt(nodes, row, 0);
      TimeNodeMeaning(">=", start.value, row);
      assert truths[0] in truths;
    }
    if end.Some? {
      MeaningAt(nodes, row, if start.Some? then 1 else 0);
      TimeNodeMeaning("<=", end.value, row);
      assert truths[if start.Some? then 1 else 0] in truths;
    }
    if node.Some? {
      MeaningAt(nodes, row, |nodes| - 1);
      assert truths[|nodes| - 1] in truths;
    }
  }

  /** The WHERE part, read from hole 1 on, is true exactly of the rows in range on which the predicate is true. */
  lemma WhereMeaning(start: Option<int>, end: Option<int>, where: CompiledQuery, node: Option<Node>,
        before: Value, after: seq<Value>, rest: seq<SqlToken>, row: Row)
    requires if node.Some? then !IsEmpty(where) && FromTree(where, node.value) else IsEmpty(where)
    requires ClausesOf(start, end, where) != [] && EndsPredicate(rest)
    requires var cell := CellOf(row, "timestamp"); cell.Cell? ==> cell.value.TimeValue?
    ensures var p := ParseOr(JoinClauses(ClausesOf(start, end, where)) + rest, 1);
            var params := [before] + ValuesOf(start, end, where) + after;
            && p.SqlParse? && p.rest == rest && p.holes == 1 + |ValuesOf(start, end, where)|
            && (Eval(p.e, params, row) == True3
                <==> InRange(row, start, end) && (node.Some? ==> NodeMeaning(node.value, row) == True3))
  {
    hide Image, ImageTail, Eval, NodeMeaning, NodeMeanings, JoinClauses, ParseOr, Compile;
    var nodes := ClauseNodes(start, end, node);
    var values := ValuesOf(start, end, where);
    var params := [before] + values + after;
    ClausesRender(start, end, where, node);
    ClausesParse(ClausesOf(start, end, where), nodes, rest, 1);
    CountIsRest(nodes);
    assert params[1..1 + |values|] == values;
    BoolOpMeaning(AndOp, nodes, 1, params, row);
    ConditionsMeaning(start, end, node, row);
  }

  /**
   The statement of `query_logs` binds every parameter to its own hole: the scan reads the file list,
   exactly the rows in range on which the predicate is true are selected, and LIMIT and OFFSET get the
   clamped page bounds.  No parameter is left over.
   */
  lemma QueryLogsMeaning(globs: seq<string>, where: CompiledQuery, node: Option<Node>, start: Option<int>,
        end: Option<int>, page: Page, row: Row)
    requires if node.Some? then !IsEmpty(where) && FromTree(where, node.value) else IsEmpty(where)
    requires globs != [] && Acceptable(page)
    requires var cell := CellOf(row, "timestamp"); cell.Cell? ==> cell.value.TimeValue?
    ensures var s := LogStatement(globs, where, start, end, page);
            var r := ParseSelect(s.sql);
            && r.Select? && r.holes == |s.params|
            && s.params[r.files] == FilesValue(globs)
            && s.params[r.limit] == IntValue(if page.limit < 1000000 then page.limit else 1000000)
            && s.params[r.offset] == IntValue(if page.offset < 0 then 0 else page.offset)
            && r.orderBy == page.orderBy
            && (r.direction == "ASC" <==> AsksFor(page.direction, "ASC"))
            && (r.direction == "DESC" <==> AsksFor(page.direction, "DESC"))
            && r.columns == (if page.columns == [] then SortedColumns() else page.columns)
            && (Selects(r, s.params, row)
                <==> InRange(row, start, end) && (node.Some? ==> NodeMeaning(node.value, row) == True3))
  {
    hide AsksFor, Direction, SortedColumns, QueryableColumns;
    hide ParseSelect, ParseOr, NodeMeaning, Eval, Compile, WellFormed, InRange, JoinClauses;
    var columns := if page.columns != [] then page.columns else SortedColumns();
    var clauses, values := ClausesOf(start, end, where), ValuesOf(start, end, where);
    var bounds := [IntValue(Min(page.limit, ABSOLUTE_MAX_ROWS)), IntValue(Max(0, page.offset))];
    DirectionMeans(page.direction, "ASC");
    DirectionMeans(page.direction, "DESC");
    SelectReads(columns, clauses, page);
    BoundsStand(FilesValue(globs), values, bounds);
    if clauses == [] {
      NoWhereReads(columns, start, end, where, node, FilesValue(globs), bounds, page, row);
    } else {
      WhereReads(columns, start, end, where, node, FilesValue(globs), bounds, page, row);
    }
  }

  lemma NoWhereReads(columns: seq<string>, start: Option<int>, end: Option<int>, where: CompiledQuery,
        node: Option<Node>, files: Value, bounds: seq<Value>, page: Page, row: Row)
    requires if node.Some? then !IsEmpty(where) && FromTree(where, node.value) else IsEmpty(where)
    requires ClausesOf(start, end, where) == []
    ensures var values := ValuesOf(start, end, where);
            var r := ParseWhere(columns, Where(ClausesOf(start, end, where)) + Ending(page));
            && r.Select? && r == Select(columns, 0, r.where, page.orderBy, Direction(page.direction), 1 + |values|,
               2 + |values|, 3 + |values|)
            && (Selects(r, [files] + values + bounds, row)
                <==> InRange(row, start, end) && (node.Some? ==> NodeMeaning(node.value, row) == True3))
  {
    assert Where([]) + Ending(page) == Ending(page);
    EndingReads(columns, None, page, 1);
  }

  // ---------- No text of the caller's reaches a statement ----------

  lemma {:induction false} ColumnsClosed(columns: seq<string>)
    requires forall c :: c in columns ==> c in QueryableColumns()
    ensures Closed(ColumnList(columns))
    decreases |columns|
  {
    hide QueryableColumns;
    if |columns| > 1 { ColumnsClosed(columns[1..]); }
  }

  lemma {:induction false} JoinClosed(clauses: seq<seq<SqlToken>>)
    requires forall i :: 0 <= i < |clauses| ==> Closed(clauses[i])
    ensures Closed(JoinClauses(clauses))
    decreases |clauses|
  {
    hide InVocabulary;
    AndIsKeyword();
    if |clauses| > 1 { JoinClosed(clauses[1..]); }
  }

  lemma AndIsKeyword()
    ensures InVocabulary(KwAnd)
  {
  }

  lemma ClausesClosed(start: Option<int>, end: Option<int>, where: CompiledQuery)
    requires Closed(where.sql)
    ensures Closed(Where(ClausesOf(start, end, where)))
  {
    hide JoinClauses;
    JoinClosed(ClausesOf(start, end, where));
  }

  lemma EndingClosed(page: Page)
    requires Acceptable(page)
    ensures Closed(Ending(page))
  {
    hide QueryableColumns, Direction;
  }

  /** The statements are made of keywords, holes, allow-listed columns and the two directions, whatever is asked for. */
  lemma StatementsAreClosed(globs: seq<string>, where: CompiledQuery, start: Option<int>, end: Option<int>, page: Page)
    requires Closed(where.sql)
    ensures var s := LogStatement(globs, where, start, end, page); s.Statement? ==> Closed(s.sql)
    ensures var s := CountStatement(globs, where, start, end); s.Statement? ==> Closed(s.sql)
  {
    hide Where, ColumnList, Ending, Source, ClausesOf, QueryableColumns, SortedColumns;
    ClausesClosed(start, end, where);
    SourceClosed();
    if Acceptable(page) {
      var columns := if page.columns != [] then page.columns else SortedColumns();
      EveryColumnByName();
      ColumnsClosed(columns);
      EndingClosed(page);
    }
  }

  lemma SourceClosed()
    ensures Closed(Source())
  {
  }

  lemma WhereReads(columns: seq<string>, start: Option<int>, end: Option<int>, where: CompiledQuery,
        node: Option<Node>, files: Value, bounds: seq<Value>, page: Page, row: Row)
    requires if node.Some? then !IsEmpty(where) && FromTree(where, node.value) else IsEmpty(where)
    requires ClausesOf(start, end, where) != []
    requires var cell := CellOf(row, "timestamp"); cell.Cell? ==> cell.value.TimeValue?
    ensures var values := ValuesOf(start, end, where);
            var r := ParseWhere(columns, Where(ClausesOf(start, end, where)) + Ending(page));
            && r.Select? && r == Select(columns, 0, r.where, page.orderBy, Direction(page.direction), 1 + |values|,
               2 + |values|, 3 + |values|)
            && (Selects(r, [files] + values + bounds, row)
                <==> InRange(row, start, end) && (node.Some? ==> NodeMeaning(node.value, row) == True3))
  {
    var clauses := ClausesOf(start, end, where);
    WhereMeaning(start, end, where, node, files, bounds, Ending(page), row);
    var p := ParseOr(JoinClauses(clauses) + Ending(page), 1);
    WhereUnfolds(columns, clauses, page, p.e, p.holes);
  }

  lemma WhereUnfolds(columns: seq<string>, clauses: seq<seq<SqlToken>>, page: Page, e: SqlExpr, holes: nat)
    requires clauses != [] && ParseOr(JoinClauses(clauses) + Ending(page), 1) == SqlParse(e, Ending(page), holes)
    ensures ParseWhere(columns, Where(clauses) + Ending(page))
         == Select(columns, 0, Some(e), page.orderBy, Direction(page.direction), holes, holes + 1, holes + 2)
  {
    assert (Where(clauses) + Ending(page))[1..] == JoinClauses(clauses) + Ending(page);
    EndingReads(columns, Some(e), page, holes);
  }

  lemma BoundsStand(files: Value, values: seq<Value>, bounds: seq<Value>)
    requires |bounds| == 2
    ensures var params := [files] + values + bounds;
            |params| == |values| + 3 && params[0] == files
            && params[1 + |values|] == bounds[0] && params[2 + |values|] == bounds[1]
  {
  }

  lemma EndingReads(columns: seq<string>, where: Option<SqlExpr>, page: Page, holes: nat)
    ensures ParseEnding(columns, where, Ending(page), holes)
         == Select(columns, 0, where, page.orderBy, Direction(page.direction), holes, holes + 1, holes + 2)
  {
  }

  lemma SelectReads(columns: seq<string>, clauses: seq<seq<SqlToken>>, page: Page)
    ensures ParseSelect([KwSelect] + ColumnList(columns) + Source() + Where(clauses) + Ending(page))
         == ParseWhere(columns, Where(clauses) + Ending(page))
  {
    SelectSplits(ColumnList(columns), Source(), Where(clauses), Ending(page));
    ColumnsParse(columns, Source() + (Where(clauses) + Ending(page)));
  }

  lemma SelectSplits(columns: seq<SqlToken>, source: seq<SqlToken>, where: seq<SqlToken>, ending: seq<SqlToken>)
    ensures ([KwSelect] + columns + source + where + ending)[1..] == columns + (source + (where + ending))
    ensures (source + (where + ending))[..|source|] == source
    ensures (source + (where + ending))[|source|..] == where + ending
  {
  }

  // ---------- What a counting statement counts ----------

  /** A row is counted by a statement read as `s` when its WHERE part, if any, is true. */
  predicate Counts(s: Count, params: seq<Value>, row: Row)
    requires s.Count?
  {
    s.where.None? || Eval(s.where.value, params, row) == True3
  }

  lemma CountSplits(source: seq<SqlToken>, where: seq<SqlToken>)
    requires |source| == 3
    ensures var sql := [KwSelectCount] + source + where;
            sql[1..4] == source && sql[4..] == where && |sql| == 4 + |where|
  {
  }

  lemma CountReads(clauses: seq<seq<SqlToken>>)
    ensures var sql := [KwSelectCount] + Source() + Where(clauses);
            ParseCount(sql) == (
              if clauses == [] then Count(0, None, 1)
              else
                var p := ParseOr(JoinClauses(clauses) + [], 1);
                if p.NoParse? || p.rest != [] then NoCount else Count(0, Some(p.e), p.holes))
  {
    hide ParseOr, JoinClauses;
    var sql := [KwSelectCount] + Source() + Where(clauses);
    CountSplits(Source(), Where(clauses));
    assert JoinClauses(clauses) + [] == JoinClauses(clauses);
    if clauses != [] {
      assert sql[4..] == [KwWhere] + JoinClauses(clauses);
      assert sql[4..][1..] == JoinClauses(clauses) && sql[5..] == sql[4..][1..];
    }
  }

  /**
   The statement of `count_logs` binds every parameter to its own hole, with none left over, and counts
   exactly the rows in range on which the predicate is true.
   */
  lemma CountLogsMeaning(globs: seq<string>, where: CompiledQuery, node: Option<Node>, start: Option<int>,
        end: Option<int>, row: Row)
    requires if node.Some? then !IsEmpty(where) && FromTree(where, node.value) else IsEmpty(where)
    requires globs != []
    requires var cell := CellOf(row, "timestamp"); cell.Cell? ==> cell.value.TimeValue?
    ensures var s := CountStatement(globs, where, start, end);
            var r := ParseCount(s.sql);
            && r.Count? && r.holes == |s.params| && s.params[r.files] == FilesValue(globs)
            && (Counts(r, s.params, row)
                <==> InRange(row, start, end) && (node.Some? ==> NodeMeaning(node.value, row) == True3))
  {
    hide ParseCount, ParseOr, NodeMeaning, Eval;
    var clauses, values := ClausesOf(start, end, where), ValuesOf(start, end, where);
    CountReads(clauses);
    if clauses != [] {
      WhereMeaning(start, end, where, node, FilesValue(globs), [], [], row);
      assert [FilesValue(globs)] + values + [] == [FilesValue(globs)] + values;
    }
  }

  /** How many rows a predicate holds of. */
  ghost function HowMany(rows: seq<Row>, p: Row -> bool): nat {
    if rows == [] then 0 else HowMany(rows[..|rows| - 1], p) + if p(rows[|rows| - 1]) then 1 else 0
  }

  /** The pagination total is the number of rows `query_logs` selects for the same predicate and range, on any table. */
  lemma {:induction false} TotalIsSelected(globs: seq<string>, where: CompiledQuery, node: Option<Node>,
      start: Option<int>,
        end: Option<int>, page: Page, rows: seq<Row>)
    requires if node.Some? then !IsEmpty(where) && FromTree(where, node.value) else IsEmpty(where)
    requires globs != [] && Acceptable(page)
    requires forall row :: row in rows && CellOf(row, "timestamp").Cell? ==> CellOf(row, "timestamp").value.TimeValue?
    ensures var c, s := CountStatement(globs, where, start, end), LogStatement(globs, where, start, end, page);
            var counted, selected := ParseCount(c.sql), ParseSelect(s.sql);
            && counted.Count? && selected.Select?
            && HowMany(rows, row => Counts(counted, c.params, row))
               == HowMany(rows, row => Selects(selected, s.params, row))
    decreases |rows|
  {
    hide ParseCount, ParseSelect, Counts, Selects, InRange, NodeMeaning, Acceptable, CountStatement, LogStatement;
    if rows == [] {
      var empty := Row(map[], c => c);
      CountLogsMeaning(globs, where, node, start, end, empty);
      QueryLogsMeaning(globs, where, node, start, end, page, empty);
    } else {
      var last := rows[|rows| - 1];
      TotalIsSelected(globs, where, node, start, end, page, rows[..|rows| - 1]);
      CountLogsMeaning(globs, where, node, start, end, last);
      QueryLogsMeaning(globs, where, node, start, end, page, last);
    }
  }
}
