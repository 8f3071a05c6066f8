/**
 The SQL side of a search: the tokens of a predicate, how a database parses them, and what they are
 worth on a row.

 NOT binds tighter than AND and AND tighter than OR; a comparison with NULL is unknown; the i-th `?`
 of the text, counted from the left, is the i-th parameter (numbered from 0).
 */
module Sql {
  import opened Options
  import opened QuerySyntax
  import opened QueryAst
  import opened LikePatterns

  datatype SqlToken =
    | Column(name: string)
    | CompareWith(op: SqlCmp)
    | Hole
    | Open
    | Close
    | Comma
    | KwAnd
    | KwOr
    | KwNot
    | KwIn
    | AsVarchar
    | Ilike
    | EscapeBackslash
    | KwSelect
    | KwSelectCount
    | FromFiles
    | FilesEnd
    | KwWhere
    | KwOrderBy
    | Sort(direction: string)
    | KwLimit
    | KwOffset

  // ---------- Truth ----------

  datatype Truth = True3 | False3 | Unknown

  function Decide(b: bool): Truth {
    if b then True3 else False3
  }

  function Not3(a: Truth): Truth {
    match a case True3 => False3 case False3 => True3 case Unknown => Unknown
  }

  function And3(a: Truth, b: Truth): Truth {
    if a == False3 || b == False3 then False3 else if a == True3 then b else a
  }

  function Or3(a: Truth, b: Truth): Truth {
    Not3(And3(Not3(a), Not3(b)))
  }

  /** All of several truths: false as soon as one is false, unknown as soon as one is unknown. */
  function AllOf(truths: seq<Truth>): Truth {
    if False3 in truths then False3 else if Unknown in truths then Unknown else True3
  }

  function AnyOf(truths: seq<Truth>): Truth {
    if True3 in truths then True3 else if Unknown in truths then Unknown else False3
  }

  // ---------- Rows ----------

  /** A stored cell: NULL, or a value together with its rendering as VARCHAR. */
  datatype Cell = Null | Cell(value: Value, text: string)

  /** A row, and the case folding the database compares text with. */
  datatype Row = Row(cells: map<string, Cell>, fold: char -> char)

  function CellOf(row: Row, column: string): Cell {
    if column in row.cells then row.cells[column] else Null
  }

  predicate TextLess(a: string, b: string) {
    b != [] && (a == [] || a[0] < b[0] || (a[0] == b[0] && TextLess(a[1..], b[1..])))
  }

  function Number(v: Value): Option<real> {
    match v
    case IntValue(n) => Some(n as real)
    case RealValue(x) => Some(x)
    case TimeValue(_) => None
    case TextValue(_) => None
    case FilesValue(_) => None
  }

  predicate Equal(a: Value, b: Value) {
    if Number(a).Some? && Number(b).Some? then Number(a) == Number(b) else a == b
  }

  predicate Less(a: Value, b: Value) {
    if Number(a).Some? && Number(b).Some? then Number(a).value < Number(b).value
    else if a.TimeValue? && b.TimeValue? then a.instant < b.instant
    else a.TextValue? && b.TextValue? && TextLess(a.s, b.s)
  }

  predicate Holds(op: SqlCmp, a: Value, b: Value) {
    match op
    case CmpEq => Equal(a, b)
    case CmpNe => !Equal(a, b)
    case CmpLt => Less(a, b)
    case CmpGt => Less(b, a)
    case CmpLe => Less(a, b) || Equal(a, b)
    case CmpGe => Less(b, a) || Equal(a, b)
  }

  // ---------- The database's parser ----------

  datatype SqlExpr =
    | SqlCompare(column: string, op: SqlCmp, hole: nat)
    | SqlIn(column: string, first: nat, count: nat)
    | SqlIlike(column: string, hole: nat)
    | SqlNot(e: SqlExpr)
    | SqlAnd(left: SqlExpr, right: SqlExpr)
    | SqlOr(left: SqlExpr, right: SqlExpr)

  /** A parse: the expression, the tokens left and the number of the next `?`. */
  datatype SqlParse = NoParse | SqlParse(e: SqlExpr, rest: seq<SqlToken>, holes: nat)

  function ParseOr(ts: seq<SqlToken>, holes: nat): (r: SqlParse)
    ensures r.SqlParse? ==> |r.rest| < |ts|
    decreases |ts|, 5
  {
    var left := ParseAnd(ts, holes);
    if left.NoParse? then NoParse else ParseOrTail(left.e, left.rest, left.holes)
  }

  function ParseOrTail(left: SqlExpr, ts: seq<SqlToken>, holes: nat): (r: SqlParse)
    ensures r.SqlParse? ==> |r.rest| <= |ts|
    decreases |ts|, 4
  {
    if ts == [] || ts[0] != KwOr then SqlParse(left, ts, holes)
    else
      var right := ParseAnd(ts[1..], holes);
      if right.NoParse? then NoParse else ParseOrTail(SqlOr(left, right.e), right.rest, right.holes)
  }

  function ParseAnd(ts: seq<SqlToken>, holes: nat): (r: SqlParse)
    ensures r.SqlParse? ==> |r.rest| < |ts|
    decreases |ts|, 3
  {
    var left := ParseNot(ts, holes);
    if left.NoParse? then NoParse else ParseAndTail(left.e, left.rest, left.holes)
  }

  function ParseAndTail(left: SqlExpr, ts: seq<SqlToken>, holes: nat): (r: SqlParse)
    ensures r.SqlParse? ==> |r.rest| <= |ts|
    decreases |ts|, 2
  {
    if ts == [] || ts[0] != KwAnd then SqlParse(left, ts, holes)
    else
      var right := ParseNot(ts[1..], holes);
      if right.NoParse? then NoParse else ParseAndTail(SqlAnd(left, right.e), right.rest, right.holes)
  }

  function ParseNot(ts: seq<SqlToken>, holes: nat): (r: SqlParse)
    ensures r.SqlParse? ==> |r.rest| < |ts|
    decreases |ts|, 1
  {
    if ts == [] then NoParse
    else if ts[0] == KwNot then
      var inner := ParseNot(ts[1..], holes);
      if inner.NoParse? then NoParse else inner.(e := SqlNot(inner.e))
    else if ts[0] == Open then
      var inner := ParseOr(ts[1..], holes);
      if inner.NoParse? || inner.rest == [] || inner.rest[0] != Close then NoParse
      else inner.(rest := inner.rest[1..])
    else if ts[0].Column? then ParsePredicate(ts[0].name, ts[1..], holes)
    else NoParse
  }

  function ParsePredicate(column: string, ts: seq<SqlToken>, holes: nat): (r: SqlParse)
    ensures r.SqlParse? ==> |r.rest| <= |ts|
  {
    if |ts| >= 2 && ts[0].CompareWith? && ts[1] == Hole then
      SqlParse(SqlCompare(column, ts[0].op, holes), ts[2..], holes + 1)
    else if |ts| >= 3 && ts[..3] == [Ilike, Hole, EscapeBackslash] then
      SqlParse(SqlIlike(column, holes), ts[3..], holes + 1)
    else if |ts| >= 4 && ts[..4] == [AsVarchar, Ilike, Hole, EscapeBackslash] then
      SqlParse(SqlIlike(column, holes), ts[4..], holes + 1)
    else if |ts| >= 3 && ts[..3] == [KwIn, Open, Hole] then ParseList(column, holes, ts[3..], holes + 1)
    else NoParse
  }

  function ParseList(column: string, first: nat, ts: seq<SqlToken>, holes: nat): (r: SqlParse)
    requires first <= holes
    ensures r.SqlParse? ==> |r.rest| <= |ts|
  {
    if |ts| >= 1 && ts[0] == Close then SqlParse(SqlIn(column, first, holes - first), ts[1..], holes)
    else if |ts| >= 2 && ts[..2] == [Comma, Hole] then ParseList(column, first, ts[2..], holes + 1)
    else NoParse
  }

  // ---------- The database's evaluation ----------

  function IlikeTruth(cell: Cell, pattern: Value, fold: char -> char): Truth {
    if cell.Null? then Unknown else Decide(pattern.TextValue? && Like(cell.text, pattern.s, fold))
  }

  function Eval(e: SqlExpr, params: seq<Value>, row: Row): Truth {
    match e
    case SqlCompare(column, op, hole) =>
      var cell := CellOf(row, column);
      if cell.Null? || hole >= |params| then Unknown else Decide(Holds(op, cell.value, params[hole]))
    case SqlIn(column, first, count) =>
      var cell := CellOf(row, column);
      if cell.Null? || first + count > |params| then Unknown
      else Decide(exists i :: first <= i < first + count && Equal(cell.value, params[i]))
    case SqlIlike(column, hole) =>
      if hole >= |params| then Unknown else IlikeTruth(CellOf(row, column), params[hole], row.fold)
    case SqlNot(inner) => Not3(Eval(inner, params, row))
    case SqlAnd(left, right) => And3(Eval(left, params, row), Eval(right, params, row))
    case SqlOr(left, right) => Or3(Eval(left, params, row), Eval(right, params, row))
  }

  /**
   The truth of a whole predicate text with its bound parameters on a row; None when it is not a
   predicate with as many `?` as parameters.
   */
  function PredicateTruth(sql: seq<SqlToken>, params: seq<Value>, row: Row): Option<Truth> {
    var p := ParseOr(sql, 0);
    if p.SqlParse? && p.rest == [] && p.holes == |params| then Some(Eval(p.e, params, row)) else None
  }

  // ---------- Folds of truths ----------

  lemma {:induction false} AndFold(left: Truth, truths: seq<Truth>, last: Truth)
    requires truths != [] ==> left == AllOf(truths)
    ensures truths != [] ==> And3(left, last) == AllOf(truths + [last])
    ensures AllOf([last]) == last
  {
  }

  lemma {:induction false} OrFold(left: Truth, truths: seq<Truth>, last: Truth)
    requires truths != [] ==> left == AnyOf(truths)
    ensures truths != [] ==> Or3(left, last) == AnyOf(truths + [last])
    ensures AnyOf([last]) == last
  {
  }
}
