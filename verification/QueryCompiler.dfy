/**
 The compiler from search trees to SQL with bound parameters (app/search/query.py:205-261), and the
 proof that the database reads the emitted text back as the tree, with its own parameters in its holes.
 */
module QueryCompiler {
  import opened QuerySyntax
  import opened QueryAst
  import opened LikePatterns
  import opened Sql

  datatype Compiled = Compiled(sql: seq<SqlToken>, params: seq<Value>)

  // ---------- The compiler ----------

  function ConnectiveToken(connective: Connective): SqlToken {
    if connective == AndOp then KwAnd else KwOr
  }

  function Placeholders(count: nat): seq<SqlToken> {
    if count == 0 then [] else if count == 1 then [Hole] else [Hole, Comma] + Placeholders(count - 1)
  }

  function CompileComparison(node: Node): Compiled
    requires node.Comparison? && WellFormed(node)
  {
    if node.values != [] then
      Compiled([Column(node.column), KwIn, Open] + Placeholders(|node.values|) + [Close], node.values)
    else if node.operator == "~" then
      Compiled([Column(node.column), AsVarchar, Ilike, Hole, EscapeBackslash], [node.value.value])
    else
      Compiled([Column(node.column), CompareWith(SqlOperators()[node.operator]), Hole], [node.value.value])
  }

  function CompileFreeText(text: string): Compiled {
    var pattern := TextValue(ContainsPattern(text));
    Compiled([Open, Column("message"), Ilike, Hole, EscapeBackslash, KwOr,
              Column("raw_message"), Ilike, Hole, EscapeBackslash, Close], [pattern, pattern])
  }

  function Compile(node: Node): Compiled
    requires WellFormed(node)
    decreases node, 1
  {
    match node
    case Comparison(_, _, _, _) => CompileComparison(node)
    case FreeText(text) => CompileFreeText(text)
    case Not(child) => var c := Compile(child); Compiled([KwNot, Open] + c.sql + [Close], c.params)
    case BoolOp(connective, children) => CompileAll(connective, children)
  }

  /** The compiled operands in parentheses, with the connective between them. */
  function CompileAll(connective: Connective, nodes: seq<Node>): Compiled
    requires AllWellFormed(nodes) && nodes != []
    decreases nodes, 0
  {
    var first := Compile(nodes[0]);
    if |nodes| == 1 then Compiled([Open] + first.sql + [Close], first.params)
    else
      var rest := CompileAll(connective, nodes[1..]);
      Compiled([Open] + first.sql + [Close, ConnectiveToken(connective)] + rest.sql, first.params + rest.params)
  }

  // ---------- What the text is read back as ----------

  /** The expression a tree's text is parsed to when its first hole is `n`. */
  function Image(node: Node, n: nat): SqlExpr
    requires WellFormed(node)
    decreases node, 1
  {
    match node
    case Comparison(column, operator, _, values) =>
      if values != [] then SqlIn(column, n, |values|)
      else if operator == "~" then SqlIlike(column, n)
      else SqlCompare(column, SqlOperators()[operator], n)
    case FreeText(_) => SqlOr(SqlIlike("message", n), SqlIlike("raw_message", n + 1))
    case Not(child) => SqlNot(Image(child, n))
    case BoolOp(connective, children) =>
      assert AllWellFormed(children);
      ImageTail(connective, Image(children[0], n), children[1..], n + |Compile(children[0]).params|)
  }

  function Join(connective: Connective, left: SqlExpr, right: SqlExpr): SqlExpr {
    if connective == AndOp then SqlAnd(left, right) else SqlOr(left, right)
  }

  function ImageTail(connective: Connective, left: SqlExpr, nodes: seq<Node>, n: nat): SqlExpr
    requires AllWellFormed(nodes)
    decreases nodes, 0
  {
    if nodes == [] then left
    else ImageTail(connective, Join(connective, left, Image(nodes[0], n)), nodes[1..], n + |Compile(nodes[0]).params|)
  }

  // ---------- Reading leaves ----------

  predicate EndsPredicate(rest: seq<SqlToken>) {
    rest == [] || rest[0] !in {KwAnd, KwOr}
  }

  lemma {:induction false} PlaceholdersParse(column: string, first: nat, count: nat, rest: seq<SqlToken>, n: nat)
    requires count >= 1 && first <= n
    ensures ParseList(column, first, Placeholders(count)[1..] + [Close] + rest, n + 1)
         == SqlParse(SqlIn(column, first, n + count - first), rest, n + count)
    decreases count
  {
    var ts := Placeholders(count)[1..] + [Close] + rest;
    if count == 1 {
      assert ts == [Close] + rest;
    } else {
      var tail := Placeholders(count - 1);
      assert tail[0] == Hole;
      assert ts == [Comma, Hole] + (tail[1..] + [Close] + rest);
      assert ts[2..] == tail[1..] + [Close] + rest;
      PlaceholdersParse(column, first, count - 1, rest, n + 1);
    }
  }

  lemma ListStarts(column: string, tail: seq<SqlToken>, n: nat)
    ensures ParseNot([Column(column), KwIn, Open, Hole] + tail, n) == ParseList(column, n, tail, n + 1)
  {
    hide ParseList;
    var after := [KwIn, Open, Hole] + tail;
    assert ([Column(column), KwIn, Open, Hole] + tail)[1..] == after;
    assert after[3..] == tail && after[..3] == [KwIn, Open, Hole];
  }

  lemma ListParses(column: string, count: nat, rest: seq<SqlToken>, n: nat)
    requires count >= 1
    ensures ParseNot([Column(column), KwIn, Open] + Placeholders(count) + [Close] + rest, n)
         == SqlParse(SqlIn(column, n, count), rest, n + count)
  {
    hide ParseNot, ParseList;
    var tail := Placeholders(count)[1..] + [Close] + rest;
    assert Placeholders(count) == [Hole] + Placeholders(count)[1..];
    hide Placeholders;
    assert [Column(column), KwIn, Open] + Placeholders(count) + [Close] + rest
        == [Column(column), KwIn, Open, Hole] + tail;
    ListStarts(column, tail, n);
    PlaceholdersParse(column, n, count, rest, n);
  }

  lemma PatternParses(column: string, rest: seq<SqlToken>, n: nat)
    ensures ParseNot([Column(column), AsVarchar, Ilike, Hole, EscapeBackslash] + rest, n)
            == SqlParse(SqlIlike(column, n), rest, n + 1)
  {
    var like := [AsVarchar, Ilike, Hole, EscapeBackslash];
    var ts := [Column(column)] + (like + rest);
    assert [Column(column), AsVarchar, Ilike, Hole, EscapeBackslash] + rest == ts;
    assert ts[1..] == like + rest && (like + rest)[..4] == like && (like + rest)[4..] == rest;
  }

  lemma CompareParses(column: string, op: SqlCmp, rest: seq<SqlToken>, n: nat)
    ensures ParseNot([Column(column), CompareWith(op), Hole] + rest, n)
            == SqlParse(SqlCompare(column, op, n), rest, n + 1)
  {
    var ts := [Column(column)] + ([CompareWith(op), Hole] + rest);
    assert [Column(column), CompareWith(op), Hole] + rest == ts;
    assert ts[1..] == [CompareWith(op), Hole] + rest && ts[1..][2..] == rest;
  }

  lemma ComparisonParses(node: Node, rest: seq<SqlToken>, n: nat)
    requires node.Comparison? && WellFormed(node)
    ensures ParseNot(CompileComparison(node).sql + rest, n)
            == SqlParse(Image(node, n), rest, n + |CompileComparison(node).params|)
  {
    if node.values != [] {
      ListParses(node.column, |node.values|, rest, n);
    } else if node.operator == "~" {
      PatternParses(node.column, rest, n);
    } else {
      CompareParses(node.column, SqlOperators()[node.operator], rest, n);
    }
  }

  lemma IlikeParses(column: string, rest: seq<SqlToken>, n: nat)
    ensures ParseNot([Column(column), Ilike, Hole, EscapeBackslash] + rest, n)
            == SqlParse(SqlIlike(column, n), rest, n + 1)
  {
    var like := [Ilike, Hole, EscapeBackslash];
    var ts := [Column(column)] + (like + rest);
    assert [Column(column), Ilike, Hole, EscapeBackslash] + rest == ts;
    assert ts[1..] == like + rest && (like + rest)[..3] == like && (like + rest)[3..] == rest;
  }

  lemma FreeTextParses(text: string, rest: seq<SqlToken>, n: nat)
    ensures ParseNot(CompileFreeText(text).sql + rest, n)
         == SqlParse(SqlOr(SqlIlike("message", n), SqlIlike("raw_message", n + 1)), rest, n + 2)
  {
    var message := [Column("message"), Ilike, Hole, EscapeBackslash];
    var raw := [Column("raw_message"), Ilike, Hole, EscapeBackslash];
    var inner := message + ([KwOr] + raw);
    assert CompileFreeText(text).sql + rest == [Open] + inner + [Close] + rest;
    assert inner + ([Close] + rest) == message + ([KwOr] + (raw + ([Close] + rest)));
    IlikeParses("message", [KwOr] + (raw + ([Close] + rest)), n);
    IlikeParses("raw_message", [Close] + rest, n + 1);
    TwoOperandsParse(message, raw, SqlIlike("message", n), SqlIlike("raw_message", n + 1), [Close] + rest, n);
    GroupParses(inner, SqlOr(SqlIlike("message", n), SqlIlike("raw_message", n + 1)), rest, n, n + 2);
  }

  lemma TwoOperandsParse(a: seq<SqlToken>, b: seq<SqlToken>, left: SqlExpr, right: SqlExpr, rest: seq<SqlToken>, n: nat)
    requires ParseNot(a + ([KwOr] + (b + rest)), n) == SqlParse(left, [KwOr] + (b + rest), n + 1)
    requires ParseNot(b + rest, n + 1) == SqlParse(right, rest, n + 2) && EndsPredicate(rest)
    ensures ParseOr(a + ([KwOr] + (b + rest)), n) == SqlParse(SqlOr(left, right), rest, n + 2)
  {
    var after := [KwOr] + (b + rest);
    assert after[1..] == b + rest;
    OrStarts(a + after, left, after, n, n + 1);
    AndEnds(b + rest, right, rest, n + 1, n + 2);
    assert ParseOrTail(SqlOr(left, right), rest, n + 2) == SqlParse(SqlOr(left, right), rest, n + 2);
  }

  // ---------- Reading trees ----------

  /** A parenthesised predicate is read whole, whatever follows it. */
  lemma GroupParses(inner: seq<SqlToken>, e: SqlExpr, rest: seq<SqlToken>, n: nat, m: nat)
    requires ParseOr(inner + ([Close] + rest), n) == SqlParse(e, [Close] + rest, m)
    ensures ParseNot([Open] + inner + [Close] + rest, n) == SqlParse(e, rest, m)
  {
    var ts := [Open] + inner + [Close] + rest;
    assert ts[1..] == inner + ([Close] + rest);
    assert ([Close] + rest)[1..] == rest;
  }

  lemma NotParses(inner: seq<SqlToken>, e: SqlExpr, rest: seq<SqlToken>, n: nat, m: nat)
    requires ParseNot(inner + rest, n) == SqlParse(e, rest, m)
    ensures ParseNot([KwNot] + inner + rest, n) == SqlParse(SqlNot(e), rest, m)
  {
    assert ([KwNot] + inner + rest)[1..] == inner + rest;
  }

  lemma OperandIsPredicate(ts: seq<SqlToken>, e: SqlExpr, rest: seq<SqlToken>, n: nat, m: nat)
    requires ParseNot(ts, n) == SqlParse(e, rest, m) && EndsPredicate(rest)
    ensures ParseOr(ts, n) == SqlParse(e, rest, m)
  {
    AndEnds(ts, e, rest, n, m);
  }

  /** An operand that no AND follows is a whole conjunction. */
  lemma AndEnds(ts: seq<SqlToken>, e: SqlExpr, after: seq<SqlToken>, n: nat, m: nat)
    requires ParseNot(ts, n) == SqlParse(e, after, m)
    requires after == [] || after[0] != KwAnd
    ensures ParseAnd(ts, n) == SqlParse(e, after, m)
  {
    assert ParseAndTail(e, after, m) == SqlParse(e, after, m);
  }

  /** The text of a tree is read back as the tree, at any place where a predicate may end. */
  lemma {:induction false} CompiledParses(node: Node, rest: seq<SqlToken>, n: nat)
    requires WellFormed(node) && EndsPredicate(rest)
    ensures ParseOr(Compile(node).sql + rest, n) == SqlParse(Image(node, n), rest, n + |Compile(node).params|)
    decreases node, 2
  {
    match node {
      case Comparison(_, _, _, _) => LeafParses(node, rest, n);
      case FreeText(_) => LeafParses(node, rest, n);
      case Not(child) => NegationParses(child, rest, n);
      case BoolOp(connective, children) => BoolOpParses(connective, children, rest, n);
    }
  }

  lemma LeafParses(node: Node, rest: seq<SqlToken>, n: nat)
    requires WellFormed(node) && EndsPredicate(rest) && (node.Comparison? || node.FreeText?)
    ensures ParseOr(Compile(node).sql + rest, n) == SqlParse(Image(node, n), rest, n + |Compile(node).params|)
  {
    if node.Comparison? { ComparisonParses(node, rest, n); } else { FreeTextParses(node.text, rest, n); }
    OperandIsPredicate(Compile(node).sql + rest, Image(node, n), rest, n, n + |Compile(node).params|);
  }

  lemma {:induction false} NegationParses(child: Node, rest: seq<SqlToken>, n: nat)
    requires WellFormed(child) && EndsPredicate(rest)
    ensures ParseOr([KwNot, Open] + Compile(child).sql + [Close] + rest, n)
         == SqlParse(SqlNot(Image(child, n)), rest, n + |Compile(child).params|)
    decreases child, 4
  {
    var group := [Open] + Compile(child).sql + [Close];
    var m := n + |Compile(child).params|;
    OperandParses(child, rest, n);
    NotParses(group, Image(child, n), rest, n, m);
    assert [KwNot, Open] + Compile(child).sql + [Close] + rest == [KwNot] + group + rest;
    OperandIsPredicate([KwNot] + group + rest, SqlNot(Image(child, n)), rest, n, m);
  }

  lemma {:induction false} OperandParses(node: Node, rest: seq<SqlToken>, n: nat)
    requires WellFormed(node)
    ensures ParseNot([Open] + Compile(node).sql + [Close] + rest, n)
         == SqlParse(Image(node, n), rest, n + |Compile(node).params|)
    decreases node, 3
  {
    CompiledParses(node, [Close] + rest, n);
    GroupParses(Compile(node).sql, Image(node, n), rest, n, n + |Compile(node).params|);
  }

  /** The operands after the first, each with the connective in front. */
  function Rest(connective: Connective, nodes: seq<Node>): seq<SqlToken>
    requires AllWellFormed(nodes)
  {
    if nodes == [] then [] else [ConnectiveToken(connective)] + CompileAll(connective, nodes).sql
  }

  function ParseTail(connective: Connective, left: SqlExpr, ts: seq<SqlToken>, n: nat): SqlParse {
    if connective == AndOp then ParseAndTail(left, ts, n) else ParseOrTail(left, ts, n)
  }

  /** How many parameters several operands bind. */
  function Bound(connective: Connective, nodes: seq<Node>): nat
    requires AllWellFormed(nodes)
  {
    if nodes == [] then 0 else |CompileAll(connective, nodes).params|
  }

  lemma {:induction false} TailParses(
      connective: Connective, left: SqlExpr, nodes: seq<Node>, rest: seq<SqlToken>, n: nat)
    requires AllWellFormed(nodes) && EndsPredicate(rest)
    ensures ParseTail(connective, left, Rest(connective, nodes) + rest, n)
         == SqlParse(ImageTail(connective, left, nodes, n), rest, n + Bound(connective, nodes))
    decreases nodes, 1
  {
    hide ParseTail, Join, Image, Compile, WellFormed, EndsPredicate, Rest;
    if nodes == [] {
      TailEnds(connective, left, rest, n);
    } else {
      var m := n + |Compile(nodes[0]).params|;
      TailAdvances(connective, left, nodes, rest, n);
      TailParses(connective, Join(connective, left, Image(nodes[0], n)), nodes[1..], rest, m);
      FirstOperand(connective, nodes, rest);
    }
  }

  lemma TailEnds(connective: Connective, left: SqlExpr, rest: seq<SqlToken>, n: nat)
    requires EndsPredicate(rest)
    ensures ParseTail(connective, left, Rest(connective, []) + rest, n) == SqlParse(left, rest, n)
  {
    assert Rest(connective, []) + rest == rest;
  }

  lemma {:induction false} TailAdvances(connective: Connective, left: SqlExpr, nodes: seq<Node>,
        rest: seq<SqlToken>, n: nat)
    requires AllWellFormed(nodes) && nodes != [] && EndsPredicate(rest)
    ensures ParseTail(connective, left, Rest(connective, nodes) + rest, n)
         == ParseTail(connective, Join(connective, left, Image(nodes[0], n)), Rest(connective, nodes[1..]) + rest,
                      n + |Compile(nodes[0]).params|)
    decreases nodes, 0
  {
    hide ParseTail, Join, Image, Compile;
    var after := Rest(connective, nodes[1..]) + rest;
    OperandParses(nodes[0], after, n);
    TailIsFirstAndTail(connective, nodes, rest);
    TailStep(connective, left, Image(nodes[0], n), [Open] + Compile(nodes[0]).sql + [Close] + after, after, n,
        n + |Compile(nodes[0]).params|);
  }

  lemma TailIsFirstAndTail(connective: Connective, nodes: seq<Node>, rest: seq<SqlToken>)
    requires AllWellFormed(nodes) && nodes != []
    ensures Rest(connective, nodes) + rest
         == [ConnectiveToken(connective)]
            + ([Open] + Compile(nodes[0]).sql + [Close] + (Rest(connective, nodes[1..]) + rest))
  {
    FirstOperand(connective, nodes, rest);
    assert Rest(connective, nodes) + rest == [ConnectiveToken(connective)] + (CompileAll(connective, nodes).sql + rest);
  }

  lemma FirstOperand(connective: Connective, nodes: seq<Node>, rest: seq<SqlToken>)
    requires AllWellFormed(nodes) && nodes != []
    ensures CompileAll(connective, nodes).sql + rest
         == [Open] + Compile(nodes[0]).sql + [Close] + (Rest(connective, nodes[1..]) + rest)
    ensures Bound(connective, nodes) == |Compile(nodes[0]).params| + Bound(connective, nodes[1..])
  {
    hide Compile, WellFormed;
    var first, others := Compile(nodes[0]).sql, nodes[1..];
    if others == [] {
      assert Rest(connective, others) + rest == rest;
    } else {
      Reassociate(first, ConnectiveToken(connective), CompileAll(connective, others).sql, rest);
    }
  }

  lemma Reassociate(first: seq<SqlToken>, token: SqlToken, others: seq<SqlToken>, rest: seq<SqlToken>)
    ensures ([Open] + first + [Close, token] + others) + rest == [Open] + first + [Close] + (([token] + others) + rest)
  {
  }

  lemma TailStep(connective: Connective, left: SqlExpr, right: SqlExpr, operand: seq<SqlToken>,
        after: seq<SqlToken>, n: nat, m: nat)
    requires ParseNot(operand, n) == SqlParse(right, after, m)
    requires connective == OrOp ==> after == [] || after[0] != KwAnd
    ensures ParseTail(connective, left, [ConnectiveToken(connective)] + operand, n)
            == ParseTail(connective, Join(connective, left, right), after, m)
  {
    assert ([ConnectiveToken(connective)] + operand)[1..] == operand;
    if connective == OrOp { AndEnds(operand, right, after, n, m); }
  }

  lemma {:induction false} BoolOpParses(connective: Connective, children: seq<Node>, rest: seq<SqlToken>, n: nat)
    requires AllWellFormed(children) && children != [] && EndsPredicate(rest)
    ensures ParseOr(CompileAll(connective, children).sql + rest, n)
         == SqlParse(ImageTail(connective, Image(children[0], n), children[1..], n + |Compile(children[0]).params|),
                     rest, n + |CompileAll(connective, children).params|)
    decreases children, 1
  {
    hide ParseOr, ParseTail, ParseNot, Image, ImageTail, EndsPredicate, Compile, WellFormed, Rest;
    var after := Rest(connective, children[1..]) + rest;
    var m := n + |Compile(children[0]).params|;
    OperandParses(children[0], after, n);
    TailParses(connective, Image(children[0], n), children[1..], rest, m);
    RestOpens(connective, children[1..], rest);
    Starts(connective, [Open] + Compile(children[0]).sql + [Close] + after, Image(children[0], n), after, n, m);
    FirstOperand(connective, children, rest);
    assert m + Bound(connective, children[1..]) == n + Bound(connective, children);
  }

  lemma RestOpens(connective: Connective, nodes: seq<Node>, rest: seq<SqlToken>)
    requires AllWellFormed(nodes) && EndsPredicate(rest)
    ensures var after := Rest(connective, nodes) + rest; after == [] || connective == AndOp || after[0] != KwAnd
  {
  }

  lemma Starts(connective: Connective, ts: seq<SqlToken>, left: SqlExpr, after: seq<SqlToken>, n: nat, m: nat)
    requires ParseNot(ts, n) == SqlParse(left, after, m)
    requires connective == OrOp ==> after == [] || after[0] != KwAnd
    requires var tail := ParseTail(connective, left, after, m); tail.SqlParse? && EndsPredicate(tail.rest)
    ensures ParseOr(ts, n) == ParseTail(connective, left, after, m)
  {
    if connective == AndOp { AndStarts(ts, left, after, n, m); } else { OrStarts(ts, left, after, n, m); }
  }

  lemma AndStarts(ts: seq<SqlToken>, left: SqlExpr, after: seq<SqlToken>, n: nat, m: nat)
    requires ParseNot(ts, n) == SqlParse(left, after, m)
    requires var p := ParseAndTail(left, after, m); p.SqlParse? && EndsPredicate(p.rest)
    ensures ParseOr(ts, n) == ParseAndTail(left, after, m)
  {
  }

  lemma OrStarts(ts: seq<SqlToken>, left: SqlExpr, after: seq<SqlToken>, n: nat, m: nat)
    requires ParseNot(ts, n) == SqlParse(left, after, m)
    requires after == [] || after[0] != KwAnd
    ensures ParseOr(ts, n) == ParseOrTail(left, after, m)
  {
    AndEnds(ts, left, after, n, m);
  }

  // ---------- Bounded, closed and value-blind compilation ----------

  /** Every accepted tree binds at most 50 parameters for each node the parser counted. */
  lemma {:induction false} ParametersBounded(node: Node)
    requires WellFormed(node)
    ensures |Compile(node).params| <= 50 * CountNodes(node)
    decreases node, 1
  {
    match node {
      case Comparison(_, _, _, _) =>
      case FreeText(_) =>
      case Not(child) => ParametersBounded(child);
      case BoolOp(connective, children) => AllParametersBounded(connective, children);
    }
  }

  lemma {:induction false} AllParametersBounded(connective: Connective, nodes: seq<Node>)
    requires AllWellFormed(nodes) && nodes != []
    ensures |CompileAll(connective, nodes).params| <= 50 * CountAll(nodes)
    decreases nodes, 0
  {
    ParametersBounded(nodes[0]);
    if |nodes| > 1 {
      AllParametersBounded(connective, nodes[1..]);
    } else {
      assert nodes[1..] == [];
    }
  }

  /** The closed vocabulary: keywords, operators, holes, sort directions and allow-listed column names. */
  predicate InVocabulary(t: SqlToken) {
    match t
    case Column(name) => name in QueryableColumns()
    case Sort(direction) => direction in {"ASC", "DESC"}
    case _ => true
  }

  predicate Closed(sql: seq<SqlToken>) {
    forall i :: 0 <= i < |sql| ==> InVocabulary(sql[i])
  }

  lemma {:induction false} PlaceholdersClosed(count: nat)
    ensures Closed(Placeholders(count))
  {
    if count > 1 { PlaceholdersClosed(count - 1); }
  }

  /** No text of the user's reaches the SQL: it is made of the closed vocabulary alone. */
  lemma {:induction false} CompiledIsClosed(node: Node)
    requires WellFormed(node)
    ensures Closed(Compile(node).sql)
    decreases node, 1
  {
    match node {
      case Comparison(_, _, _, values) => PlaceholdersClosed(|values|);
      case FreeText(_) =>
      case Not(child) => CompiledIsClosed(child);
      case BoolOp(connective, children) => AllClosed(connective, children);
    }
  }

  lemma {:induction false} AllClosed(connective: Connective, nodes: seq<Node>)
    requires AllWellFormed(nodes) && nodes != []
    ensures Closed(CompileAll(connective, nodes).sql)
    decreases nodes, 0
  {
    CompiledIsClosed(nodes[0]);
    if |nodes| > 1 { AllClosed(connective, nodes[1..]); }
  }

  /** Two trees that differ at most in the values they bind. */
  predicate SameShape(a: Node, b: Node)
    decreases a, 1
  {
    match a
    case Comparison(column, operator, _, values) =>
      b.Comparison? && b.column == column && b.operator == operator && |b.values| == |values|
    case FreeText(_) => b.FreeText?
    case Not(child) => b.Not? && SameShape(child, b.child)
    case BoolOp(connective, children) =>
      b.BoolOp? && b.connective == connective && AllSameShape(children, b.children)
  }

  predicate AllSameShape(a: seq<Node>, b: seq<Node>)
    decreases a, 0
  {
    |a| == |b| && (a == [] || (SameShape(a[0], b[0]) && AllSameShape(a[1..], b[1..])))
  }

  /** Trees that differ only in bound values compile to the same SQL text. */
  lemma {:induction false} CompilationIsValueBlind(a: Node, b: Node)
    requires WellFormed(a) && WellFormed(b) && SameShape(a, b)
    ensures Compile(a).sql == Compile(b).sql
    decreases a, 1
  {
    match a {
      case Comparison(_, _, _, _) =>
      case FreeText(_) =>
      case Not(child) => CompilationIsValueBlind(child, b.child);
      case BoolOp(connective, children) => AllValueBlind(connective, children, b.children);
    }
  }

  lemma {:induction false} AllValueBlind(connective: Connective, a: seq<Node>, b: seq<Node>)
    requires AllWellFormed(a) && AllWellFormed(b) && AllSameShape(a, b) && a != []
    ensures CompileAll(connective, a).sql == CompileAll(connective, b).sql
    decreases a, 0
  {
    CompilationIsValueBlind(a[0], b[0]);
    if |a| > 1 { AllValueBlind(connective, a[1..], b[1..]); }
  }
}
