/**
 The recursive-descent parser (app/search/query.py:267-378): the grammar as functions from the
 remaining tokens, the parser object proved to compute them, and what every accepted query satisfies.
 */
module QueryParser {
  import opened Options
  import opened QuerySyntax
  import opened QueryAst

  /** A parse that succeeded: its value, the tokens left and the nodes counted so far. */
  datatype Parsed<+T> = Parsed(value: T, rest: seq<Lexeme>, nodes: nat)

  predicate IsKeyword(ts: seq<Lexeme>, keyword: Keyword) {
    ts != [] && ts[0].kind == WordKind && ts[0].keyword == keyword
  }

  predicate IsText(kind: Kind) {
    kind == WordKind || kind == QuotedKind
  }

  // ---------- The grammar ----------

  function OrExpr(co: Conversions, ts: seq<Lexeme>, nodes: nat, depth: nat): (r: Result<Parsed<Node>>)
    ensures r.Ok? ==> |r.value.rest| < |ts|
    decreases |ts|, 4
  {
    if depth > MAX_DEPTH then Err(TooDeep)
    else match AndExpr(co, ts, nodes, depth)
      case Err(e) => Err(e)
      case Ok(p) => OrTail(co, [p.value], p.rest, p.nodes, depth)
  }

  function OrTail(
      co: Conversions, operands: seq<Node>, ts: seq<Lexeme>, nodes: nat, depth: nat): (r: Result<Parsed<Node>>)
    requires operands != []
    ensures r.Ok? ==> |r.value.rest| <= |ts|
    decreases |ts|, 3
  {
    if !IsKeyword(ts, KeyOr) then Ok(Parsed(Operands(OrOp, operands), ts, nodes))
    else match AndExpr(co, ts[1..], nodes, depth)
      case Err(e) => Err(e)
      case Ok(p) => OrTail(co, operands + [p.value], p.rest, p.nodes, depth)
  }

  function Operands(connective: Connective, operands: seq<Node>): Node
    requires operands != []
  {
    if |operands| == 1 then operands[0] else BoolOp(connective, operands)
  }

  function AndExpr(co: Conversions, ts: seq<Lexeme>, nodes: nat, depth: nat): (r: Result<Parsed<Node>>)
    ensures r.Ok? ==> |r.value.rest| < |ts|
    decreases |ts|, 3
  {
    match Term(co, ts, nodes, depth)
    case Err(e) => Err(e)
    case Ok(p) => AndTail(co, [p.value], p.rest, p.nodes, depth)
  }

  predicate EndsAnd(ts: seq<Lexeme>) {
    ts == [] || ts[0].kind == RightParen || IsKeyword(ts, KeyOr)
  }

  function AndTail(
      co: Conversions, operands: seq<Node>, ts: seq<Lexeme>, nodes: nat, depth: nat): (r: Result<Parsed<Node>>)
    requires operands != []
    ensures r.Ok? ==> |r.value.rest| <= |ts|
    decreases |ts|, 2
  {
    if EndsAnd(ts) then Ok(Parsed(Operands(AndOp, operands), ts, nodes))
    else match Term(co, if IsKeyword(ts, KeyAnd) then ts[1..] else ts, nodes, depth)
      case Err(e) => Err(e)
      case Ok(p) => AndTail(co, operands + [p.value], p.rest, p.nodes, depth)
  }

  function Term(co: Conversions, ts: seq<Lexeme>, nodes: nat, depth: nat): (r: Result<Parsed<Node>>)
    ensures r.Ok? ==> |r.value.rest| < |ts|
    decreases |ts|, 1
  {
    if IsKeyword(ts, KeyNot) then
      if nodes + 1 > MAX_NODES then Err(TooComplex)
      else match Term(co, ts[1..], nodes + 1, depth)
        case Err(e) => Err(e)
        case Ok(p) => Ok(Parsed(Not(p.value), p.rest, p.nodes))
    else if ts == [] then Err(UnexpectedEnd)
    else if ts[0].kind == LeftParen then
      match OrExpr(co, ts[1..], nodes, depth + 1)
      case Err(e) => Err(e)
      case Ok(p) =>
        if p.rest == [] || p.rest[0].kind != RightParen then Err(Unbalanced)
        else Ok(Parsed(p.value, p.rest[1..], p.nodes))
    else Leaf(co, ts, nodes)
  }

  function Leaf(co: Conversions, ts: seq<Lexeme>, nodes: nat): (r: Result<Parsed<Node>>)
    requires ts != []
    ensures r.Ok? ==> |r.value.rest| < |ts|
  {
    if nodes + 1 > MAX_NODES then Err(TooComplex)
    else if |ts| == 1 || ts[1].kind != OpKind then
      if !IsText(ts[0].kind) then Err(UnexpectedToken)
      else if |ts[0].value| > MAX_VALUE_LENGTH then Err(ValueTooLong)
      else Ok(Parsed(FreeText(ts[0].value), ts[1..], nodes + 1))
    else match ResolveColumn(ts[0].value)
      case Err(e) => Err(e)
      case Ok(column) =>
        match Values([], ts[2..])
        case Err(e) => Err(e)
        case Ok(p) =>
          match BuildComparison(co, column, ts[1].value, p.value)
          case Err(e) => Err(e)
          case Ok(node) => Ok(Parsed(node, p.rest, nodes + 1))
  }

  function Values(values: seq<string>, ts: seq<Lexeme>): (r: Result<Parsed<seq<string>>>)
    ensures r.Ok? ==> |r.value.rest| < |ts| && |values| < |r.value.value| <= MAX_IN_VALUES
    decreases |ts|
  {
    if ts == [] || !IsText(ts[0].kind) then Err(MissingValue)
    else if |ts[0].value| > MAX_VALUE_LENGTH then Err(ValueTooLong)
    else if |values| + 1 > MAX_IN_VALUES then Err(TooManyValues)
    else if |ts| > 1 && ts[1].kind == CommaKind then Values(values + [ts[0].value], ts[2..])
    else Ok(Parsed(values + [ts[0].value], ts[1..], 0))
  }

  function ParseQuery(co: Conversions, ts: seq<Lexeme>): Result<Option<Node>> {
    if ts == [] then Ok(None)
    else match OrExpr(co, ts, 0, 0)
      case Err(e) => Err(e)
      case Ok(p) => if p.rest == [] then Ok(Some(p.value)) else Err(UnexpectedToken)
  }

  // ---------- The parser object ----------

  /** A call returned what the grammar says and left the parser where the grammar says. */
  predicate Agrees<T(==)>(r: Result<T>, spec: Result<Parsed<T>>, rest: seq<Lexeme>, nodes: nat) {
    match spec
    case Err(e) => r == Err(e)
    case Ok(p) => r == Ok(p.value) && rest == p.rest && nodes == p.nodes
  }

  // ---------- The loops, one operand at a time ----------

  /** The OR loop after one more operand was read. */
  function ResumeOr(co: Conversions, operands: seq<Node>, operand: Result<Parsed<Node>>, depth: nat)
    : Result<Parsed<Node>>
  {
    match operand
    case Err(e) => Err(e)
    case Ok(p) => OrTail(co, operands + [p.value], p.rest, p.nodes, depth)
  }

  /** The AND loop after one more operand was read. */
  function ResumeAnd(co: Conversions, operands: seq<Node>, operand: Result<Parsed<Node>>, depth: nat)
    : Result<Parsed<Node>>
  {
    match operand
    case Err(e) => Err(e)
    case Ok(p) => AndTail(co, operands + [p.value], p.rest, p.nodes, depth)
  }

  lemma OrUnfolds(co: Conversions, ts: seq<Lexeme>, nodes: nat, depth: nat)
    ensures OrExpr(co, ts, nodes, depth)
         == if depth > MAX_DEPTH then Err(TooDeep) else ResumeOr(co, [], AndExpr(co, ts, nodes, depth), depth)
  {
    hide AndExpr, OrTail;
    var first := AndExpr(co, ts, nodes, depth);
    if first.Ok? { assert [] + [first.value.value] == [first.value.value]; }
  }

  lemma OrTailUnfolds(co: Conversions, operands: seq<Node>, ts: seq<Lexeme>, nodes: nat, depth: nat)
    requires operands != []
    ensures OrTail(co, operands, ts, nodes, depth)
         == if !IsKeyword(ts, KeyOr) then Ok(Parsed(Operands(OrOp, operands), ts, nodes))
            else ResumeOr(co, operands, AndExpr(co, ts[1..], nodes, depth), depth)
  {
    hide AndExpr;
  }

  lemma AndUnfolds(co: Conversions, ts: seq<Lexeme>, nodes: nat, depth: nat)
    ensures AndExpr(co, ts, nodes, depth) == ResumeAnd(co, [], Term(co, ts, nodes, depth), depth)
  {
    hide Term, AndTail;
    var first := Term(co, ts, nodes, depth);
    if first.Ok? { assert [] + [first.value.value] == [first.value.value]; }
  }

  lemma AndTailUnfolds(co: Conversions, operands: seq<Node>, ts: seq<Lexeme>, nodes: nat, depth: nat)
    requires operands != []
    ensures AndTail(co, operands, ts, nodes, depth)
         == if EndsAnd(ts) then Ok(Parsed(Operands(AndOp, operands), ts, nodes))
            else ResumeAnd(co, operands, Term(co, if IsKeyword(ts, KeyAnd) then ts[1..] else ts, nodes, depth), depth)
  {
    hide Term;
  }

  class Parser {
    const co: Conversions
    const tokens: seq<Token>
    var index: nat
    var nodes: nat

    constructor (co: Conversions, tokens: seq<Token>)
      ensures this.co == co && this.tokens == tokens && Valid()
      ensures Rest() == Lexemes(tokens) && nodes == 0
    {
      this.co, this.tokens, index, nodes := co, tokens, 0, 0;
    }

    ghost predicate Valid()
      reads this
    {
      index <= |tokens|
    }

    /** The lexemes not consumed yet. */
    ghost function Rest(): seq<Lexeme>
      reads this
      requires Valid()
    {
      Lexemes(tokens)[index..]
    }

    method Peek() returns (token: Option<Token>)
      requires Valid()
      ensures Rest() == [] ==> token == None
      ensures Rest() != [] ==> token.Some? && Rest()[0] == Lex(token.value.kind, token.value.value)
    {
      token := if index < |tokens| then Some(tokens[index]) else None;
    }

    method Next() returns (token: Option<Token>)
      requires Valid()
      modifies this`index
      ensures Valid()
      ensures old(Rest()) == [] ==> token == None && Rest() == []
      ensures old(Rest()) != [] ==> token.Some? && old(Rest())[0] == Lex(token.value.kind, token.value.value)
      ensures old(Rest()) != [] ==> Rest() == old(Rest())[1..]
    {
      token := Peek();
      if token.Some? { index := index + 1; }
    }

    method AtKeyword(keyword: string) returns (b: bool)
      requires Valid()
      ensures b == (Rest() != [] && Rest()[0].kind == WordKind && Upper(Rest()[0].value) == keyword)
      ensures keyword == "OR" ==> b == IsKeyword(Rest(), KeyOr)
      ensures keyword == "AND" ==> b == IsKeyword(Rest(), KeyAnd)
    {
      var token := Peek();
      b := token.Some? && token.value.kind == WordKind && Upper(token.value.value) == keyword;
    }

    method CountNode() returns (ok: bool)
      modifies this`nodes
      ensures nodes == old(nodes) + 1 && ok == (nodes <= MAX_NODES)
    {
      nodes := nodes + 1;
      ok := nodes <= MAX_NODES;
    }

    method Parse() returns (r: Result<Option<Node>>)
      requires Valid() && index == 0 && nodes == 0
      modifies this
      ensures r == ParseQuery(co, Lexemes(tokens))
    {
      if tokens == [] { return Ok(None); }
      var parsed := ParseOr(0);
      if parsed.Err? { return Err(parsed.error); }
      var remaining := Peek();
      if remaining.Some? { return Err(UnexpectedToken); }
      return Ok(Some(parsed.value));
    }

    method ParseOr(depth: nat) returns (r: Result<Node>)
      requires Valid()
      modifies this
      ensures Valid() && Agrees(r, old(OrExpr(co, Rest(), nodes, depth)), Rest(), nodes)
      decreases |tokens| - index, 4
    {
      hide OrExpr, OrTail, AndExpr, KeywordOf, Upper;
      OrUnfolds(co, Rest(), nodes, depth);
      if depth > MAX_DEPTH { return Err(TooDeep); }
      r := ParseAnd(depth);
      if r.Err? { return; }
      var operands := [r.value];
      assert [] + [r.value] == operands;
      var more := AtKeyword("OR");
      while more
        invariant Valid() && operands != [] && more == IsKeyword(Rest(), KeyOr)
        invariant old(OrExpr(co, Rest(), nodes, depth)) == OrTail(co, operands, Rest(), nodes, depth)
        invariant |Rest()| < old(|Rest()|)
        decreases |tokens| - index
      {
        OrTailUnfolds(co, operands, Rest(), nodes, depth);
        var _ := Next();
        r := ParseAnd(depth);
        if r.Err? { return; }
        operands := operands + [r.value];
        more := AtKeyword("OR");
      }
      OrTailUnfolds(co, operands, Rest(), nodes, depth);
      return Ok(if |operands| == 1 then operands[0] else BoolOp(OrOp, operands));
    }

    method ParseAnd(depth: nat) returns (r: Result<Node>)
      requires Valid()
      modifies this
      ensures Valid() && Agrees(r, old(AndExpr(co, Rest(), nodes, depth)), Rest(), nodes)
      decreases |tokens| - index, 3
    {
      hide AndExpr, AndTail, Term, KeywordOf, Upper;
      AndUnfolds(co, Rest(), nodes, depth);
      r := ParseTerm(depth);
      if r.Err? { return; }
      var operands := [r.value];
      assert [] + [r.value] == operands;
      while true
        invariant Valid() && operands != []
        invariant old(AndExpr(co, Rest(), nodes, depth)) == AndTail(co, operands, Rest(), nodes, depth)
        invariant |Rest()| < old(|Rest()|)
        decreases |tokens| - index
      {
        AndTailUnfolds(co, operands, Rest(), nodes, depth);
        var token := Peek();
        if token.None? || token.value.kind == RightParen { break; }
        var atOr := AtKeyword("OR");
        if atOr { break; }
        var atAnd := AtKeyword("AND");
        if atAnd { var _ := Next(); }
        r := ParseTerm(depth);
        if r.Err? { return; }
        operands := operands + [r.value];
      }
      return Ok(if |operands| == 1 then operands[0] else BoolOp(AndOp, operands));
    }

    method ParseTerm(depth: nat) returns (r: Result<Node>)
      requires Valid()
      modifies this
      ensures Valid() && Agrees(r, old(Term(co, Rest(), nodes, depth)), Rest(), nodes)
      decreases |tokens| - index, 2
    {
      var atNot := AtKeyword("NOT");
      var atDash := AtKeyword("-");
      if atNot || atDash {
        var _ := Next();
        var ok := CountNode();
        if !ok { return Err(TooComplex); }
        r := ParseTerm(depth);
        return if r.Err? then r else Ok(Not(r.value));
      }
      var token := Peek();
      if token.None? { return Err(UnexpectedEnd); }
      if token.value.kind == LeftParen {
        var _ := Next();
        r := ParseOr(depth + 1);
        if r.Err? { return; }
        var closing := Next();
        if closing.None? || closing.value.kind != RightParen { return Err(Unbalanced); }
        return;
      }
      r := ParseComparison();
    }

    method ParseComparison() returns (r: Result<Node>)
      requires Valid() && Rest() != []
      modifies this
      ensures Valid() && Agrees(r, old(Leaf(co, Rest(), nodes)), Rest(), nodes)
    {
      var token := Next();
      var ok := CountNode();
      if !ok { return Err(TooComplex); }
      var operator := Peek();
      if operator.None? || operator.value.kind != OpKind {
        if !IsText(token.value.kind) { return Err(UnexpectedToken); }
        if |token.value.value| > MAX_VALUE_LENGTH { return Err(ValueTooLong); }
        return Ok(FreeText(token.value.value));
      }
      var _ := Next();
      var column := ResolveColumn(token.value.value);
      if column.Err? { return Err(column.error); }
      var values := ParseValues();
      if values.Err? { return Err(values.error); }
      r := BuildComparison(co, column.value, operator.value.value, values.value);
    }

    method ParseValues() returns (r: Result<seq<string>>)
      requires Valid()
      modifies this`index
      ensures Valid() && Agrees(r, old(Values([], Rest())), Rest(), 0)
    {
      var values: seq<string> := [];
      while true
        invariant Valid()
        invariant Values(values, Rest()) == old(Values([], Rest()))
        decreases |tokens| - index
      {
        var token := Next();
        if token.None? || !IsText(token.value.kind) { return Err(MissingValue); }
        if |token.value.value| > MAX_VALUE_LENGTH { return Err(ValueTooLong); }
        values := values + [token.value.value];
        if |values| > MAX_IN_VALUES { return Err(TooManyValues); }
        var following := Peek();
        if following.Some? && following.value.kind == CommaKind {
          var _ := Next();
          continue;
        }
        return Ok(values);
      }
    }
  }

  // ---------- What every accepted query satisfies ----------

  /** A parse from `nodes` counted nodes at `depth` produced a bounded, well-formed tree. */
  predicate Bounded(p: Parsed<Node>, nodes: nat, depth: nat, level: Level) {
    && p.nodes == nodes + CountNodes(p.value)
    && p.nodes <= 64
    && WellFormed(p.value)
    && depth + Nesting(p.value, level) <= 8
  }

  lemma LeafBounded(co: Conversions, ts: seq<Lexeme>, nodes: nat, depth: nat)
    requires ts != [] && depth <= MAX_DEPTH && Leaf(co, ts, nodes).Ok?
    ensures Bounded(Leaf(co, ts, nodes).value, nodes, depth, TermLevel)
  {
  }

  lemma NestingAtLevels(node: Node)
    ensures Nesting(node, OrLevel) <= Nesting(node, AndLevel) <= Nesting(node, TermLevel) <= Nesting(node, OrLevel) + 1
  {
  }

  lemma {:induction false} TermBounded(co: Conversions, ts: seq<Lexeme>, nodes: nat, depth: nat)
    requires depth <= MAX_DEPTH && Term(co, ts, nodes, depth).Ok?
    ensures Bounded(Term(co, ts, nodes, depth).value, nodes, depth, TermLevel)
    decreases |ts|, 1
  {
    if IsKeyword(ts, KeyNot) {
      TermBounded(co, ts[1..], nodes + 1, depth);
    } else if ts[0].kind == LeftParen {
      OrBounded(co, ts[1..], nodes, depth + 1);
      NestingAtLevels(OrExpr(co, ts[1..], nodes, depth + 1).value.value);
    } else {
      LeafBounded(co, ts, nodes, depth);
    }
  }

  lemma {:induction false} AndTailBounded(co: Conversions, operands: seq<Node>, ts: seq<Lexeme>, start: nat,
        nodes: nat, depth: nat)
    requires operands != [] && AllWellFormed(operands)
    requires nodes == start + CountAll(operands) && nodes <= MAX_NODES
    requires depth + NestingAll(operands, TermLevel) <= MAX_DEPTH
    requires AndTail(co, operands, ts, nodes, depth).Ok?
    ensures Bounded(AndTail(co, operands, ts, nodes, depth).value, start, depth, AndLevel)
    decreases |ts|, 2
  {
    if EndsAnd(ts) {
      if |operands| == 1 {
        assert operands[1..] == [];
        NestingAtLevels(operands[0]);
      }
    } else {
      var next := if IsKeyword(ts, KeyAnd) then ts[1..] else ts;
      TermBounded(co, next, nodes, depth);
      var p := Term(co, next, nodes, depth).value;
      CountAppend(operands, [p.value]);
      assert [p.value][1..] == [];
      NestingAppend(operands, p.value, TermLevel);
      WellFormedAppend(operands, p.value);
      AndTailBounded(co, operands + [p.value], p.rest, start, p.nodes, depth);
    }
  }

  lemma {:induction false} AndBounded(co: Conversions, ts: seq<Lexeme>, nodes: nat, depth: nat)
    requires depth <= MAX_DEPTH && AndExpr(co, ts, nodes, depth).Ok?
    ensures Bounded(AndExpr(co, ts, nodes, depth).value, nodes, depth, AndLevel)
    decreases |ts|, 3
  {
    TermBounded(co, ts, nodes, depth);
    var p := Term(co, ts, nodes, depth).value;
    assert [p.value][1..] == [];
    AndTailBounded(co, [p.value], p.rest, nodes, p.nodes, depth);
  }

  lemma {:induction false} OrTailBounded(co: Conversions, operands: seq<Node>, ts: seq<Lexeme>, start: nat,
        nodes: nat, depth: nat)
    requires operands != [] && AllWellFormed(operands)
    requires nodes == start + CountAll(operands) && nodes <= MAX_NODES
    requires depth + NestingAll(operands, AndLevel) <= MAX_DEPTH
    requires OrTail(co, operands, ts, nodes, depth).Ok?
    ensures Bounded(OrTail(co, operands, ts, nodes, depth).value, start, depth, OrLevel)
    decreases |ts|, 3
  {
    if !IsKeyword(ts, KeyOr) {
      if |operands| == 1 {
        assert operands[1..] == [];
        NestingAtLevels(operands[0]);
      }
    } else {
      AndBounded(co, ts[1..], nodes, depth);
      var p := AndExpr(co, ts[1..], nodes, depth).value;
      CountAppend(operands, [p.value]);
      assert [p.value][1..] == [];
      NestingAppend(operands, p.value, AndLevel);
      WellFormedAppend(operands, p.value);
      OrTailBounded(co, operands + [p.value], p.rest, start, p.nodes, depth);
    }
  }

  /** The node counter is the number of negations and leaves built, and no accepted tree exceeds a limit. */
  lemma {:induction false} OrBounded(co: Conversions, ts: seq<Lexeme>, nodes: nat, depth: nat)
    requires OrExpr(co, ts, nodes, depth).Ok?
    ensures Bounded(OrExpr(co, ts, nodes, depth).value, nodes, depth, OrLevel)
    decreases |ts|, 4
  {
    AndBounded(co, ts, nodes, depth);
    var p := AndExpr(co, ts, nodes, depth).value;
    assert [p.value][1..] == [];
    OrTailBounded(co, [p.value], p.rest, nodes, p.nodes, depth);
  }
}
