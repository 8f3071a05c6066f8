/**
 Writing queries, and the proof that the parser reads them back (app/search/query.py:3-20, 291-378, 395-408).

 A `Query` is what a user means to type.  `Print` writes its lexemes, with parentheses where precedence
 needs them and where the query has a `Group`; the style picks the keyword spellings and explicit or
 implicit AND.
 */
module QueryPrinter {
  import opened Options
  import opened QuerySyntax
  import opened QueryAst
  import opened QueryParser

  datatype Atom = Atom(quoted: bool, text: string)

  datatype Query =
    | Compare(field: Atom, operator: string, values: seq<Atom>)
    | Words(text: Atom)
    | Negate(query: Query)
    | Group(query: Query)
    | Connect(connective: Connective, parts: seq<Query>)

  /** `andWord` None leaves AND implicit. */
  datatype Style = Style(andWord: Option<string>, orWord: string, notWord: string)

  predicate ValidStyle(style: Style) {
    && (style.andWord.Some? ==> KeywordOf(WordKind, style.andWord.value) == KeyAnd)
    && KeywordOf(WordKind, style.orWord) == KeyOr
    && KeywordOf(WordKind, style.notWord) == KeyNot
  }

  // ---------- Printing ----------

  function AtomLexeme(atom: Atom): Lexeme {
    Lex(if atom.quoted then QuotedKind else WordKind, atom.text)
  }

  function ValueLexemes(values: seq<Atom>): seq<Lexeme> {
    if values == [] then []
    else if |values| == 1 then [AtomLexeme(values[0])]
    else [AtomLexeme(values[0]), Lex(CommaKind, ",")] + ValueLexemes(values[1..])
  }

  function Separator(style: Style, connective: Connective): seq<Lexeme> {
    if connective == OrOp then [Lex(WordKind, style.orWord)]
    else if style.andWord.None? then [] else [Lex(WordKind, style.andWord.value)]
  }

  function Print(style: Style, q: Query, level: Level): seq<Lexeme>
    decreases q, 2
  {
    if q.Connect? && NeedsParens(q.connective, level) then
      [Lex(LeftParen, "(")] + Body(style, q) + [Lex(RightParen, ")")]
    else Body(style, q)
  }

  function Body(style: Style, q: Query): seq<Lexeme>
    decreases q, 1
  {
    match q
    case Compare(field, operator, values) =>
      [AtomLexeme(field), Lex(OpKind, operator)] + ValueLexemes(values)
    case Words(text) => [AtomLexeme(text)]
    case Negate(query) => [Lex(WordKind, style.notWord)] + Print(style, query, TermLevel)
    case Group(query) => [Lex(LeftParen, "(")] + Print(style, query, OrLevel) + [Lex(RightParen, ")")]
    case Connect(connective, parts) =>
      if parts == [] then []
      else Print(style, parts[0], OperandLevel(connective)) + PrintRest(style, connective, parts[1..])
  }

  function PrintRest(style: Style, connective: Connective, parts: seq<Query>): seq<Lexeme>
    decreases parts, 0
  {
    if parts == [] then []
    else
      var first := Separator(style, connective) + Print(style, parts[0], OperandLevel(connective));
      first + PrintRest(style, connective, parts[1..])
  }

  // ---------- Which queries can be written, and what they build ----------

  /** A bare word that opens a term must not read as a keyword. */
  predicate OpensTerm(atom: Atom) {
    AtomLexeme(atom).keyword == NoKeyword
  }

  predicate Printable(q: Query)
    decreases q, 0
  {
    match q
    case Compare(field, _, values) =>
      && OpensTerm(field) && 1 <= |values| <= 50
      && forall i :: 0 <= i < |values| ==> |values[i].text| <= 512
    case Words(text) => OpensTerm(text) && |text.text| <= 512
    case Negate(query) => Printable(query)
    case Group(query) => Printable(query)
    case Connect(_, parts) => |parts| >= 2 && AllPrintable(parts)
  }

  predicate AllPrintable(parts: seq<Query>)
    decreases parts, 0
  {
    parts == [] || (Printable(parts[0]) && AllPrintable(parts[1..]))
  }

  function Texts(atoms: seq<Atom>): (r: seq<string>)
    ensures |r| == |atoms|
    ensures forall i :: 0 <= i < |atoms| ==> r[i] == atoms[i].text
  {
    if atoms == [] then [] else [atoms[0].text] + Texts(atoms[1..])
  }

  /** The tree a query stands for, or the first error its leaves raise. */
  function Build(co: Conversions, q: Query): Result<Node>
    decreases q, 1
  {
    match q
    case Compare(field, operator, values) =>
      (match ResolveColumn(field.text)
       case Err(e) => Err(e)
       case Ok(column) => if values == [] then Err(MissingValue)
           else BuildComparison(co, column, operator, Texts(values)))
    case Words(text) => Ok(FreeText(text.text))
    case Negate(query) =>
      (match Build(co, query) case Err(e) => Err(e) case Ok(n) => Ok(Not(n)))
    case Group(query) => Build(co, query)
    case Connect(connective, parts) =>
      (match BuildAll(co, parts) case Err(e) => Err(e) case Ok(ns) => Ok(BoolOp(connective, ns)))
  }

  function BuildAll(co: Conversions, parts: seq<Query>): (r: Result<seq<Node>>)
    ensures r.Ok? ==> |r.value| == |parts|
    decreases parts, 0
  {
    if parts == [] then Ok([])
    else match Build(co, parts[0])
      case Err(e) => Err(e)
      case Ok(n) =>
        match BuildAll(co, parts[1..])
        case Err(e) => Err(e)
        case Ok(ns) => Ok([n] + ns)
  }

  /** Negations and leaves of a query. */
  function Size(q: Query): nat
    decreases q, 1
  {
    match q
    case Compare(_, _, _) => 1
    case Words(_) => 1
    case Negate(query) => 1 + Size(query)
    case Group(query) => Size(query)
    case Connect(_, parts) => SizeAll(parts)
  }

  function SizeAll(parts: seq<Query>): nat
    decreases parts, 0
  {
    if parts == [] then 0 else Size(parts[0]) + SizeAll(parts[1..])
  }

  /** Parentheses nested inside each other in the print. */
  function Parens(q: Query, level: Level): nat
    decreases q, 1
  {
    match q
    case Compare(_, _, _) => 0
    case Words(_) => 0
    case Negate(query) => Parens(query, TermLevel)
    case Group(query) => 1 + Parens(query, OrLevel)
    case Connect(connective, parts) =>
      (if NeedsParens(connective, level) then 1 else 0) + ParensAll(parts, OperandLevel(connective))
  }

  function ParensAll(parts: seq<Query>, level: Level): nat
    decreases parts, 0
  {
    if parts == [] then 0
    else var first, rest := Parens(parts[0], level), ParensAll(parts[1..], level);
         if first > rest then first else rest
  }

  // ---------- Reading leaves back ----------

  /** What may follow a term without being read as part of it. */
  predicate FollowsTerm(rest: seq<Lexeme>) {
    rest == [] || rest[0].kind !in {OpKind, CommaKind}
  }

  predicate FollowsOr(rest: seq<Lexeme>) {
    rest == [] || rest[0].kind == RightParen
  }

  function Expected(built: Result<Node>, rest: seq<Lexeme>, nodes: nat): Result<Parsed<Node>> {
    match built
    case Err(e) => Err(e)
    case Ok(n) => Ok(Parsed(n, rest, nodes))
  }

  lemma ValuesStep(before: seq<string>, lex: Lexeme, comma: Lexeme, tail: seq<Lexeme>)
    requires IsText(lex.kind) && |lex.value| <= MAX_VALUE_LENGTH && |before| < MAX_IN_VALUES && comma.kind == CommaKind
    ensures Values(before, [lex, comma] + tail) == Values(before + [lex.value], tail)
  {
    assert ([lex, comma] + tail)[2..] == tail;
  }

  lemma ValuesLast(before: seq<string>, lex: Lexeme, rest: seq<Lexeme>)
    requires IsText(lex.kind) && |lex.value| <= MAX_VALUE_LENGTH && |before| < MAX_IN_VALUES && FollowsTerm(rest)
    ensures Values(before, [lex] + rest) == Ok(Parsed(before + [lex.value], rest, 0))
  {
    assert ([lex] + rest)[1..] == rest;
  }

  lemma {:induction false} ValuesParse(before: seq<string>, values: seq<Atom>, rest: seq<Lexeme>)
    requires values != [] && |before| + |values| <= MAX_IN_VALUES && FollowsTerm(rest)
    requires forall i :: 0 <= i < |values| ==> |values[i].text| <= MAX_VALUE_LENGTH
    ensures Values(before, ValueLexemes(values) + rest) == Ok(Parsed(before + Texts(values), rest, 0))
    decreases |values|
  {
    if |values| == 1 {
      ValuesLast(before, AtomLexeme(values[0]), rest);
      assert Texts(values) == [values[0].text];
    } else {
      var others := values[1..];
      ValuesStep(before, AtomLexeme(values[0]), Lex(CommaKind, ","), ValueLexemes(others) + rest);
      ValuesParse(before + [values[0].text], others, rest);
      Regroup([AtomLexeme(values[0]), Lex(CommaKind, ",")], ValueLexemes(others), rest);
      Regroup(before, [values[0].text], Texts(others));
    }
  }

  lemma Regroup<T>(a: seq<T>, b: seq<T>, c: seq<T>)
    ensures a + b + c == a + (b + c)
  {
  }

  lemma WordsParse(style: Style, co: Conversions, q: Query, rest: seq<Lexeme>, nodes: nat, depth: nat)
    requires Printable(q) && q.Words? && FollowsTerm(rest) && nodes + 1 <= MAX_NODES
    ensures Term(co, Body(style, q) + rest, nodes, depth) == Expected(Build(co, q), rest, nodes + 1)
  {
    var ts := Body(style, q) + rest;
    assert !IsKeyword(ts, KeyNot);
    assert ts[1..] == rest;
  }

  lemma CompareParses(style: Style, co: Conversions, q: Query, rest: seq<Lexeme>, nodes: nat, depth: nat)
    requires Printable(q) && q.Compare? && FollowsTerm(rest) && nodes + 1 <= MAX_NODES
    ensures Term(co, Body(style, q) + rest, nodes, depth) == Expected(Build(co, q), rest, nodes + 1)
  {
    var ts := Body(style, q) + rest;
    assert !IsKeyword(ts, KeyNot);
    assert ts[2..] == ValueLexemes(q.values) + rest;
    ValuesParse([], q.values, rest);
    assert [] + Texts(q.values) == Texts(q.values);
    hide Values, ValueLexemes, Texts, BuildComparison, ResolveColumn;
  }

  lemma LeafParses(style: Style, co: Conversions, q: Query, rest: seq<Lexeme>, nodes: nat, depth: nat)
    requires Printable(q) && (q.Compare? || q.Words?) && FollowsTerm(rest) && nodes + 1 <= MAX_NODES
    ensures Term(co, Body(style, q) + rest, nodes, depth) == Expected(Build(co, q), rest, nodes + 1)
  {
    hide Term, Body, Expected, Build, Printable, FollowsTerm;
    if q.Words? {
      WordsParse(style, co, q, rest, nodes, depth);
    } else {
      CompareParses(style, co, q, rest, nodes, depth);
    }
  }

  // ---------- Reading trees back ----------

  lemma BodyOfConnect(style: Style, q: Query)
    requires q.Connect? && Printable(q)
    ensures AllPrintable(q.parts) && Printable(q.parts[0]) && AllPrintable(q.parts[1..])
    ensures Body(style, q)
         == Print(style, q.parts[0], OperandLevel(q.connective)) + PrintRest(style, q.connective, q.parts[1..])
  {
  }

  lemma ConnectPrints(style: Style, q: Query, level: Level, rest: seq<Lexeme>)
    requires q.Connect? && Printable(q) && !NeedsParens(q.connective, level)
    ensures Print(style, q, level) + rest
         == Print(style, q.parts[0], OperandLevel(q.connective)) + (PrintRest(style, q.connective, q.parts[1..]) + rest)
  {
  }

  /** The first lexeme of a printed operand opens a term: it is no operator, comma, closing parenthesis, AND or OR. */
  lemma {:induction false} PrintOpens(style: Style, q: Query, level: Level)
    requires Printable(q) && ValidStyle(style)
    ensures var ts := Print(style, q, level);
            ts != [] && ts[0].kind in {WordKind, QuotedKind, LeftParen} && !IsKeyword(ts, KeyAnd)
                && !IsKeyword(ts, KeyOr)
    decreases q
  {
    if q.Connect? && !NeedsParens(q.connective, level) {
      BodyOfConnect(style, q);
      PrintOpens(style, q.parts[0], OperandLevel(q.connective));
    }
  }

  function Negated(r: Result<Parsed<Node>>): Result<Parsed<Node>> {
    match r
    case Err(e) => Err(e)
    case Ok(p) => Ok(Parsed(Not(p.value), p.rest, p.nodes))
  }

  lemma TermOfNot(co: Conversions, word: string, ts: seq<Lexeme>, nodes: nat, depth: nat)
    requires KeywordOf(WordKind, word) == KeyNot && nodes + 1 <= MAX_NODES
    ensures Term(co, [Lex(WordKind, word)] + ts, nodes, depth) == Negated(Term(co, ts, nodes + 1, depth))
  {
    assert ([Lex(WordKind, word)] + ts)[1..] == ts;
  }

  lemma TermOfGroup(co: Conversions, body: seq<Lexeme>, built: Result<Node>, rest: seq<Lexeme>, nodes: nat,
        after: nat, depth: nat)
    requires OrExpr(co, body + ([Lex(RightParen, ")")] + rest), nodes, depth + 1)
             == Expected(built, [Lex(RightParen, ")")] + rest, after)
    ensures Term(co, [Lex(LeftParen, "(")] + body + [Lex(RightParen, ")")] + rest, nodes, depth)
            == Expected(built, rest, after)
  {
    var inner := body + ([Lex(RightParen, ")")] + rest);
    assert [Lex(LeftParen, "(")] + body + [Lex(RightParen, ")")] + rest == [Lex(LeftParen, "(")] + inner;
    assert ([Lex(LeftParen, "(")] + inner)[1..] == inner;
    assert ([Lex(RightParen, ")")] + rest)[1..] == rest;
  }

  lemma {:induction false} TermParses(
      style: Style, co: Conversions, q: Query, rest: seq<Lexeme>, nodes: nat, depth: nat)
    requires Printable(q) && ValidStyle(style) && FollowsTerm(rest)
    requires nodes + Size(q) <= MAX_NODES && depth + Parens(q, TermLevel) <= MAX_DEPTH
    ensures Term(co, Print(style, q, TermLevel) + rest, nodes, depth) == Expected(Build(co, q), rest, nodes + Size(q))
    decreases q, 4
  {
    hide Term, Build, Expected, ValidStyle, FollowsTerm;
    match q {
      case Compare(_, _, _) => LeafParses(style, co, q, rest, nodes, depth);
      case Words(_) => LeafParses(style, co, q, rest, nodes, depth);
      case Negate(_) => NegationParses(style, co, q, rest, nodes, depth);
      case Group(_) => OwnGroupParses(style, co, q, rest, nodes, depth);
      case Connect(_, _) =>
        GroupParses(style, co, q, rest, nodes, depth);
    }
  }

  lemma {:induction false} NegationParses(style: Style, co: Conversions, q: Query, rest: seq<Lexeme>,
        nodes: nat, depth: nat)
    requires q.Negate? && Printable(q) && ValidStyle(style) && FollowsTerm(rest)
    requires nodes + Size(q) <= MAX_NODES && depth + Parens(q, TermLevel) <= MAX_DEPTH
    ensures Term(co, Print(style, q, TermLevel) + rest, nodes, depth) == Expected(Build(co, q), rest, nodes + Size(q))
    decreases q, 3
  {
    SizePositive(q.query);
    var ts := Print(style, q.query, TermLevel) + rest;
    assert Print(style, q, TermLevel) + rest == [Lex(WordKind, style.notWord)] + ts;
    TermOfNot(co, style.notWord, ts, nodes, depth);
    TermParses(style, co, q.query, rest, nodes + 1, depth);
  }

  lemma {:induction false} OwnGroupParses(
      style: Style, co: Conversions, q: Query, rest: seq<Lexeme>, nodes: nat, depth: nat)
    requires q.Group? && Printable(q) && ValidStyle(style) && FollowsTerm(rest)
    requires nodes + Size(q) <= MAX_NODES && depth + Parens(q, TermLevel) <= MAX_DEPTH
    ensures Term(co, Print(style, q, TermLevel) + rest, nodes, depth) == Expected(Build(co, q), rest, nodes + Size(q))
    decreases q, 3
  {
    OrParses(style, co, q.query, [Lex(RightParen, ")")] + rest, nodes, depth + 1);
    TermOfGroup(co, Print(style, q.query, OrLevel), Build(co, q.query), rest, nodes, nodes + Size(q.query), depth);
  }

  lemma {:induction false} GroupParses(
      style: Style, co: Conversions, q: Query, rest: seq<Lexeme>, nodes: nat, depth: nat)
    requires q.Connect? && Printable(q) && ValidStyle(style) && FollowsTerm(rest)
    requires nodes + Size(q) <= MAX_NODES && depth + Parens(q, TermLevel) <= MAX_DEPTH
    ensures Term(co, Print(style, q, TermLevel) + rest, nodes, depth) == Expected(Build(co, q), rest, nodes + Size(q))
    decreases q, 3
  {
    OrParses(style, co, q, [Lex(RightParen, ")")] + rest, nodes, depth + 1);
    TermOfGroup(co, Body(style, q), Build(co, q), rest, nodes, nodes + Size(q), depth);
  }

  lemma {:induction false} AndParses(style: Style, co: Conversions, q: Query, rest: seq<Lexeme>, nodes: nat, depth: nat)
    requires Printable(q) && ValidStyle(style) && EndsAnd(rest)
    requires nodes + Size(q) <= MAX_NODES && depth + Parens(q, AndLevel) <= MAX_DEPTH
    ensures AndExpr(co, Print(style, q, AndLevel) + rest, nodes, depth) == Expected(Build(co, q), rest, nodes + Size(q))
    decreases q, if q.Connect? && q.connective == AndOp then 1 else 5
  {
    if q.Connect? && q.connective == AndOp {
      AndOfConnectParses(style, co, q, rest, nodes, depth);
    } else {
      assert Print(style, q, AndLevel) == Print(style, q, TermLevel);
      TermParses(style, co, q, rest, nodes, depth);
    }
  }

  lemma {:induction false} AndOfConnectParses(style: Style, co: Conversions, q: Query, rest: seq<Lexeme>,
        nodes: nat, depth: nat)
    requires q.Connect? && q.connective == AndOp && Printable(q) && ValidStyle(style) && EndsAnd(rest)
    requires nodes + Size(q) <= MAX_NODES && depth + Parens(q, AndLevel) <= MAX_DEPTH
    ensures AndExpr(co, Print(style, q, AndLevel) + rest, nodes, depth) == Expected(Build(co, q), rest, nodes + Size(q))
    decreases q, 0
  {
    hide AndExpr, AndTail, Build, BuildAll, Print, PrintRest, Body;
    var first, others := q.parts[0], q.parts[1..];
    BodyOfConnect(style, q);
    BuildOfConnect(co, q);
    var after := PrintRest(style, AndOp, others) + rest;
    ConnectPrints(style, q, AndLevel, rest);
    PartsOpen(style, AndOp, others, rest);
    TermParses(style, co, first, after, nodes, depth);
    AndUnfolds(co, Print(style, first, TermLevel) + after, nodes, depth);
    if Build(co, first).Ok? {
      assert [] + [Build(co, first).value] == [Build(co, first).value];
      AndTailParses(style, co, [Build(co, first).value], others, rest, nodes + Size(first), depth);
    }
  }

  /** The tree or error of a connective whose first operands are built and whose other parts are still to be. */
  function ExpectedTail(connective: Connective, operands: seq<Node>, others: Result<seq<Node>>,
        rest: seq<Lexeme>, nodes: nat): Result<Parsed<Node>> {
    match others
    case Err(e) => Err(e)
    case Ok(ns) => Ok(Parsed(BoolOp(connective, operands + ns), rest, nodes))
  }

  lemma BuildOfConnect(co: Conversions, q: Query)
    requires q.Connect? && Printable(q)
    ensures Build(co, q) == match Build(co, q.parts[0])
                            case Err(e) => Err(e)
                            case Ok(n) =>
                              match BuildAll(co, q.parts[1..])
                              case Err(e) => Err(e)
                              case Ok(ns) => Ok(BoolOp(q.connective, [n] + ns))
  {
  }

  lemma ExpectedTailStep(co: Conversions, connective: Connective, operands: seq<Node>, parts: seq<Query>,
        rest: seq<Lexeme>, nodes: nat)
    requires parts != []
    ensures ExpectedTail(connective, operands, BuildAll(co, parts), rest, nodes)
         == match Build(co, parts[0])
            case Err(e) => Err(e)
            case Ok(n) => ExpectedTail(connective, operands + [n], BuildAll(co, parts[1..]), rest, nodes)
  {
    if Build(co, parts[0]).Ok? && BuildAll(co, parts[1..]).Ok? {
      var n, ns := Build(co, parts[0]).value, BuildAll(co, parts[1..]).value;
      assert operands + ([n] + ns) == operands + [n] + ns;
    }
  }

  lemma NoAndParts(style: Style, co: Conversions, operands: seq<Node>, rest: seq<Lexeme>, nodes: nat, depth: nat)
    requires |operands| >= 2 && EndsAnd(rest)
    ensures AndTail(co, operands, PrintRest(style, AndOp, []) + rest, nodes, depth)
         == ExpectedTail(AndOp, operands, BuildAll(co, []), rest, nodes)
  {
    assert PrintRest(style, AndOp, []) + rest == rest && operands + [] == operands;
  }

  lemma {:induction false} AndTailParses(style: Style, co: Conversions, operands: seq<Node>, parts: seq<Query>,
        rest: seq<Lexeme>, nodes: nat, depth: nat)
    requires operands != [] && |operands| + |parts| >= 2
    requires AllPrintable(parts) && ValidStyle(style) && EndsAnd(rest)
    requires nodes + SizeAll(parts) <= MAX_NODES && depth + ParensAll(parts, TermLevel) <= MAX_DEPTH
    ensures AndTail(co, operands, PrintRest(style, AndOp, parts) + rest, nodes, depth)
         == ExpectedTail(AndOp, operands, BuildAll(co, parts), rest, nodes + SizeAll(parts))
    decreases parts, 1
  {
    hide AndTail, ExpectedTail, PrintRest, Build, BuildAll, Print;
    if parts == [] {
      NoAndParts(style, co, operands, rest, nodes, depth);
    } else {
      AndTailStep(style, co, operands, parts, rest, nodes, depth);
      ExpectedTailStep(co, AndOp, operands, parts, rest, nodes + SizeAll(parts));
      if Build(co, parts[0]).Ok? {
        AndTailParses(style, co, operands + [Build(co, parts[0]).value], parts[1..], rest, nodes + Size(parts[0]),
            depth);
      }
    }
  }

  lemma PrintRestUnfolds(style: Style, connective: Connective, parts: seq<Query>, rest: seq<Lexeme>)
    requires parts != []
    ensures PrintRest(style, connective, parts) + rest
         == Separator(style, connective)
            + (Print(style, parts[0], OperandLevel(connective)) + (PrintRest(style, connective, parts[1..]) + rest))
  {
  }

  lemma {:induction false} AndTailStep(style: Style, co: Conversions, operands: seq<Node>, parts: seq<Query>,
        rest: seq<Lexeme>, nodes: nat, depth: nat)
    requires operands != [] && parts != []
    requires AllPrintable(parts) && ValidStyle(style) && EndsAnd(rest)
    requires nodes + SizeAll(parts) <= MAX_NODES && depth + ParensAll(parts, TermLevel) <= MAX_DEPTH
    ensures AndTail(co, operands, PrintRest(style, AndOp, parts) + rest, nodes, depth)
         == ResumeAnd(co, operands,
            Expected(Build(co, parts[0]), PrintRest(style, AndOp, parts[1..]) + rest, nodes + Size(parts[0])), depth)
    decreases parts, 0
  {
    hide AndTail, ResumeAnd, Expected, Build, Print, PrintRest, Size, Parens, Separator, Printable, ValidStyle;
    hide Term, FollowsTerm;
    var ts, after := PrintRest(style, AndOp, parts) + rest, PrintRest(style, AndOp, parts[1..]) + rest;
    var term := Print(style, parts[0], TermLevel) + after;
    PartsOpen(style, AndOp, parts[1..], rest);
    PrintOpens(style, parts[0], TermLevel);
    PrintRestUnfolds(style, AndOp, parts, rest);
    SeparatedAnd(style, term);
    TermParses(style, co, parts[0], after, nodes, depth);
    AndTailUnfolds(co, operands, ts, nodes, depth);
  }

  lemma SeparatedAnd(style: Style, term: seq<Lexeme>)
    requires ValidStyle(style)
    requires term != [] && term[0].kind != RightParen && !IsKeyword(term, KeyAnd) && !IsKeyword(term, KeyOr)
    ensures var ts := Separator(style, AndOp) + term;
            !EndsAnd(ts) && (if IsKeyword(ts, KeyAnd) then ts[1..] else ts) == term
  {
    var ts := Separator(style, AndOp) + term;
    if style.andWord.None? {
      assert ts == term;
    } else {
      assert ts[1..] == term;
    }
  }

  lemma {:induction false} OrParses(style: Style, co: Conversions, q: Query, rest: seq<Lexeme>, nodes: nat, depth: nat)
    requires Printable(q) && ValidStyle(style) && FollowsOr(rest)
    requires nodes + Size(q) <= MAX_NODES && depth + Parens(q, OrLevel) <= MAX_DEPTH
    ensures OrExpr(co, Print(style, q, OrLevel) + rest, nodes, depth) == Expected(Build(co, q), rest, nodes + Size(q))
    decreases q, if !q.Connect? then 6 else if q.connective == OrOp then 1 else 2
  {
    if q.Connect? && q.connective == OrOp {
      OrOfConnectParses(style, co, q, rest, nodes, depth);
    } else {
      assert Print(style, q, OrLevel) == Print(style, q, AndLevel);
      AndParses(style, co, q, rest, nodes, depth);
    }
  }

  lemma {:induction false} OrOfConnectParses(style: Style, co: Conversions, q: Query, rest: seq<Lexeme>,
        nodes: nat, depth: nat)
    requires q.Connect? && q.connective == OrOp && Printable(q) && ValidStyle(style) && FollowsOr(rest)
    requires nodes + Size(q) <= MAX_NODES && depth + Parens(q, OrLevel) <= MAX_DEPTH
    ensures OrExpr(co, Print(style, q, OrLevel) + rest, nodes, depth) == Expected(Build(co, q), rest, nodes + Size(q))
    decreases q, 0
  {
    hide OrExpr, OrTail, Build, BuildAll, Print, PrintRest, Body;
    var first, others := q.parts[0], q.parts[1..];
    BodyOfConnect(style, q);
    BuildOfConnect(co, q);
    var after := PrintRest(style, OrOp, others) + rest;
    ConnectPrints(style, q, OrLevel, rest);
    PartsOpen(style, OrOp, others, rest);
    AndParses(style, co, first, after, nodes, depth);
    OrUnfolds(co, Print(style, first, AndLevel) + after, nodes, depth);
    if Build(co, first).Ok? {
      assert [] + [Build(co, first).value] == [Build(co, first).value];
      OrTailParses(style, co, [Build(co, first).value], others, rest, nodes + Size(first), depth);
    }
  }

  lemma NoOrParts(style: Style, co: Conversions, operands: seq<Node>, rest: seq<Lexeme>, nodes: nat, depth: nat)
    requires |operands| >= 2 && FollowsOr(rest)
    ensures OrTail(co, operands, PrintRest(style, OrOp, []) + rest, nodes, depth)
         == ExpectedTail(OrOp, operands, BuildAll(co, []), rest, nodes)
  {
    assert PrintRest(style, OrOp, []) + rest == rest && operands + [] == operands;
  }

  lemma {:induction false} OrTailParses(style: Style, co: Conversions, operands: seq<Node>, parts: seq<Query>,
        rest: seq<Lexeme>, nodes: nat, depth: nat)
    requires operands != [] && |operands| + |parts| >= 2
    requires AllPrintable(parts) && ValidStyle(style) && FollowsOr(rest)
    requires nodes + SizeAll(parts) <= MAX_NODES && depth + ParensAll(parts, AndLevel) <= MAX_DEPTH
    ensures OrTail(co, operands, PrintRest(style, OrOp, parts) + rest, nodes, depth)
         == ExpectedTail(OrOp, operands, BuildAll(co, parts), rest, nodes + SizeAll(parts))
    decreases parts, 1
  {
    hide OrTail, ExpectedTail, PrintRest, Build, BuildAll, Print;
    if parts == [] {
      NoOrParts(style, co, operands, rest, nodes, depth);
    } else {
      OrTailStep(style, co, operands, parts, rest, nodes, depth);
      ExpectedTailStep(co, OrOp, operands, parts, rest, nodes + SizeAll(parts));
      if Build(co, parts[0]).Ok? {
        OrTailParses(style, co, operands + [Build(co, parts[0]).value], parts[1..], rest, nodes + Size(parts[0]),
            depth);
      }
    }
  }

  lemma {:induction false} OrTailStep(style: Style, co: Conversions, operands: seq<Node>, parts: seq<Query>,
        rest: seq<Lexeme>, nodes: nat, depth: nat)
    requires operands != [] && parts != []
    requires AllPrintable(parts) && ValidStyle(style) && FollowsOr(rest)
    requires nodes + SizeAll(parts) <= MAX_NODES && depth + ParensAll(parts, AndLevel) <= MAX_DEPTH
    ensures OrTail(co, operands, PrintRest(style, OrOp, parts) + rest, nodes, depth)
         == ResumeOr(co, operands,
            Expected(Build(co, parts[0]), PrintRest(style, OrOp, parts[1..]) + rest, nodes + Size(parts[0])), depth)
    decreases parts, 0
  {
    hide OrTail, ResumeOr, Expected, Build, Print, PrintRest, Size, Parens;
    var ts, after := PrintRest(style, OrOp, parts) + rest, PrintRest(style, OrOp, parts[1..]) + rest;
    var operand := Print(style, parts[0], AndLevel) + after;
    PartsOpen(style, OrOp, parts[1..], rest);
    PrintRestUnfolds(style, OrOp, parts, rest);
    assert ts[1..] == operand;
    AndParses(style, co, parts[0], after, nodes, depth);
    OrTailUnfolds(co, operands, ts, nodes, depth);
  }

  lemma SizePositive(q: Query)
    requires Printable(q)
    ensures Size(q) >= 1
    decreases q
  {
    if q.Connect? { SizePositive(q.parts[0]); }
    if q.Group? { SizePositive(q.query); }
  }

  /** What follows an operand inside a connective is never read as part of the operand. */
  lemma PartsOpen(style: Style, connective: Connective, parts: seq<Query>, rest: seq<Lexeme>)
    requires AllPrintable(parts) && ValidStyle(style) && FollowsTerm(rest)
    requires EndsAnd(rest)
    ensures FollowsTerm(PrintRest(style, connective, parts) + rest)
    ensures connective == OrOp ==> EndsAnd(PrintRest(style, connective, parts) + rest)
  {
    if parts == [] {
      assert PrintRest(style, connective, parts) + rest == rest;
    } else {
      PrintOpens(style, parts[0], OperandLevel(connective));
    }
  }

  /**
   Within the node and nesting limits, parsing the print of any query gives the tree the query
   stands for, or the first error of its leaves, in every style.
   */
  lemma ParseInvertsPrint(style: Style, co: Conversions, q: Query)
    requires Printable(q) && ValidStyle(style)
    requires Size(q) <= MAX_NODES && Parens(q, OrLevel) <= MAX_DEPTH
    ensures ParseQuery(co, Print(style, q, OrLevel))
         == match Build(co, q) case Err(e) => Err(e) case Ok(n) => Ok(Some(n))
  {
    var ts := Print(style, q, OrLevel);
    PrintOpens(style, q, OrLevel);
    OrParses(style, co, q, [], 0, 0);
    assert ts + [] == ts;
  }
}
