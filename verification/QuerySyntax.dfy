/**
 The vocabulary of the search language: limits, columns, operators, tokens and errors
 (app/search/query.py:53-122).
 */
module QuerySyntax {
  const MAX_QUERY_LENGTH := 4096
  const MAX_NODES := 64
  const MAX_DEPTH := 8
  const MAX_VALUE_LENGTH := 512
  const MAX_IN_VALUES := 50

  datatype SyntaxError =
    | QueryTooLong
    | UnexpectedCharacter(position: nat)
    | UnexpectedToken
    | UnexpectedEnd
    | TooComplex
    | TooDeep
    | Unbalanced
    | MissingValue
    | TooManyValues
    | ValueTooLong
    | UnknownField
    | UnsupportedOperator
    | ListNeedsEquality
    | BadNumber
    | BadTimestamp

  datatype Result<+T> = Ok(value: T) | Err(error: SyntaxError)

  // ---------- Text ----------

  predicate IsSpace(c: char) {
    var n := c as int;
    || 9 <= n <= 13 || 28 <= n <= 32 || n == 0x85 || n == 0xA0 || n == 0x1680 || 0x2000 <= n <= 0x200A
    || n == 0x2028 || n == 0x2029 || n == 0x202F || n == 0x205F || n == 0x3000
  }

  function LowerChar(c: char): char {
    if 'A' <= c <= 'Z' then ((c as int) + 32) as char else c
  }

  function UpperChar(c: char): char {
    if 'a' <= c <= 'z' then ((c as int) - 32) as char else c
  }

  function Lower(s: string): string {
    seq(|s|, i requires 0 <= i < |s| => LowerChar(s[i]))
  }

  function Upper(s: string): string {
    seq(|s|, i requires 0 <= i < |s| => UpperChar(s[i]))
  }

  function StripLeft(s: string): string {
    if s != [] && IsSpace(s[0]) then StripLeft(s[1..]) else s
  }

  function StripRight(s: string): string {
    if s != [] && IsSpace(s[|s| - 1]) then StripRight(s[..|s| - 1]) else s
  }

  function Strip(s: string): string {
    StripRight(StripLeft(s))
  }

  // ---------- Columns ----------

  function QueryableColumns(): set<string> {
    {
      "event_id", "timestamp", "ingested_at", "source", "source_type", "service", "hostname", "environment",
      "level", "logger", "message", "ip_address", "user_id", "request_id", "http_method", "endpoint",
      "status_code", "response_time_ms", "bytes_sent", "user_agent", "referrer", "raw_message", "parser"
    }
  }

  function NumericColumns(): set<string> {
    { "status_code", "response_time_ms", "bytes_sent" }
  }

  function TimestampColumns(): set<string> {
    { "timestamp", "ingested_at" }
  }

  function FieldAliases(): map<string, string> {
    map[
      "ip" := "ip_address", "client_ip" := "ip_address", "status" := "status_code", "path" := "endpoint",
      "url" := "endpoint", "method" := "http_method", "host" := "hostname", "duration" := "response_time_ms",
      "latency" := "response_time_ms", "response_time" := "response_time_ms", "time" := "timestamp",
      "msg" := "message", "app" := "service", "user" := "user_id", "trace_id" := "request_id",
      "bytes" := "bytes_sent", "ua" := "user_agent", "severity" := "level"
    ]
  }

  predicate IsFieldName(word: string) {
    var key := Lower(Strip(word));
    key in QueryableColumns() || key in FieldAliases()
  }

  function ResolveColumn(name: string): Result<string> {
    var key := Lower(Strip(name));
    var column := if key in FieldAliases() then FieldAliases()[key] else key;
    if column in QueryableColumns() then Ok(column) else Err(UnknownField)
  }

  // ---------- Operators and tokens ----------

  datatype SqlCmp = CmpEq | CmpNe | CmpGt | CmpGe | CmpLt | CmpLe

  function SqlOperators(): map<string, SqlCmp> {
    map[
      "=" := CmpEq, "==" := CmpEq, ":" := CmpEq, "!=" := CmpNe, "<>" := CmpNe,
      ">" := CmpGt, ">=" := CmpGe, "<" := CmpLt, "<=" := CmpLe
    ]
  }

  datatype Kind = LeftParen | RightParen | OpKind | CommaKind | QuotedKind | WordKind

  datatype Token = Token(kind: Kind, value: string, position: nat)

  datatype Keyword = KeyAnd | KeyOr | KeyNot | NoKeyword

  /** The keyword a word token reads as, in any case; `-` is a negation. */
  function KeywordOf(kind: Kind, value: string): Keyword {
    if kind != WordKind then NoKeyword
    else
      var upper := Upper(value);
      if upper == "AND" then KeyAnd else if upper == "OR" then KeyOr
      else if upper == "NOT" || upper == "-" then KeyNot else NoKeyword
  }

  /** What the grammar sees of a token. */
  datatype Lexeme = Lexeme(kind: Kind, value: string, keyword: Keyword)

  function Lex(kind: Kind, value: string): Lexeme {
    Lexeme(kind, value, KeywordOf(kind, value))
  }

  function Lexemes(tokens: seq<Token>): (r: seq<Lexeme>)
    ensures |r| == |tokens|
    ensures forall i :: 0 <= i < |r| ==> r[i] == Lex(tokens[i].kind, tokens[i].value)
  {
    seq(|tokens|, i requires 0 <= i < |tokens| => Lex(tokens[i].kind, tokens[i].value))
  }
}
