/**
 What a user asks for with a comparison (app/search/query.py:20-50, 61-100, 395-424), said without the
 compiler's own tables: how an operator compares a cell with a value, and what a text stands for in a column.
 */
module SearchIntent {
  import opened Options
  import opened QuerySyntax
  import opened QueryAst
  import opened LikePatterns
  import opened Sql

  // ---------- Values in order ----------

  predicate IsNumber(v: Value, x: real) {
    v == RealValue(x) || (v.IntValue? && v.n as real == x)
  }

  /** Equal, where whole and fractional numbers are compared as numbers. */
  ghost predicate Same(a: Value, b: Value) {
    a == b || exists x :: IsNumber(a, x) && IsNumber(b, x)
  }

  /** `a` is a proper prefix of `b`, or smaller where they first differ. */
  ghost predicate TextBefore(a: string, b: string) {
    exists k :: TextBeforeAt(a, b, k)
  }

  predicate TextBeforeAt(a: string, b: string, k: nat) {
    k <= |a| && k < |b| && a[..k] == b[..k] && (k == |a| || a[k] < b[k])
  }

  /** `a` comes strictly before `b`: a smaller number, an earlier instant or a smaller text. */
  ghost predicate Before(a: Value, b: Value) {
    || (exists x, y :: IsNumber(a, x) && IsNumber(b, y) && x < y)
    || (a.TimeValue? && b.TimeValue? && a.instant < b.instant)
    || (a.TextValue? && b.TextValue? && TextBefore(a.s, b.s))
  }

  /** How a cell stands to a value under an operator as it is typed. */
  ghost predicate Asks(operator: string, cell: Value, value: Value) {
    if operator == ">" then Before(value, cell)
    else if operator == "<" then Before(cell, value)
    else if operator == ">=" then Before(value, cell) || Same(cell, value)
    else if operator == "<=" then Before(cell, value) || Same(cell, value)
    else if operator == "!=" || operator == "<>" then !Same(cell, value)
    else (operator == "=" || operator == "==" || operator == ":") && Same(cell, value)
  }

  // ---------- Texts in columns ----------

  predicate HoldsWholeNumbers(column: string) {
    column == "status_code" || column == "bytes_sent"
  }

  predicate HoldsNumbers(column: string) {
    HoldsWholeNumbers(column) || column == "response_time_ms"
  }

  predicate HoldsTimes(column: string) {
    column == "timestamp" || column == "ingested_at"
  }

  /** `v` is the value a text stands for in a column. */
  predicate StandsFor(co: Conversions, column: string, text: string, v: Value) {
    if HoldsWholeNumbers(column) then v.IntValue? && co.toInt(text) == Some(v.n)
    else if HoldsNumbers(column) then v.RealValue? && co.toFloat(text) == Some(v.x)
    else if HoldsTimes(column) then v.TimeValue? && co.toTime(text) == Some(v.instant)
    else v == TextValue(text)
  }

  /** `~` always matches, and so does every operator given a star, except where numbers are stored. */
  predicate MatchesText(column: string, operator: string, text: string) {
    operator == "~" || ('*' in text && !HoldsNumbers(column))
  }

  /** What a comparison asks of a cell that is there. */
  ghost predicate Asked(
      co: Conversions, column: string, operator: string, texts: seq<string>, cell: Cell, fold: char -> char)
    requires cell.Cell?
  {
    if |texts| != 1 then exists i, v :: 0 <= i < |texts| && StandsFor(co, column, texts[i], v) && Same(cell.value, v)
    else if MatchesText(column, operator, texts[0]) then Denotes(cell.text, texts[0], fold)
    else exists v :: StandsFor(co, column, texts[0], v) && Asks(operator, cell.value, v)
  }

  /** Whether a comparison is true on a row: unknown where the cell is missing. */
  ghost function CompareTruth(co: Conversions, column: string, operator: string, texts: seq<string>, row: Row): Truth {
    var cell := CellOf(row, column);
    if cell.Null? then Unknown else Decide(Asked(co, column, operator, texts, cell, row.fold))
  }

  // ---------- The compiler's tables agree ----------

  lemma NumbersAreNumbers(v: Value, x: real)
    ensures IsNumber(v, x) <==> Number(v) == Some(x)
  {
  }

  lemma SameIsEqual(a: Value, b: Value)
    ensures Same(a, b) <==> Equal(a, b)
  {
    if Number(a).Some? && Number(b).Some? {
      NumbersAreNumbers(a, Number(a).value);
      NumbersAreNumbers(b, Number(b).value);
    }
  }

  lemma {:induction false} TextLessIsBefore(a: string, b: string)
    ensures TextLess(a, b) <==> TextBefore(a, b)
    decreases a
  {
    if b != [] && a != [] && a[0] == b[0] {
      TextLessIsBefore(a[1..], b[1..]);
      if k: nat :| TextBeforeAt(a[1..], b[1..], k) { LaterBefore(a, b, k); }
      if k: nat :| TextBeforeAt(a, b, k) { EarlierBefore(a, b, k); }
    } else if b != [] {
      if a == [] || a[0] < b[0] { assert TextBeforeAt(a, b, 0); }
      if k: nat :| TextBeforeAt(a, b, k) {
        if k > 0 { assert a[..k][0] == b[..k][0]; }
      }
    }
  }

  lemma LaterBefore(a: string, b: string, k: nat)
    requires a != [] && b != [] && a[0] == b[0] && TextBeforeAt(a[1..], b[1..], k)
    ensures TextBeforeAt(a, b, k + 1)
  {
    assert a[..k + 1] == [a[0]] + a[1..][..k] && b[..k + 1] == [b[0]] + b[1..][..k];
  }

  lemma EarlierBefore(a: string, b: string, k: nat)
    requires a != [] && b != [] && a[0] == b[0] && TextBeforeAt(a, b, k)
    ensures k > 0 && TextBeforeAt(a[1..], b[1..], k - 1)
  {
    assert a[1..][..k - 1] == a[..k][1..] && b[1..][..k - 1] == b[..k][1..];
  }

  lemma BeforeIsLess(a: Value, b: Value)
    ensures Before(a, b) <==> Less(a, b)
  {
    if a.TextValue? && b.TextValue? { TextLessIsBefore(a.s, b.s); }
    if Number(a).Some? && Number(b).Some? {
      NumbersAreNumbers(a, Number(a).value);
      NumbersAreNumbers(b, Number(b).value);
    }
  }

  /** Every operator of the table compares as it is read. */
  lemma OperatorsMean(operator: string, cell: Value, value: Value)
    requires operator in SqlOperators()
    ensures Holds(SqlOperators()[operator], cell, value) <==> Asks(operator, cell, value)
  {
    hide Same, Before, Equal, Less;
    SameIsEqual(cell, value);
    BeforeIsLess(cell, value);
    BeforeIsLess(value, cell);
  }

  /** A text is converted to exactly the value it stands for, or stands for none. */
  lemma CoerceMeans(co: Conversions, column: string, text: string, v: Value)
    ensures Coerce(co, column, text) == Ok(v) <==> StandsFor(co, column, text, v)
  {
  }

  lemma PatternsMean(column: string, operator: string, text: string)
    ensures IsPattern(column, operator, text) <==> MatchesText(column, operator, text)
  {
  }

  // ---------- Names of fields ----------

  /** A name of small letters and underscores. */
  predicate Plain(name: string) {
    forall i :: 0 <= i < |name| ==> 'a' <= name[i] <= 'z' || name[i] == '_'
  }

  lemma PlainIsKey(name: string)
    requires Plain(name)
    ensures Lower(Strip(name)) == name
  {
    assert StripLeft(name) == name;
    assert StripRight(name) == name;
    assert Strip(name) == name;
    assert Lower(name) == name;
  }

  lemma Alias(name: string, column: string)
    requires Plain(name) && name in FieldAliases() && FieldAliases()[name] == column && column in QueryableColumns()
    ensures ResolveColumn(name) == Ok(column)
  {
    PlainIsKey(name);
  }

  /** The short names of what a request was. */
  lemma RequestNames()
    ensures ResolveColumn("ip") == Ok("ip_address")
    ensures ResolveColumn("client_ip") == Ok("ip_address")
    ensures ResolveColumn("path") == Ok("endpoint")
    ensures ResolveColumn("url") == Ok("endpoint")
    ensures ResolveColumn("method") == Ok("http_method")
    ensures ResolveColumn("ua") == Ok("user_agent")
  {
    hide ResolveColumn;
    Alias("ip", "ip_address");
    Alias("client_ip", "ip_address");
    Alias("path", "endpoint");
    Alias("url", "endpoint");
    Alias("method", "http_method");
    Alias("ua", "user_agent");
  }

  /** The short names of what came of it. */
  lemma OutcomeNames()
    ensures ResolveColumn("status") == Ok("status_code")
    ensures ResolveColumn("bytes") == Ok("bytes_sent")
    ensures ResolveColumn("duration") == Ok("response_time_ms")
    ensures ResolveColumn("latency") == Ok("response_time_ms")
    ensures ResolveColumn("response_time") == Ok("response_time_ms")
    ensures ResolveColumn("time") == Ok("timestamp")
  {
    hide ResolveColumn;
    Alias("status", "status_code");
    Alias("bytes", "bytes_sent");
    Alias("duration", "response_time_ms");
    Alias("latency", "response_time_ms");
    Alias("response_time", "response_time_ms");
    Alias("time", "timestamp");
  }

  /** The short names of where a record comes from. */
  lemma OriginNames()
    ensures ResolveColumn("host") == Ok("hostname")
    ensures ResolveColumn("app") == Ok("service")
    ensures ResolveColumn("user") == Ok("user_id")
    ensures ResolveColumn("trace_id") == Ok("request_id")
    ensures ResolveColumn("msg") == Ok("message")
    ensures ResolveColumn("severity") == Ok("level")
  {
    hide ResolveColumn;
    Alias("host", "hostname");
    Alias("app", "service");
    Alias("user", "user_id");
    Alias("trace_id", "request_id");
    Alias("msg", "message");
    Alias("severity", "level");
  }

  lemma ColumnsArePlain(column: string)
    requires column in QueryableColumns()
    ensures Plain(column)
  {
  }

  lemma ColumnsAreNoAliases(column: string)
    requires column in FieldAliases()
    ensures column !in QueryableColumns()
  {
  }

  /** Every column goes by its own name. */
  lemma ColumnNames(column: string)
    requires column in QueryableColumns()
    ensures ResolveColumn(column) == Ok(column)
  {
    hide Lower, Strip, Plain, FieldAliases, QueryableColumns;
    if column in FieldAliases() { ColumnsAreNoAliases(column); }
    ColumnsArePlain(column);
    PlainIsKey(column);
  }

  lemma {:induction false} StripLeftBlanks(blanks: string, s: string)
    requires forall i :: 0 <= i < |blanks| ==> IsSpace(blanks[i])
    ensures StripLeft(blanks + s) == StripLeft(s)
    decreases |blanks|
  {
    if blanks == "" {
      assert blanks + s == s;
    } else {
      assert (blanks + s)[1..] == blanks[1..] + s;
      StripLeftBlanks(blanks[1..], s);
    }
  }

  /** Capitals and blanks in front do not matter to a field name. */
  lemma NamesIgnoreCase(a: string, b: string, blanks: string)
    requires Lower(Strip(a)) == Lower(Strip(b)) && forall i :: 0 <= i < |blanks| ==> IsSpace(blanks[i])
    ensures ResolveColumn(blanks + a) == ResolveColumn(b)
  {
    StripLeftBlanks(blanks, a);
  }
}
