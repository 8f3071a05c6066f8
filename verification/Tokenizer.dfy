/**
 The tokenizer and the pass that re-attaches colons to values (app/search/query.py:101-192).

 The token pattern is modelled by a scanner that tries its alternatives in the pattern's order.
 */
module Tokenizer {
  import opened QuerySyntax

  // ---------- The token pattern ----------

  /** One match of the pattern: blanks, a token, or nothing. */
  datatype Match = Blank(end: nat) | Found(kind: Kind, end: nat) | NoMatch

  /** A character that is an operator by itself. */
  predicate IsOperatorChar(c: char) {
    c == '=' || c == ':' || c == '>' || c == '<' || c == '~'
  }

  /** Two characters that make one operator. */
  predicate IsOperatorPair(c: char, next: char) {
    (next == '=' && (c == '>' || c == '<' || c == '!' || c == '=')) || (c == '<' && next == '>')
  }

  predicate IsWordChar(c: char) {
    !IsSpace(c) && !IsOperatorChar(c) && c != '(' && c != ')' && c != '!' && c != ',' && c != '"' && c != '\''
  }

  function SpaceEnd(text: string, pos: nat): (end: nat)
    requires pos <= |text|
    ensures pos <= end <= |text|
    ensures forall i :: pos <= i < end ==> IsSpace(text[i])
    decreases |text| - pos
  {
    if pos < |text| && IsSpace(text[pos]) then SpaceEnd(text, pos + 1) else pos
  }

  function WordEnd(text: string, pos: nat, limit: nat): (end: nat)
    requires pos <= |text|
    ensures pos <= end <= |text| && end <= pos + limit
    ensures forall i :: pos <= i < end ==> IsWordChar(text[i])
    decreases limit
  {
    if pos < |text| && limit > 0 && IsWordChar(text[pos]) then WordEnd(text, pos + 1, limit - 1) else pos
  }

  /** The first `quote` at or after `pos`, or the end of the text. */
  function QuoteEnd(text: string, pos: nat, quote: char): (end: nat)
    requires pos <= |text|
    ensures pos <= end <= |text|
    ensures forall i :: pos <= i < end ==> text[i] != quote
    ensures end < |text| ==> text[end] == quote
    decreases |text| - pos
  {
    if pos < |text| && text[pos] != quote then QuoteEnd(text, pos + 1, quote) else pos
  }

  function MatchAt(text: string, pos: nat): (m: Match)
    requires pos < |text|
    ensures !m.NoMatch? ==> pos < m.end <= |text|
  {
    var c := text[pos];
    if IsSpace(c) then Blank(SpaceEnd(text, pos))
    else if c == '(' then Found(LeftParen, pos + 1)
    else if c == ')' then Found(RightParen, pos + 1)
    else if pos + 1 < |text| && IsOperatorPair(c, text[pos + 1]) then Found(OpKind, pos + 2)
    else if IsOperatorChar(c) then Found(OpKind, pos + 1)
    else if c == ',' then Found(CommaKind, pos + 1)
    else if c == '"' || c == '\'' then
      var close := QuoteEnd(text, pos + 1, c);
      if close < |text| && close - pos - 1 <= 512 then Found(QuotedKind, close + 1) else NoMatch
    else if IsWordChar(c) then Found(WordKind, WordEnd(text, pos, 512))
    else NoMatch
  }

  function TokenAt(text: string, pos: nat, kind: Kind, end: nat): Token
    requires pos < end <= |text|
  {
    var value := if kind == QuotedKind && end - pos >= 2 then text[pos + 1..end - 1] else text[pos..end];
    Token(kind, value, pos)
  }

  /** The tokens from `pos` on. */
  function Scan(text: string, pos: nat): Result<seq<Token>>
    requires pos <= |text|
    decreases |text| - pos
  {
    if pos == |text| then Ok([])
    else match MatchAt(text, pos)
      case NoMatch => Err(UnexpectedCharacter(pos))
      case Blank(end) => Scan(text, end)
      case Found(kind, end) =>
        match Scan(text, end)
        case Err(e) => Err(e)
        case Ok(rest) => Ok([TokenAt(text, pos, kind, end)] + rest)
  }

  function TokenizeSpec(text: string): Result<seq<Token>> {
    if |text| > MAX_QUERY_LENGTH then Err(QueryTooLong)
    else match Scan(text, 0)
      case Err(e) => Err(e)
      case Ok(tokens) => Ok(Merge([], tokens))
  }

  method Tokenize(text: string) returns (r: Result<seq<Token>>)
    ensures r == TokenizeSpec(text)
  {
    if |text| > MAX_QUERY_LENGTH { return Err(QueryTooLong); }
    var tokens: seq<Token> := [];
    var position := 0;
    assert forall rest: seq<Token> :: tokens + rest == rest;
    while position < |text|
      invariant position <= |text|
      invariant Scan(text, 0) == match Scan(text, position)
                                 case Err(e) => Err(e)
                                 case Ok(rest) => Ok(tokens + rest)
    {
      match MatchAt(text, position) {
        case NoMatch => return Err(UnexpectedCharacter(position));
        case Blank(end) => position := end;
        case Found(kind, end) =>
          var token := TokenAt(text, position, kind, end);
          assert forall rest: seq<Token> :: tokens + ([token] + rest) == tokens + [token] + rest;
          tokens := tokens + [token];
          position := end;
      }
    }
    assert tokens + [] == tokens;
    var merged := MergeValueColons(tokens);
    return Ok(merged);
  }

  // ---------- Colons inside values ----------

  predicate IsColon(token: Token) {
    token.kind == OpKind && token.value == ":"
  }

  /** `token` is a colon glued to a preceding word that is not a field name. */
  predicate IsValueColon(previous: Token, token: Token) {
    && IsColon(token)
    && previous.kind == WordKind
    && !IsFieldName(previous.value)
    && token.position == previous.position + |previous.value|
  }

  function Glue(word: Token, suffix: string): Token {
    Token(WordKind, word.value + suffix, word.position)
  }

  /** The merging loop, from a given output list on. */
  function Merge(merged: seq<Token>, tokens: seq<Token>): seq<Token>
    decreases |tokens|
  {
    if tokens == [] then merged
    else if merged == [] || !IsValueColon(merged[|merged| - 1], tokens[0]) then
      Merge(merged + [tokens[0]], tokens[1..])
    else
      var previous := merged[|merged| - 1];
      if |tokens| > 1 && tokens[1].kind == WordKind && tokens[1].position == tokens[0].position + 1 then
        Merge(merged[..|merged| - 1] + [Glue(previous, ":" + tokens[1].value)], tokens[2..])
      else
        Merge(merged[..|merged| - 1] + [Glue(previous, ":")], tokens[1..])
  }

  method MergeValueColons(tokens: seq<Token>) returns (merged: seq<Token>)
    ensures merged == Merge([], tokens)
  {
    merged := [];
    var index := 0;
    while index < |tokens|
      invariant index <= |tokens|
      invariant Merge(merged, tokens[index..]) == Merge([], tokens)
    {
      var token := tokens[index];
      assert tokens[index..][1..] == tokens[index + 1..];
      if merged == [] || !IsValueColon(merged[|merged| - 1], token) {
        merged := merged + [token];
        index := index + 1;
        continue;
      }
      var previous := merged[|merged| - 1];
      merged := merged[..|merged| - 1];
      if index + 1 < |tokens| && tokens[index + 1].kind == WordKind
          && tokens[index + 1].position == token.position + 1 {
        assert tokens[index..][2..] == tokens[index + 2..];
        merged := merged + [Glue(previous, ":" + tokens[index + 1].value)];
        index := index + 2;
      } else {
        merged := merged + [Glue(previous, ":")];
        index := index + 1;
      }
    }
  }

  // ---------- Tokens tile the text ----------

  predicate Blanks(text: string, from: nat, to: nat)
    requires to <= |text|
  {
    forall i :: from <= i < to ==> IsSpace(text[i])
  }

  function End(token: Token): nat {
    token.position + |token.value| + if token.kind == QuotedKind then 2 else 0
  }

  /** `token` is what the text says at its position; a quoted token is its text without the quotes. */
  predicate IsAt(text: string, token: Token) {
    var pos := token.position;
    && pos < End(token) <= |text|
    && if token.kind == QuotedKind
       then (text[pos] == '"' || text[pos] == '\'') && text[End(token) - 1] == text[pos]
           && text[pos + 1..End(token) - 1] == token.value
       else text[pos..End(token)] == token.value
  }

  /** The tokens cover the text from `from` on: in order, without overlap, with only blanks between them. */
  predicate Tiles(text: string, tokens: seq<Token>, from: nat)
    requires from <= |text|
    decreases |tokens|
  {
    if tokens == [] then Blanks(text, from, |text|)
    else
      && IsAt(text, tokens[0])
      && from <= tokens[0].position
      && Blanks(text, from, tokens[0].position)
      && Tiles(text, tokens[1..], End(tokens[0]))
  }

  lemma {:induction false} BlanksExtend(text: string, from: nat, mid: nat, tokens: seq<Token>)
    requires from <= mid <= |text| && Blanks(text, from, mid) && Tiles(text, tokens, mid)
    ensures Tiles(text, tokens, from)
  {
  }

  lemma FoundIsAt(text: string, pos: nat)
    requires pos < |text| && MatchAt(text, pos).Found?
    ensures var m := MatchAt(text, pos);
            var token := TokenAt(text, pos, m.kind, m.end);
            IsAt(text, token) && token.position == pos && End(token) == m.end
  {
  }

  lemma {:induction false} ScanTiles(text: string, pos: nat)
    requires pos <= |text| && Scan(text, pos).Ok?
    ensures Tiles(text, Scan(text, pos).value, pos)
    decreases |text| - pos
  {
    if pos < |text| {
      match MatchAt(text, pos) {
        case Blank(end) =>
          ScanTiles(text, end);
          BlanksExtend(text, pos, end, Scan(text, end).value);
        case Found(kind, end) =>
          ScanTiles(text, end);
          FoundIsAt(text, pos);
          assert Scan(text, pos).value[1..] == Scan(text, end).value;
      }
    }
  }

  /** Where the tokens laid from `from` on end. */
  function Reach(tokens: seq<Token>, from: nat): nat {
    if tokens == [] then from else Reach(tokens[1..], End(tokens[0]))
  }

  predicate Laid(text: string, tokens: seq<Token>, from: nat) {
    tokens == [] || (
      && IsAt(text, tokens[0])
      && from <= tokens[0].position
      && Blanks(text, from, tokens[0].position)
      && Laid(text, tokens[1..], End(tokens[0])))
  }

  lemma {:induction false} TilesSplit(text: string, before: seq<Token>, after: seq<Token>, from: nat)
    requires from <= |text|
    ensures Tiles(text, before + after, from)
       <==> Laid(text, before, from) && Reach(before, from) <= |text| && Tiles(text, after, Reach(before, from))
    decreases |before|
  {
    if before == [] {
      assert before + after == after;
    } else {
      assert (before + after)[1..] == before[1..] + after;
      if IsAt(text, before[0]) {
        TilesSplit(text, before[1..], after, End(before[0]));
      }
    }
  }

  lemma GlueIsAt(text: string, word: Token, next: Token)
    requires word.kind == WordKind && next.kind != QuotedKind && next.position == End(word)
    requires IsAt(text, word) && IsAt(text, next)
    ensures IsAt(text, Glue(word, next.value)) && End(Glue(word, next.value)) == End(next)
  {
    assert text[word.position..End(next)] == text[word.position..End(word)] + text[End(word)..End(next)];
  }

  /** Gluing a token to the word it touches leaves a tiling. */
  lemma GlueTiles(text: string, before: seq<Token>, word: Token, next: Token, after: seq<Token>)
    requires word.kind == WordKind && next.kind != QuotedKind && next.position == End(word)
    requires Tiles(text, before + [word, next] + after, 0)
    ensures Tiles(text, before + [Glue(word, next.value)] + after, 0)
  {
    var old_, new_ := [word, next] + after, [Glue(word, next.value)] + after;
    assert before + [word, next] + after == before + old_;
    assert before + [Glue(word, next.value)] + after == before + new_;
    TilesSplit(text, before, old_, 0);
    TilesSplit(text, before, new_, 0);
    var tail := old_[1..];
    assert tail == [next] + after && tail[1..] == after && new_[1..] == after;
    GlueIsAt(text, word, next);
  }

  lemma {:induction false} MergeTiles(text: string, merged: seq<Token>, tokens: seq<Token>)
    requires Tiles(text, merged + tokens, 0)
    ensures Tiles(text, Merge(merged, tokens), 0)
    decreases |tokens|
  {
    if tokens == [] {
      assert merged + tokens == merged;
    } else if merged == [] || !IsValueColon(merged[|merged| - 1], tokens[0]) {
      assert merged + tokens == merged + [tokens[0]] + tokens[1..];
      MergeTiles(text, merged + [tokens[0]], tokens[1..]);
    } else {
      var before, previous := merged[..|merged| - 1], merged[|merged| - 1];
      var once := Glue(previous, ":");
      assert merged + tokens == before + [previous, tokens[0]] + tokens[1..];
      GlueTiles(text, before, previous, tokens[0], tokens[1..]);
      if |tokens| > 1 && tokens[1].kind == WordKind && tokens[1].position == tokens[0].position + 1 {
        assert before + [once] + tokens[1..] == before + [once, tokens[1]] + tokens[2..];
        GlueTiles(text, before, once, tokens[1], tokens[2..]);
        assert Glue(once, tokens[1].value) == Glue(previous, ":" + tokens[1].value);
        MergeTiles(text, before + [Glue(once, tokens[1].value)], tokens[2..]);
      } else {
        MergeTiles(text, before + [once], tokens[1..]);
      }
    }
  }

  /**
   Accepted text is exactly its tokens and the blanks between them, before and after colons are
   re-attached: every word still spells the text it spans.
   */
  lemma TokensTileTheText(text: string)
    requires TokenizeSpec(text).Ok?
    ensures Tiles(text, TokenizeSpec(text).value, 0)
  {
    ScanTiles(text, 0);
    var tokens := Scan(text, 0).value;
    assert [] + tokens == tokens;
    MergeTiles(text, [], tokens);
  }

  lemma {:induction false} TilesIncrease(text: string, tokens: seq<Token>, from: nat, i: nat, j: nat)
    requires from <= |text| && Tiles(text, tokens, from) && i < j < |tokens|
    ensures from <= tokens[i].position && End(tokens[i]) <= tokens[j].position
    decreases j
  {
    if i > 0 {
      TilesIncrease(text, tokens[1..], End(tokens[0]), i - 1, j - 1);
    } else if j > 1 {
      TilesIncrease(text, tokens[1..], End(tokens[0]), 0, j - 1);
    } else {
      assert tokens[1] == tokens[1..][0];
    }
  }

  // ---------- What the merge leaves ----------

  /** No colon is left glued to a preceding word that is not a field name. */
  predicate NoValueColons(tokens: seq<Token>) {
    forall i :: 0 < i < |tokens| ==> !IsValueColon(tokens[i - 1], tokens[i])
  }

  lemma {:induction false} MergeLeavesNoValueColons(merged: seq<Token>, tokens: seq<Token>)
    requires NoValueColons(merged)
    ensures NoValueColons(Merge(merged, tokens))
    decreases |tokens|
  {
    if tokens != [] {
      if merged == [] || !IsValueColon(merged[|merged| - 1], tokens[0]) {
        MergeLeavesNoValueColons(merged + [tokens[0]], tokens[1..]);
      } else {
        var before, previous := merged[..|merged| - 1], merged[|merged| - 1];
        if |tokens| > 1 && tokens[1].kind == WordKind && tokens[1].position == tokens[0].position + 1 {
          MergeLeavesNoValueColons(before + [Glue(previous, ":" + tokens[1].value)], tokens[2..]);
        } else {
          MergeLeavesNoValueColons(before + [Glue(previous, ":")], tokens[1..]);
        }
      }
    }
  }

  lemma {:induction false} MergeKeeps(merged: seq<Token>, tokens: seq<Token>)
    requires NoValueColons(merged + tokens)
    ensures Merge(merged, tokens) == merged + tokens
    decreases |tokens|
  {
    if tokens == [] {
      assert merged + tokens == merged;
    } else {
      var all := merged + tokens;
      assert merged == [] || (all[|merged| - 1] == merged[|merged| - 1] && all[|merged|] == tokens[0]);
      assert all == merged + [tokens[0]] + tokens[1..];
      MergeKeeps(merged + [tokens[0]], tokens[1..]);
    }
  }

  /** Merging is idempotent, and its output has no colon left to merge. */
  lemma MergeIsIdempotent(tokens: seq<Token>)
    ensures NoValueColons(Merge([], tokens))
    ensures Merge([], Merge([], tokens)) == Merge([], tokens)
  {
    MergeLeavesNoValueColons([], tokens);
    var once := Merge([], tokens);
    assert [] + once == once;
    MergeKeeps([], once);
  }
}
