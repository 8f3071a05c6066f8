/**
 Queries as typed text (app/search/query.py:101-192, 465-479): writing the lexemes of a query with any
 blanks that keep them apart, and the proof that the tokenizer reads the same lexemes back.
 */
module QueryText {
  import opened QuerySyntax
  import opened QueryAst
  import opened Tokenizer
  import opened QueryPrinter

  predicate IsOperatorText(value: string) {
    value in {"=", "==", ":", "!=", "<>", ">", ">=", "<", "<=", "~"}
  }

  /** A bare word, which may hold colons unless what comes before one of them is a field name. */
  predicate SpellableWord(value: string) {
    && 1 <= |value| <= 512 && value[0] != ':'
    && (forall i :: 0 <= i < |value| ==> IsWordChar(value[i]) || value[i] == ':')
    && forall i :: 0 < i < |value| && value[i] == ':' ==> !IsFieldName(value[..i])
  }

  /** A lexeme that can be typed: short enough, and without the characters that would end it. */
  predicate Spellable(lex: Lexeme) {
    match lex.kind
    case LeftParen => lex.value == "("
    case RightParen => lex.value == ")"
    case OpKind => IsOperatorText(lex.value)
    case CommaKind => lex.value == ","
    case QuotedKind => |lex.value| <= 512 && !('"' in lex.value && '\'' in lex.value)
    case WordKind => SpellableWord(lex.value)
  }

  /** The lexeme reads as the keyword its text spells. */
  predicate HonestKeyword(lex: Lexeme) {
    lex.keyword == KeywordOf(lex.kind, lex.value)
  }

  function QuoteFor(value: string): char {
    if '"' in value then '\'' else '"'
  }

  function Spell(lex: Lexeme): string {
    if lex.kind == QuotedKind then [QuoteFor(lex.value)] + lex.value + [QuoteFor(lex.value)] else lex.value
  }

  predicate AllSpellable(lexes: seq<Lexeme>) {
    forall i :: 0 <= i < |lexes| ==> Spellable(lexes[i])
  }

  predicate AllHonest(lexes: seq<Lexeme>) {
    forall i :: 0 <= i < |lexes| ==> HonestKeyword(lexes[i])
  }

  // ---------- Layout ----------

  /** Typed next to each other, the two would be read as something else. */
  predicate Fuses(a: Lexeme, b: Lexeme) {
    || (a.kind == WordKind && b.kind == WordKind)
    || (a.kind == WordKind && b.kind == OpKind && b.value == ":" && !IsFieldName(a.value))
    || (a.kind == OpKind && b.kind == OpKind && |a.value| == 1 && b.value != ""
       && IsOperatorPair(a.value[0], b.value[0]))
  }

  predicate IsBlank(s: string) {
    forall i :: 0 <= i < |s| ==> IsSpace(s[i])
  }

  /** A gap before each lexeme, which may be empty where the two do not fuse. */
  predicate Spaced(lexes: seq<Lexeme>, gaps: seq<string>) {
    && |gaps| == |lexes|
    && (forall i :: 0 <= i < |gaps| ==> IsBlank(gaps[i]))
    && forall i :: 0 < i < |lexes| && gaps[i] == "" ==> !Fuses(lexes[i - 1], lexes[i])
  }

  function Lay(lexes: seq<Lexeme>, gaps: seq<string>): string
    requires |gaps| == |lexes|
  {
    if lexes == [] then "" else gaps[0] + (Spell(lexes[0]) + Lay(lexes[1..], gaps[1..]))
  }

  lemma SpacedRest(lexes: seq<Lexeme>, gaps: seq<string>)
    requires Spaced(lexes, gaps) && lexes != []
    ensures Spaced(lexes[1..], gaps[1..])
  {
    hide Fuses, IsBlank;
    forall i | 0 < i < |lexes| - 1 && gaps[1..][i] == "" ensures !Fuses(lexes[1..][i - 1], lexes[1..][i]) {
      assert gaps[i + 1] == "";
    }
  }

  /**
   A comparison can be typed without blanks, as in `level=ERROR`; before `:` the field must be a bare field
   name or quoted.
   */
  lemma ComparisonNeedsNoBlanks(field: Atom, operator: string, value: Atom)
    requires operator == ":" && !field.quoted ==> IsFieldName(field.text)
    ensures Spaced([AtomLexeme(field), Lex(OpKind, operator), AtomLexeme(value)], ["", "", ""])
  {
    hide IsFieldName, IsOperatorPair;
  }

  // ---------- Scanning one lexeme ----------

  lemma {:induction false} WordEndIs(text: string, pos: nat, limit: nat, end: nat)
    requires pos <= end <= |text| && end - pos <= limit
    requires forall i :: pos <= i < end ==> IsWordChar(text[i])
    requires end == |text| || !IsWordChar(text[end])
    ensures WordEnd(text, pos, limit) == end
    decreases limit
  {
    if pos < end { WordEndIs(text, pos + 1, limit - 1, end); }
  }

  lemma {:induction false} QuoteEndIs(text: string, pos: nat, quote: char, end: nat)
    requires pos <= end < |text| && text[end] == quote
    requires forall i :: pos <= i < end ==> text[i] != quote
    ensures QuoteEnd(text, pos, quote) == end
    decreases end - pos
  {
    if pos < end { QuoteEndIs(text, pos + 1, quote, end); }
  }

  /** `piece` stands at `pos` in the text. */
  predicate StandsAt(text: string, pos: nat, piece: string) {
    pos + |piece| <= |text| && text[pos..pos + |piece|] == piece
  }

  lemma StandsAtParts(text: string, pos: nat, piece: string, k: nat)
    requires StandsAt(text, pos, piece) && k <= |piece|
    ensures StandsAt(text, pos, piece[..k]) && StandsAt(text, pos + k, piece[k..])
    ensures k < |piece| ==> text[pos + k] == piece[k]
  {
    assert text[pos..pos + |piece|][..k] == text[pos..pos + k];
    assert text[pos..pos + |piece|][k..] == text[pos + k..pos + |piece|];
    if k < |piece| { assert text[pos..pos + |piece|][k] == text[pos + k]; }
  }

  /** What follows `lex` at `end` does not prolong it. */
  predicate Stops(lex: Lexeme, text: string, end: nat) {
    end < |text| ==>
      && (lex.kind == WordKind ==> !IsWordChar(text[end]))
      && (lex.kind == OpKind && |lex.value| == 1 ==> !IsOperatorPair(lex.value[0], text[end]))
  }

  lemma ScanFound(text: string, pos: nat, kind: Kind, end: nat, rest: seq<Token>)
    requires pos < |text| && MatchAt(text, pos) == Found(kind, end) && Scan(text, end) == Ok(rest)
    ensures Scan(text, pos) == Ok([TokenAt(text, pos, kind, end)] + rest)
  {
  }

  /** The first colon of a word, or its end. */
  function Chunk(word: string): (n: nat)
    ensures n <= |word| && (forall i :: 0 <= i < n ==> word[i] != ':') && (n < |word| ==> word[n] == ':')
  {
    if word == "" || word[0] == ':' then 0 else 1 + Chunk(word[1..])
  }

  /** The tokens a word is scanned as, before colons are re-attached. */
  function RawWord(word: string, pos: nat): seq<Token>
    decreases |word|
  {
    if word == "" then []
    else if word[0] == ':' then [Token(OpKind, ":", pos)] + RawWord(word[1..], pos + 1)
    else [Token(WordKind, word[..Chunk(word)], pos)] + RawWord(word[Chunk(word)..], pos + Chunk(word))
  }

  function Raw(lex: Lexeme, pos: nat): seq<Token> {
    if lex.kind == WordKind then RawWord(lex.value, pos) else [Token(lex.kind, lex.value, pos)]
  }

  lemma ColonMatches(text: string, pos: nat)
    requires pos < |text| && text[pos] == ':'
    ensures MatchAt(text, pos) == Found(OpKind, pos + 1)
    ensures TokenAt(text, pos, OpKind, pos + 1) == Token(OpKind, ":", pos)
  {
  }

  lemma ChunkMatches(text: string, pos: nat, chunk: string)
    requires StandsAt(text, pos, chunk) && 1 <= |chunk| <= 512
    requires forall i :: 0 <= i < |chunk| ==> IsWordChar(chunk[i])
    requires pos + |chunk| < |text| ==> !IsWordChar(text[pos + |chunk|])
    ensures pos < |text| && MatchAt(text, pos) == Found(WordKind, pos + |chunk|)
    ensures TokenAt(text, pos, WordKind, pos + |chunk|) == Token(WordKind, chunk, pos)
  {
    forall i | pos <= i < pos + |chunk| ensures IsWordChar(text[i]) {
      assert text[i] == text[pos..pos + |chunk|][i - pos];
    }
    WordEndIs(text, pos, 512, pos + |chunk|);
    assert IsWordChar(text[pos]);
  }

  predicate WordText(word: string) {
    |word| <= 512 && forall i :: 0 <= i < |word| ==> IsWordChar(word[i]) || word[i] == ':'
  }

  lemma RawWordOpens(word: string, pos: nat)
    requires word != ""
    ensures word[0] == ':' ==> RawWord(word, pos) == [Token(OpKind, ":", pos)] + RawWord(word[1..], pos + 1)
    ensures word[0] != ':' ==> 0 < Chunk(word) <= |word|
    ensures word[0] != ':' ==>
              RawWord(word, pos) == [Token(WordKind, word[..Chunk(word)], pos)]
                  + RawWord(word[Chunk(word)..], pos + Chunk(word))
  {
  }

  lemma ColonScans(text: string, pos: nat, word: string, rest: seq<Token>)
    requires pos < |text| && text[pos] == ':' && word != "" && word[0] == ':'
    requires Scan(text, pos + 1) == Ok(RawWord(word[1..], pos + 1) + rest)
    ensures Scan(text, pos) == Ok(RawWord(word, pos) + rest)
  {
    hide MatchAt, Scan, TokenAt, RawWord;
    RawWordOpens(word, pos);
    ColonMatches(text, pos);
    ScanFound(text, pos, OpKind, pos + 1, RawWord(word[1..], pos + 1) + rest);
    Together(Token(OpKind, ":", pos), RawWord(word[1..], pos + 1), rest);
  }

  lemma Together<T>(first: T, middle: seq<T>, rest: seq<T>)
    ensures [first] + middle + rest == [first] + (middle + rest)
  {
  }

  lemma ChunkScans(text: string, pos: nat, word: string, rest: seq<Token>)
    requires WordText(word) && StandsAt(text, pos, word) && word != "" && word[0] != ':'
    requires pos + |word| < |text| ==> !IsWordChar(text[pos + |word|])
    requires Scan(text, pos + Chunk(word)) == Ok(RawWord(word[Chunk(word)..], pos + Chunk(word)) + rest)
    ensures Scan(text, pos) == Ok(RawWord(word, pos) + rest)
  {
    hide MatchAt, Scan, TokenAt, RawWord;
    var n := Chunk(word);
    RawWordOpens(word, pos);
    StandsAtParts(text, pos, word, n);
    ColonEndsChunk();
    ChunkMatches(text, pos, word[..n]);
    ScanFound(text, pos, WordKind, pos + n, RawWord(word[n..], pos + n) + rest);
    Together(Token(WordKind, word[..n], pos), RawWord(word[n..], pos + n), rest);
  }

  lemma WordTextSuffix(word: string, n: nat)
    requires WordText(word) && n <= |word|
    ensures WordText(word[n..])
  {
  }

  lemma {:induction false} WordScans(text: string, pos: nat, word: string, rest: seq<Token>)
    requires StandsAt(text, pos, word) && WordText(word)
    requires pos + |word| < |text| ==> !IsWordChar(text[pos + |word|])
    requires Scan(text, pos + |word|) == Ok(rest)
    ensures Scan(text, pos) == Ok(RawWord(word, pos) + rest)
    decreases |word|
  {
    hide Scan, RawWord, StandsAt, WordText, IsWordChar;
    if word == "" {
      EmptyRaw(pos, rest);
    } else {
      var n := if word[0] == ':' then 1 else Chunk(word);
      RawWordOpens(word, pos);
      StandsAtParts(text, pos, word, 0);
      StandsAtParts(text, pos, word, n);
      WordTextSuffix(word, n);
      WordScans(text, pos + n, word[n..], rest);
      StandsInside(text, pos, word);
      if word[0] == ':' { ColonScans(text, pos, word, rest); } else { ChunkScans(text, pos, word, rest); }
    }
  }

  lemma EmptyRaw(pos: nat, rest: seq<Token>)
    ensures RawWord("", pos) + rest == rest
  {
  }

  lemma StandsInside(text: string, pos: nat, piece: string)
    requires StandsAt(text, pos, piece)
    ensures pos + |piece| <= |text|
  {
  }

  lemma ColonEndsChunk()
    ensures !IsWordChar(':')
  {
  }

  lemma QuoteMatches(text: string, pos: nat, lex: Lexeme)
    requires Spellable(lex) && lex.kind == QuotedKind && StandsAt(text, pos, Spell(lex))
    ensures pos < |text| && MatchAt(text, pos) == Found(QuotedKind, pos + |lex.value| + 2)
    ensures text[pos + 1..pos + |lex.value| + 1] == lex.value
  {
    var quote := QuoteFor(lex.value);
    QuotedSpan(text, pos, quote, lex.value);
    QuoteEndIs(text, pos + 1, quote, pos + |lex.value| + 1);
  }

  lemma QuotedSpan(text: string, pos: nat, quote: char, value: string)
    requires StandsAt(text, pos, [quote] + value + [quote]) && quote !in value
    ensures pos + |value| + 2 <= |text| && text[pos] == text[pos + |value| + 1] == quote
    ensures text[pos + 1..pos + |value| + 1] == value
    ensures forall i :: pos + 1 <= i < pos + |value| + 1 ==> text[i] != quote
  {
    var span := [quote] + value + [quote];
    forall i | 0 <= i < |span| ensures text[pos + i] == span[i] {
      StandsAtParts(text, pos, span, i);
    }
    forall i | pos + 1 <= i < pos + |value| + 1 ensures text[i] == value[i - pos - 1] {
      assert text[pos + (i - pos)] == span[i - pos];
    }
  }

  lemma OperatorMatches(text: string, pos: nat, lex: Lexeme)
    requires Spellable(lex) && lex.kind == OpKind && StandsAt(text, pos, lex.value)
    requires Stops(lex, text, pos + |lex.value|)
    ensures pos < |text| && MatchAt(text, pos) == Found(OpKind, pos + |lex.value|)
  {
    var end := pos + |lex.value|;
    assert text[pos] == text[pos..end][0] == lex.value[0];
    if |lex.value| == 2 { assert text[pos + 1] == text[pos..end][1] == lex.value[1]; }
  }

  /** A lexeme that is not a word is one token. */
  lemma LexemeMatches(text: string, pos: nat, lex: Lexeme)
    requires Spellable(lex) && lex.kind != WordKind && StandsAt(text, pos, Spell(lex))
    requires Stops(lex, text, pos + |Spell(lex)|)
    ensures pos < |text| && MatchAt(text, pos) == Found(lex.kind, pos + |Spell(lex)|)
    ensures TokenAt(text, pos, lex.kind, pos + |Spell(lex)|) == Token(lex.kind, lex.value, pos)
  {
    hide IsOperatorText;
    if lex.kind == QuotedKind {
      QuoteMatches(text, pos, lex);
    } else if lex.kind == OpKind {
      OperatorMatches(text, pos, lex);
    } else {
      assert text[pos..pos + 1][0] == text[pos];
    }
  }

  /** Scanning one written lexeme yields its tokens and goes on right after it. */
  lemma LexemeScans(text: string, pos: nat, lex: Lexeme, rest: seq<Token>)
    requires Spellable(lex) && StandsAt(text, pos, Spell(lex)) && Stops(lex, text, pos + |Spell(lex)|)
    requires Scan(text, pos + |Spell(lex)|) == Ok(rest)
    ensures Scan(text, pos) == Ok(Raw(lex, pos) + rest)
  {
    hide MatchAt, Scan, TokenAt;
    if lex.kind == WordKind {
      WordScans(text, pos, lex.value, rest);
    } else {
      LexemeMatches(text, pos, lex);
      ScanFound(text, pos, lex.kind, pos + |Spell(lex)|, rest);
    }
  }

  /** What a lexeme's text opens with. */
  lemma SpellOpens(lex: Lexeme)
    requires Spellable(lex)
    ensures Spell(lex) != "" && !IsSpace(Spell(lex)[0]) && !IsSpace(Spell(lex)[|Spell(lex)| - 1])
    ensures lex.kind != WordKind ==> !IsWordChar(Spell(lex)[0])
    ensures lex.kind != OpKind ==> Spell(lex)[0] != '=' && Spell(lex)[0] != '>'
    ensures lex.kind == OpKind ==> Spell(lex)[0] == lex.value[0]
  {
  }

  // ---------- Scanning a whole text ----------

  function RawAll(lexes: seq<Lexeme>, gaps: seq<string>, pos: nat): seq<Token>
    requires |gaps| == |lexes|
  {
    if lexes == [] then []
    else
      var at := pos + |gaps[0]|;
      Raw(lexes[0], at) + RawAll(lexes[1..], gaps[1..], at + |Spell(lexes[0])|)
  }

  lemma {:induction false} SpaceEndIs(text: string, pos: nat, end: nat)
    requires pos <= end <= |text| && (forall i :: pos <= i < end ==> IsSpace(text[i]))
    requires end < |text| ==> !IsSpace(text[end])
    ensures SpaceEnd(text, pos) == end
    decreases end - pos
  {
    if pos < end { SpaceEndIs(text, pos + 1, end); }
  }

  lemma GapScans(text: string, pos: nat, gap: string)
    requires StandsAt(text, pos, gap) && IsBlank(gap) && pos + |gap| < |text| && !IsSpace(text[pos + |gap|])
    ensures Scan(text, pos) == Scan(text, pos + |gap|)
  {
    if gap != "" {
      forall i | pos <= i < pos + |gap| ensures IsSpace(text[i]) {
        assert text[i] == text[pos..pos + |gap|][i - pos];
      }
      SpaceEndIs(text, pos, pos + |gap|);
      assert MatchAt(text, pos) == Blank(pos + |gap|);
    }
  }

  /** What follows the first lexeme of a layout leaves it as it is. */
  lemma LayoutStops(text: string, end: nat, lexes: seq<Lexeme>, gaps: seq<string>)
    requires Spaced(lexes, gaps) && AllSpellable(lexes) && lexes != []
    requires StandsAt(text, end, Lay(lexes[1..], gaps[1..])) && end + |Lay(lexes[1..], gaps[1..])| == |text|
    ensures Stops(lexes[0], text, end)
  {
    hide IsFieldName, Spellable;
    if |lexes| > 1 {
      var rest, gap := Lay(lexes[1..], gaps[1..]), gaps[1];
      assert gaps[1..][0] == gap && lexes[1..][0] == lexes[1];
      SpellOpens(lexes[1]);
      StandsAtParts(text, end, rest, 0);
      if gap == "" {
        assert !Fuses(lexes[0], lexes[1]);
        assert rest[0] == Spell(lexes[1])[0];
      } else {
        assert rest[0] == gap[0] && IsSpace(gap[0]);
      }
    }
  }

  lemma NothingScans(text: string)
    ensures Scan(text, |text|) == Ok([])
  {
  }

  lemma {:induction false} LayScans(text: string, pos: nat, lexes: seq<Lexeme>, gaps: seq<string>)
    requires Spaced(lexes, gaps) && AllSpellable(lexes)
    requires StandsAt(text, pos, Lay(lexes, gaps)) && pos + |Lay(lexes, gaps)| == |text|
    ensures Scan(text, pos) == Ok(RawAll(lexes, gaps, pos))
    decreases |lexes|
  {
    hide Scan, Fuses, Spell, Spellable, Raw, Stops, IsSpace;
    if lexes == [] {
      NothingScans(text);
    } else {
      var lex, gap := lexes[0], gaps[0];
      var rest := Lay(lexes[1..], gaps[1..]);
      var at := pos + |gap|;
      var end := at + |Spell(lex)|;
      LaidOut(text, pos, gap, Spell(lex), rest);
      SpacedRest(lexes, gaps);
      LayScans(text, end, lexes[1..], gaps[1..]);
      LayoutStops(text, end, lexes, gaps);
      LexemeScans(text, at, lex, RawAll(lexes[1..], gaps[1..], end));
      SpellOpens(lex);
      StandsAtParts(text, at, Spell(lex), 0);
      GapScans(text, pos, gap);
    }
  }

  lemma LaidOut(text: string, pos: nat, gap: string, spell: string, rest: string)
    requires StandsAt(text, pos, gap + (spell + rest)) && pos + |gap + (spell + rest)| == |text|
    ensures StandsAt(text, pos, gap) && StandsAt(text, pos + |gap|, spell)
    ensures StandsAt(text, pos + |gap| + |spell|, rest)
  {
    var whole := gap + (spell + rest);
    StandsAtParts(text, pos, whole, |gap|);
    assert whole[..|gap|] == gap && whole[|gap|..] == spell + rest;
    StandsAtParts(text, pos + |gap|, spell + rest, |spell|);
    assert (spell + rest)[..|spell|] == spell && (spell + rest)[|spell|..] == rest;
  }

  // ---------- Re-attaching colons ----------

  /** `rest` does not go on with a word at `end`. */
  predicate NoWordAt(rest: seq<Token>, end: nat) {
    rest != [] ==> !(rest[0].kind == WordKind && rest[0].position == end)
  }

  lemma MergePushes(merged: seq<Token>, token: Token, rest: seq<Token>)
    requires merged == [] || !IsValueColon(merged[|merged| - 1], token)
    ensures Merge(merged, [token] + rest) == Merge(merged + [token], rest)
  {
    assert ([token] + rest)[1..] == rest;
  }

  lemma MergeGlues(merged: seq<Token>, word: Token, colon: Token, next: Token, rest: seq<Token>)
    requires IsValueColon(word, colon) && next.kind == WordKind && next.position == colon.position + 1
    ensures Merge(merged + [word], [colon, next] + rest) == Merge(merged + [Glue(word, ":" + next.value)], rest)
  {
    var tokens := [colon, next] + rest;
    assert tokens[2..] == rest && (merged + [word])[..|merged|] == merged;
  }

  lemma MergeEnds(merged: seq<Token>, word: Token, colon: Token, rest: seq<Token>)
    requires IsValueColon(word, colon) && NoWordAt(rest, colon.position + 1)
    ensures Merge(merged + [word], [colon] + rest) == Merge(merged + [Glue(word, ":")], rest)
  {
    var tokens := [colon] + rest;
    assert tokens[1..] == rest && (merged + [word])[..|merged|] == merged;
  }

  /** The colons of a word from `k` on are glued back to it. */
  lemma {:induction false} WordMerges(merged: seq<Token>, word: string, k: nat, pos: nat, rest: seq<Token>)
    requires SpellableWord(word) && 0 < k <= |word| && (k < |word| ==> word[k] == ':')
    requires NoWordAt(rest, pos + |word|)
    ensures Merge(merged + [Token(WordKind, word[..k], pos)], RawWord(word[k..], pos + k) + rest)
         == Merge(merged + [Token(WordKind, word, pos)], rest)
    decreases |word| - k
  {
    hide Merge, IsFieldName, RawWord, SpellableWord, IsValueColon, NoWordAt;
    if k == |word| {
      assert word[..k] == word && word[k..] == "";
      EmptyRaw(pos + k, rest);
    } else {
      var suffix := word[k + 1..];
      if suffix == "" || suffix[0] == ':' {
        ColonEnds(merged, word, k, pos, rest);
        WordMerges(merged, word, k + 1, pos, rest);
      } else {
        ChunkGlues(merged, word, k, pos, rest);
        WordMerges(merged, word, k + 1 + Chunk(suffix), pos, rest);
      }
    }
  }

  /** A prefix of a word that ends before a colon, and that colon. */
  lemma PrefixAndColon(word: string, k: nat, pos: nat)
    requires SpellableWord(word) && 0 < k < |word| && word[k] == ':'
    ensures IsValueColon(Token(WordKind, word[..k], pos), Token(OpKind, ":", pos + k))
  {
    hide IsFieldName;
  }

  lemma ColonEnds(merged: seq<Token>, word: string, k: nat, pos: nat, rest: seq<Token>)
    requires SpellableWord(word) && 0 < k < |word| && word[k] == ':' && (k + 1 == |word| || word[k + 1] == ':')
    requires NoWordAt(rest, pos + |word|)
    ensures Merge(merged + [Token(WordKind, word[..k], pos)], RawWord(word[k..], pos + k) + rest)
         == Merge(merged + [Token(WordKind, word[..k + 1], pos)], RawWord(word[k + 1..], pos + k + 1) + rest)
  {
    hide Merge, IsFieldName, SpellableWord, IsValueColon;
    var suffix, later := word[k + 1..], RawWord(word[k + 1..], pos + k + 1) + rest;
    assert word[k..][1..] == suffix && word[..k] + ":" == word[..k + 1];
    if suffix == "" { EmptyRaw(pos + k + 1, rest); } else { RawWordOpens(suffix, pos + k + 1); }
    RawWordOpens(word[k..], pos + k);
    Together(Token(OpKind, ":", pos + k), RawWord(suffix, pos + k + 1), rest);
    PrefixAndColon(word, k, pos);
    MergeEnds(merged, Token(WordKind, word[..k], pos), Token(OpKind, ":", pos + k), later);
  }

  lemma ChunkGlues(merged: seq<Token>, word: string, k: nat, pos: nat, rest: seq<Token>)
    requires SpellableWord(word) && 0 < k < |word| - 1 && word[k] == ':' && word[k + 1] != ':'
    ensures var m := k + 1 + Chunk(word[k + 1..]);
            && k + 1 < m <= |word| && (m < |word| ==> word[m] == ':')
            && Merge(merged + [Token(WordKind, word[..k], pos)], RawWord(word[k..], pos + k) + rest)
            == Merge(merged + [Token(WordKind, word[..m], pos)], RawWord(word[m..], pos + m) + rest)
  {
    hide Merge, IsFieldName, SpellableWord, IsValueColon, RawWord, Chunk;
    var suffix, n := word[k + 1..], Chunk(word[k + 1..]);
    var colon, next := Token(OpKind, ":", pos + k), Token(WordKind, suffix[..n], pos + k + 1);
    var later := RawWord(suffix[n..], pos + k + 1 + n);
    RawWordOpens(word[k..], pos + k);
    assert word[k..][1..] == suffix;
    RawWordOpens(suffix, pos + k + 1);
    TwoTogether(colon, next, later, rest);
    assert word[..k] + (":" + suffix[..n]) == word[..k + 1 + n] && word[k + 1 + n..] == suffix[n..];
    PrefixAndColon(word, k, pos);
    MergeGlues(merged, Token(WordKind, word[..k], pos), colon, next, later + rest);
  }

  lemma TwoTogether<T>(a: T, b: T, middle: seq<T>, rest: seq<T>)
    ensures [a] + ([b] + middle) + rest == [a, b] + (middle + rest)
  {
  }

  /** The tokens of a layout once colons are re-attached: one for each lexeme. */
  function TokensOf(lexes: seq<Lexeme>, gaps: seq<string>, pos: nat): (r: seq<Token>)
    requires |gaps| == |lexes|
    ensures |r| == |lexes| && forall i :: 0 <= i < |r| ==> r[i].kind == lexes[i].kind && r[i].value == lexes[i].value
  {
    if lexes == [] then []
    else
      var at := pos + |gaps[0]|;
      [Token(lexes[0].kind, lexes[0].value, at)] + TokensOf(lexes[1..], gaps[1..], at + |Spell(lexes[0])|)
  }

  lemma LexemeMerges(merged: seq<Token>, lex: Lexeme, pos: nat, rest: seq<Token>)
    requires Spellable(lex) && (merged == [] || !IsValueColon(merged[|merged| - 1], Token(lex.kind, lex.value, pos)))
    requires lex.kind == WordKind ==> NoWordAt(rest, pos + |lex.value|)
    ensures Merge(merged, Raw(lex, pos) + rest) == Merge(merged + [Token(lex.kind, lex.value, pos)], rest)
  {
    hide Merge, IsFieldName, IsOperatorText, RawWord, NoWordAt;
    if lex.kind == WordKind {
      var n := Chunk(lex.value);
      var first := Token(WordKind, lex.value[..n], pos);
      var later := RawWord(lex.value[n..], pos + n) + rest;
      RawWordOpens(lex.value, pos);
      Together(first, RawWord(lex.value[n..], pos + n), rest);
      MergePushes(merged, first, later);
      WordMerges(merged, lex.value, n, pos, rest);
    } else {
      MergePushes(merged, Token(lex.kind, lex.value, pos), rest);
    }
  }

  /** In a layout, no colon operator touches a word that is not a field name, and no two words touch. */
  lemma GapKeepsApart(lexes: seq<Lexeme>, gaps: seq<string>, at: nat)
    requires Spaced(lexes, gaps) && AllSpellable(lexes) && |lexes| > 1
    ensures var end := at + |Spell(lexes[0])|;
            && !IsValueColon(Token(lexes[0].kind, lexes[0].value, at),
               Token(lexes[1].kind, lexes[1].value, end + |gaps[1]|))
            && (lexes[0].kind == WordKind ==> NoWordAt(RawAll(lexes[1..], gaps[1..], end), at + |lexes[0].value|))
  {
    hide IsFieldName, IsBlank, RawWord;
    assert gaps[1..][0] == gaps[1] && lexes[1..][0] == lexes[1];
    assert gaps[1] == "" ==> !Fuses(lexes[0], lexes[1]);
    if lexes[0].kind == WordKind && lexes[1].kind == WordKind {
      FirstRaw(lexes[1], at + |Spell(lexes[0])| + |gaps[1]|);
    }
  }

  lemma FirstRaw(lex: Lexeme, pos: nat)
    requires Spellable(lex)
    ensures Raw(lex, pos) != [] && Raw(lex, pos)[0].position == pos
  {
  }

  /** The first lexeme of a layout is no colon to attach to what is merged already. */
  predicate Clear(merged: seq<Token>, lexes: seq<Lexeme>, gaps: seq<string>, pos: nat)
    requires |gaps| == |lexes|
  {
    merged != [] && lexes != [] ==>
      !IsValueColon(merged[|merged| - 1], Token(lexes[0].kind, lexes[0].value, pos + |gaps[0]|))
  }

  lemma LayMergesOne(merged: seq<Token>, lexes: seq<Lexeme>, gaps: seq<string>, pos: nat)
    requires Spaced(lexes, gaps) && AllSpellable(lexes) && lexes != [] && Clear(merged, lexes, gaps, pos)
    ensures var at := pos + |gaps[0]|;
            var token, end := Token(lexes[0].kind, lexes[0].value, at), at + |Spell(lexes[0])|;
            && Merge(merged, RawAll(lexes, gaps, pos)) == Merge(merged + [token], RawAll(lexes[1..], gaps[1..], end))
            && Clear(merged + [token], lexes[1..], gaps[1..], end)
  {
    hide Raw, Spell, Spellable, IsValueColon, Fuses, IsBlank, Merge, NoWordAt;
    var at := pos + |gaps[0]|;
    var end := at + |Spell(lexes[0])|;
    if |lexes| > 1 {
      GapKeepsApart(lexes, gaps, at);
      assert gaps[1..][0] == gaps[1] && lexes[1..][0] == lexes[1];
    } else {
      NoWordAtEnd(at + |lexes[0].value|);
    }
    LexemeMerges(merged, lexes[0], at, RawAll(lexes[1..], gaps[1..], end));
  }

  lemma NoWordAtEnd(end: nat)
    ensures NoWordAt([], end)
  {
  }

  lemma {:induction false} LayMerges(merged: seq<Token>, lexes: seq<Lexeme>, gaps: seq<string>, pos: nat)
    requires |gaps| == |lexes| && Spaced(lexes, gaps) && AllSpellable(lexes) && Clear(merged, lexes, gaps, pos)
    ensures Merge(merged, RawAll(lexes, gaps, pos)) == merged + TokensOf(lexes, gaps, pos)
    decreases |lexes|
  {
    hide Merge, RawAll, Clear, Spaced, Spell, Spellable, TokensOf;
    if lexes == [] {
      NothingToMerge(merged, gaps, pos);
    } else {
      var at := pos + |gaps[0]|;
      var token, end := Token(lexes[0].kind, lexes[0].value, at), at + |Spell(lexes[0])|;
      SpacedRest(lexes, gaps);
      LayMergesOne(merged, lexes, gaps, pos);
      LayMerges(merged + [token], lexes[1..], gaps[1..], end);
      TokensOfOpens(lexes, gaps, pos);
      assert merged + ([token] + TokensOf(lexes[1..], gaps[1..], end))
          == merged + [token] + TokensOf(lexes[1..], gaps[1..], end);
    }
  }

  lemma NothingToMerge(merged: seq<Token>, gaps: seq<string>, pos: nat)
    requires gaps == []
    ensures Merge(merged, RawAll([], gaps, pos)) == merged + TokensOf([], gaps, pos)
  {
    assert merged + [] == merged;
  }

  lemma TokensOfOpens(lexes: seq<Lexeme>, gaps: seq<string>, pos: nat)
    requires |gaps| == |lexes| && lexes != []
    ensures var at := pos + |gaps[0]|;
            TokensOf(lexes, gaps, pos)
            == [Token(lexes[0].kind, lexes[0].value, at)] + TokensOf(lexes[1..], gaps[1..], at + |Spell(lexes[0])|)
  {
  }

  /** The tokenizer reads back exactly the lexemes that were written, in any layout that keeps them apart. */
  lemma TokenizeInvertsLay(lexes: seq<Lexeme>, gaps: seq<string>)
    requires AllSpellable(lexes) && AllHonest(lexes) && Spaced(lexes, gaps) && |Lay(lexes, gaps)| <= MAX_QUERY_LENGTH
    ensures TokenizeSpec(Lay(lexes, gaps)).Ok? && Lexemes(TokenizeSpec(Lay(lexes, gaps)).value) == lexes
  {
    hide Scan, Spellable, Fuses, IsBlank, RawAll;
    var text := Lay(lexes, gaps);
    assert text[0..|text|] == text;
    LayScans(text, 0, lexes, gaps);
    LayMerges([], lexes, gaps, 0);
    var tokens := TokensOf(lexes, gaps, 0);
    assert [] + tokens == tokens;
    forall i | 0 <= i < |tokens| ensures Lexemes(tokens)[i] == lexes[i] {
      assert HonestKeyword(lexes[i]);
    }
  }

  // ---------- Blanks around the text ----------

  lemma {:induction false} StripLeftTrims(a: string, x: string)
    requires IsBlank(a) && (x != "" ==> !IsSpace(x[0]))
    ensures StripLeft(a + x) == x
  {
    if a == "" {
      assert a + x == x;
    } else {
      assert (a + x)[1..] == a[1..] + x && (a + x)[0] == a[0];
      StripLeftTrims(a[1..], x);
    }
  }

  lemma {:induction false} StripRightTrims(x: string, b: string)
    requires IsBlank(b) && (x != "" ==> !IsSpace(x[|x| - 1]))
    ensures StripRight(x + b) == x
    decreases |b|
  {
    if b == "" {
      assert x + b == x;
    } else {
      assert (x + b)[..|x + b| - 1] == x + b[..|b| - 1] && (x + b)[|x + b| - 1] == b[|b| - 1];
      StripRightTrims(x, b[..|b| - 1]);
    }
  }

  lemma {:induction false} LayEnds(lexes: seq<Lexeme>, gaps: seq<string>)
    requires AllSpellable(lexes) && lexes != [] && |gaps| == |lexes|
    ensures Lay(lexes, gaps) != "" && !IsSpace(Lay(lexes, gaps)[|Lay(lexes, gaps)| - 1])
    decreases |lexes|
  {
    hide Spellable, Spell, IsSpace;
    SpellOpens(lexes[0]);
    if |lexes| > 1 { LayEnds(lexes[1..], gaps[1..]); }
  }

  lemma LayTrimmed(lexes: seq<Lexeme>, gaps: seq<string>)
    requires lexes != [] && |gaps| == |lexes|
    ensures Lay(lexes, gaps) == gaps[0] + Lay(lexes, gaps[0 := ""])
    ensures Lay(lexes, gaps[0 := ""]) == Spell(lexes[0]) + Lay(lexes[1..], gaps[1..])
  {
    assert gaps[0 := ""][1..] == gaps[1..];
  }

  lemma SpacedTrimmed(lexes: seq<Lexeme>, gaps: seq<string>)
    requires Spaced(lexes, gaps) && lexes != []
    ensures Spaced(lexes, gaps[0 := ""])
  {
    hide Fuses, IsSpace;
    assert IsBlank("");
  }

  /** Stripping leaves the layout without the blanks before its first lexeme and after its last. */
  lemma LayStrips(lexes: seq<Lexeme>, gaps: seq<string>, tail: string)
    requires AllSpellable(lexes) && Spaced(lexes, gaps) && lexes != [] && IsBlank(tail)
    ensures Strip(Lay(lexes, gaps) + tail) == Lay(lexes, gaps[0 := ""]) != ""
    ensures Spaced(lexes, gaps[0 := ""])
  {
    hide Spellable, Spell, IsSpace, StripLeft, StripRight, Fuses, Lay, IsBlank;
    SpacedTrimmed(lexes, gaps);
    SpellOpens(lexes[0]);
    LayEnds(lexes, gaps[0 := ""]);
    LayTrimmed(lexes, gaps);
    var trimmed := Lay(lexes, gaps[0 := ""]);
    assert Lay(lexes, gaps) + tail == gaps[0] + (trimmed + tail);
    StripLeftTrims(gaps[0], trimmed + tail);
    StripRightTrims(trimmed, tail);
  }

  // ---------- Queries ----------

  /** A query all of whose atoms and operators can be typed. */
  predicate Typeable(q: Query)
    decreases q, 1
  {
    match q
    case Compare(field, operator, values) =>
      && Spellable(AtomLexeme(field)) && IsOperatorText(operator)
      && forall i :: 0 <= i < |values| ==> Spellable(AtomLexeme(values[i]))
    case Words(text) => Spellable(AtomLexeme(text))
    case Negate(query) => Typeable(query)
    case Group(query) => Typeable(query)
    case Connect(_, parts) => AllTypeable(parts)
  }

  predicate AllTypeable(parts: seq<Query>)
    decreases parts, 0
  {
    parts == [] || (Typeable(parts[0]) && AllTypeable(parts[1..]))
  }

  lemma KeywordSpellable(word: string)
    requires KeywordOf(WordKind, word) != NoKeyword
    ensures Spellable(Lex(WordKind, word))
  {
    var upper := Upper(word);
    assert upper in {"AND", "OR", "NOT", "-"};
    forall i | 0 <= i < |word| ensures IsWordChar(word[i]) && word[i] != ':' {
      assert upper[i] == UpperChar(word[i]);
      assert upper[i] in "ANDORT-";
    }
  }

  lemma {:induction false} ValuesSpellable(values: seq<Atom>)
    requires forall i :: 0 <= i < |values| ==> Spellable(AtomLexeme(values[i]))
    ensures AllSpellable(ValueLexemes(values)) && AllHonest(ValueLexemes(values))
    decreases |values|
  {
    if |values| > 1 { ValuesSpellable(values[1..]); }
  }

  predicate Clean(lexes: seq<Lexeme>) {
    AllSpellable(lexes) && AllHonest(lexes)
  }

  lemma CleanJoin(a: seq<Lexeme>, b: seq<Lexeme>)
    requires Clean(a) && Clean(b)
    ensures Clean(a + b)
  {
    hide Spellable, HonestKeyword;
  }

  lemma CleanParens(body: seq<Lexeme>)
    requires Clean(body)
    ensures Clean([Lex(LeftParen, "(")] + body + [Lex(RightParen, ")")])
  {
    CleanJoin([Lex(LeftParen, "(")], body);
    CleanJoin([Lex(LeftParen, "(")] + body, [Lex(RightParen, ")")]);
  }

  lemma CleanKeyword(word: string)
    requires KeywordOf(WordKind, word) != NoKeyword
    ensures Clean([Lex(WordKind, word)])
  {
    KeywordSpellable(word);
  }

  lemma CleanComparison(field: Atom, operator: string, values: seq<Atom>)
    requires Typeable(Compare(field, operator, values))
    ensures Clean([AtomLexeme(field), Lex(OpKind, operator)] + ValueLexemes(values))
  {
    ValuesSpellable(values);
    assert Clean([AtomLexeme(field), Lex(OpKind, operator)]);
    CleanJoin([AtomLexeme(field), Lex(OpKind, operator)], ValueLexemes(values));
  }

  lemma {:induction false} PrintSpellable(style: Style, q: Query, level: Level)
    requires ValidStyle(style) && Typeable(q)
    ensures Clean(Print(style, q, level))
    decreases q, 2
  {
    hide Clean, Body;
    BodySpellable(style, q);
    CleanParens(Body(style, q));
  }

  lemma {:induction false} BodySpellable(style: Style, q: Query)
    requires ValidStyle(style) && Typeable(q)
    ensures Clean(Body(style, q))
    decreases q, 1
  {
    hide Clean, Print, Spellable;
    match q {
      case Compare(field, operator, values) => CleanComparison(field, operator, values);
      case Words(text) => CleanAtom(text);
      case Negate(query) =>
        CleanKeyword(style.notWord);
        PrintSpellable(style, query, TermLevel);
        CleanJoin([Lex(WordKind, style.notWord)], Print(style, query, TermLevel));
      case Group(query) =>
        PrintSpellable(style, query, OrLevel);
        CleanParens(Print(style, query, OrLevel));
      case Connect(connective, parts) =>
        if parts == [] {
          NothingClean();
        } else {
          PrintSpellable(style, parts[0], OperandLevel(connective));
          RestSpellable(style, connective, parts[1..]);
          CleanJoin(Print(style, parts[0], OperandLevel(connective)), PrintRest(style, connective, parts[1..]));
        }
    }
  }

  lemma CleanAtom(atom: Atom)
    requires Spellable(AtomLexeme(atom))
    ensures Clean([AtomLexeme(atom)])
  {
  }

  lemma NothingClean()
    ensures Clean([])
  {
  }

  lemma {:induction false} RestSpellable(style: Style, connective: Connective, parts: seq<Query>)
    requires ValidStyle(style) && AllTypeable(parts)
    ensures Clean(PrintRest(style, connective, parts))
    decreases parts, 0
  {
    hide Clean, Print, Spellable;
    if parts == [] {
      NothingClean();
    } else {
      var level := OperandLevel(connective);
      CleanKeyword(style.orWord);
      if style.andWord.Some? { CleanKeyword(style.andWord.value); } else { NothingClean(); }
      PrintSpellable(style, parts[0], level);
      CleanJoin(Separator(style, connective), Print(style, parts[0], level));
      RestSpellable(style, connective, parts[1..]);
      CleanJoin(Separator(style, connective) + Print(style, parts[0], level), PrintRest(style, connective, parts[1..]));
    }
  }
}
