/**
 What a page is sorted by and which columns it shows (app/storage/duckdb_engine.py:56-67, 225-231).
 */
module PageOrder {
  import opened QuerySyntax
  import QueryText
  import SearchIntent

  function Direction(direction: string): string {
    Upper(Strip(direction))
  }

  function SortedColumns(): seq<string> {
    ["bytes_sent", "endpoint", "environment", "event_id", "hostname", "http_method", "ingested_at", "ip_address",
     "level", "logger", "message", "parser", "raw_message", "referrer", "request_id", "response_time_ms",
     "service", "source", "source_type", "status_code", "timestamp", "user_agent", "user_id"]
  }

  // ---------- Directions ----------

  /** `word` is `capitals` in any mixture of cases. */
  predicate Spells(word: string, capitals: string) {
    |word| == |capitals| &&
    forall i :: 0 <= i < |word| ==> word[i] == capitals[i] || word[i] as int == capitals[i] as int + 32
  }

  /** `text` is `capitals` in any mixture of cases, with any blanks around it. */
  ghost predicate AsksFor(text: string, capitals: string) {
    exists i, j :: 0 <= i <= j <= |text| && AsksForAt(text, capitals, i, j)
  }

  predicate AsksForAt(text: string, capitals: string, i: nat, j: nat)
    requires i <= j <= |text|
  {
    QueryText.IsBlank(text[..i]) && Spells(text[i..j], capitals) && QueryText.IsBlank(text[j..])
  }

  lemma {:induction false} StripLeftDrops(s: string) returns (i: nat)
    ensures i <= |s| && QueryText.IsBlank(s[..i]) && StripLeft(s) == s[i..]
  {
    if s != [] && IsSpace(s[0]) {
      i := StripLeftDrops(s[1..]);
      assert s[1..][i..] == s[i + 1..] && s[..i + 1] == [s[0]] + s[1..][..i];
      i := i + 1;
    } else {
      i := 0;
    }
  }

  lemma {:induction false} StripRightDrops(s: string) returns (j: nat)
    ensures j <= |s| && QueryText.IsBlank(s[j..]) && StripRight(s) == s[..j]
    decreases |s|
  {
    if s != [] && IsSpace(s[|s| - 1]) {
      j := StripRightDrops(s[..|s| - 1]);
      assert s[..|s| - 1][..j] == s[..j] && s[j..] == s[..|s| - 1][j..] + [s[|s| - 1]];
    } else {
      j := |s|;
    }
  }

  lemma StripDrops(s: string) returns (i: nat, j: nat)
    ensures i <= j <= |s| && QueryText.IsBlank(s[..i]) && QueryText.IsBlank(s[j..]) && Strip(s) == s[i..j]
  {
    i := StripLeftDrops(s);
    var k := StripRightDrops(s[i..]);
    j := i + k;
    assert s[i..][..k] == s[i..j] && s[i..][k..] == s[j..];
  }

  lemma BlanksDrop(before: string, word: string, after: string)
    requires QueryText.IsBlank(before) && QueryText.IsBlank(after)
    requires word != "" && !IsSpace(word[0]) && !IsSpace(word[|word| - 1])
    ensures Strip(before + word + after) == word
  {
    assert before + word + after == before + (word + after);
    QueryText.StripLeftTrims(before, word + after);
    QueryText.StripRightTrims(word, after);
  }

  lemma UpperSpells(word: string, capitals: string)
    requires capitals in {"ASC", "DESC"}
    ensures Upper(word) == capitals <==> Spells(word, capitals)
  {
    assert forall i :: 0 <= i < |capitals| ==> 'A' <= capitals[i] <= 'Z';
    if Upper(word) == capitals {
      forall i | 0 <= i < |word| ensures word[i] == capitals[i] || word[i] as int == capitals[i] as int + 32 {
        assert Upper(word)[i] == capitals[i];
      }
    }
    if Spells(word, capitals) { assert Upper(word) == capitals; }
  }

  lemma SpelledIsWord(word: string, capitals: string)
    requires capitals in {"ASC", "DESC"} && Spells(word, capitals)
    ensures word != "" && !IsSpace(word[0]) && !IsSpace(word[|word| - 1])
  {
  }

  /** A direction is read as ascending or descending exactly when it spells the word. */
  lemma DirectionMeans(direction: string, capitals: string)
    requires capitals in {"ASC", "DESC"}
    ensures Direction(direction) == capitals <==> AsksFor(direction, capitals)
  {
    hide Strip, Upper, Spells, QueryText.IsBlank;
    var i, j := StripDrops(direction);
    UpperSpells(direction[i..j], capitals);
    if Direction(direction) == capitals { assert AsksForAt(direction, capitals, i, j); }
    if k: nat, l: nat :| k <= l <= |direction| && AsksForAt(direction, capitals, k, l) {
      var word := direction[k..l];
      SpelledIsWord(word, capitals);
      UpperSpells(word, capitals);
      BlanksDrop(direction[..k], word, direction[l..]);
      assert direction[..k] + word + direction[l..] == direction;
    }
  }

  // ---------- Columns ----------

  lemma EarlyNeighbours(i: nat)
    requires i < 11
    ensures |SortedColumns()| == 23 && SearchIntent.TextBefore(SortedColumns()[i], SortedColumns()[i + 1])
  {
    // where neighbours part
    var parts := [0, 2, 1, 0, 1, 0, 1, 0, 1, 0, 0];
    assert SearchIntent.TextBeforeAt(SortedColumns()[i], SortedColumns()[i + 1], parts[i]);
  }

  lemma LateNeighbours(i: nat)
    requires 11 <= i < 22
    ensures |SortedColumns()| == 23 && SearchIntent.TextBefore(SortedColumns()[i], SortedColumns()[i + 1])
  {
    var parts := [0, 1, 2, 2, 0, 1, 6, 1, 0, 0, 5];
    assert SearchIntent.TextBeforeAt(SortedColumns()[i], SortedColumns()[i + 1], parts[i - 11]);
  }

  lemma EveryColumn(c: string)
    ensures c in SortedColumns() <==> c in QueryableColumns()
  {
  }

  /** Without a choice of columns a page shows every queryable one, by name. */
  lemma EveryColumnByName()
    ensures forall c :: c in SortedColumns() <==> c in QueryableColumns()
    ensures forall i :: 0 <= i < |SortedColumns()| - 1 ==>
              SearchIntent.TextBefore(SortedColumns()[i], SortedColumns()[i + 1])
  {
    EarlyNeighbours(0);
    hide SortedColumns, QueryableColumns;
    forall c ensures c in SortedColumns() <==> c in QueryableColumns() { EveryColumn(c); }
    forall i | 0 <= i < |SortedColumns()| - 1
      ensures SearchIntent.TextBefore(SortedColumns()[i], SortedColumns()[i + 1])
    {
      if i < 11 { EarlyNeighbours(i); } else { LateNeighbours(i); }
    }
  }
}
