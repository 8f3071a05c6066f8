/**
 The LIKE patterns the search compiler binds (app/search/query.py:232-237, 405-407, 426-436).

 A pattern is read as section 8.5 of ISO/IEC 9075-2 reads `LIKE pattern ESCAPE '\'`: `%` stands for
 any run of characters, `_` for any one character, and the escape character must be followed by
 itself, `%` or `_`.  `fold` is the case folding of ILIKE, one character at a time; the identity
 folding gives LIKE.
 */
module LikePatterns {
  import opened Options

  // ---------- The source's functions ----------

  /** `str.replace` with a one-character needle. */
  function Replace(s: string, needle: char, with: string): string {
    if s == [] then [] else (if s[0] == needle then with else [s[0]]) + Replace(s[1..], needle, with)
  }

  function EscapeLike(v: string): string {
    Replace(Replace(Replace(v, '\\', "\\\\"), '%', "\\%"), '_', "\\_")
  }

  function ToLikePattern(v: string): string {
    if '*' in v then Replace(EscapeLike(v), '*', "%") else "%" + EscapeLike(v) + "%"
  }

  /** The pattern a free-text term binds. */
  function ContainsPattern(v: string): string {
    "%" + EscapeLike(v) + "%"
  }

  // ---------- What a LIKE pattern means to the database ----------

  datatype Item = AnyRun | AnyOne | Literal(c: char)

  /** The items of a pattern, or None when an escape character is dangling. */
  function Items(p: string): Option<seq<Item>> {
    if p == [] then Some([])
    else if p[0] == '\\' then
      if |p| < 2 || p[1] !in "\\%_" then None
      else Prepend(Literal(p[1]), Items(p[2..]))
    else
      Prepend(if p[0] == '%' then AnyRun else if p[0] == '_' then AnyOne else Literal(p[0]), Items(p[1..]))
  }

  function Prepend(item: Item, items: Option<seq<Item>>): Option<seq<Item>> {
    if items.None? then None else Some([item] + items.value)
  }

  predicate Matches(items: seq<Item>, s: string, fold: char -> char) {
    if items == [] then s == []
    else match items[0]
      case AnyRun => exists k :: 0 <= k <= |s| && Matches(items[1..], s[k..], fold)
      case AnyOne => s != [] && Matches(items[1..], s[1..], fold)
      case Literal(c) => s != [] && fold(c) == fold(s[0]) && Matches(items[1..], s[1..], fold)
  }

  /** `s LIKE p ESCAPE '\'`, up to `fold`. */
  predicate Like(s: string, p: string, fold: char -> char) {
    Items(p).Some? && Matches(Items(p).value, s, fold)
  }

  // ---------- What the user meant ----------

  predicate SameText(a: string, b: string, fold: char -> char) {
    |a| == |b| && forall i :: 0 <= i < |a| ==> fold(a[i]) == fold(b[i])
  }

  predicate OccursAt(s: string, v: string, i: nat, fold: char -> char) {
    i + |v| <= |s| && SameText(v, s[i..i + |v|], fold)
  }

  /** `v` occurs somewhere in `s`. */
  predicate Contains(s: string, v: string, fold: char -> char) {
    exists i :: 0 <= i <= |s| && OccursAt(s, v, i, fold)
  }

  function Stars(v: string): nat {
    if v == [] then 0 else (if v[0] == '*' then 1 else 0) + Stars(v[1..])
  }

  /** `v` with its i-th star replaced by the i-th filler. */
  function Fill(v: string, fillers: seq<string>): string
    requires |fillers| == Stars(v)
  {
    if v == [] then []
    else if v[0] == '*' then fillers[0] + Fill(v[1..], fillers[1..])
    else [v[0]] + Fill(v[1..], fillers)
  }

  /** `s` is `v` with every star replaced by some text. */
  ghost predicate Glob(s: string, v: string, fold: char -> char) {
    exists fillers: seq<string> :: |fillers| == Stars(v) && SameText(Fill(v, fillers), s, fold)
  }

  /** A search value: a glob when it has a star, plain containment otherwise. */
  ghost predicate Denotes(s: string, v: string, fold: char -> char) {
    if '*' in v then Glob(s, v, fold) else Contains(s, v, fold)
  }

  // ---------- Escaping is one pass ----------

  /** Each metacharacter gets one escape character in front of it; nothing else changes. */
  function EscapeOnce(v: string): string {
    if v == [] then [] else (if v[0] in "\\%_" then ['\\', v[0]] else [v[0]]) + EscapeOnce(v[1..])
  }

  lemma {:induction false} ReplaceAppend(a: string, b: string, needle: char, with: string)
    ensures Replace(a + b, needle, with) == Replace(a, needle, with) + Replace(b, needle, with)
  {
    if a == [] {
      assert a + b == b;
    } else {
      assert (a + b)[1..] == a[1..] + b;
      ReplaceAppend(a[1..], b, needle, with);
    }
  }

  /** The three chained replaces never escape each other's escape characters. */
  lemma {:induction false} EscapeLikeIsOnePass(v: string)
    ensures EscapeLike(v) == EscapeOnce(v)
  {
    if v != [] {
      EscapeLikeIsOnePass(v[1..]);
      var head := if v[0] == '\\' then "\\\\" else [v[0]];
      var r1 := Replace(v[1..], '\\', "\\\\");
      ReplaceAppend(head, r1, '%', "\\%");
      ReplaceAppend(Replace(head, '%', "\\%"), Replace(r1, '%', "\\%"), '_', "\\_");
      EscapeOneCharacter(v[0]);
    }
  }

  lemma EscapeOneCharacter(c: char)
    ensures var head := if c == '\\' then "\\\\" else [c];
            Replace(Replace(head, '%', "\\%"), '_', "\\_") == if c in "\\%_" then ['\\', c] else [c]
  {
    ReplaceShort('\\', '%', "\\%");
    ReplaceShort('\\', '_', "\\_");
    ReplaceShort(c, '%', "\\%");
    ReplaceShort(c, '_', "\\_");
    ReplaceAppend("\\", "\\", '%', "\\%");
    ReplaceAppend("\\", "\\", '_', "\\_");
    ReplaceAppend("\\", "%", '_', "\\_");
    ReplaceShort('%', '_', "\\_");
    assert "\\" + "\\" == "\\\\" && "\\" + "%" == "\\%";
  }

  lemma ReplaceShort(c: char, needle: char, with: string)
    ensures Replace([c], needle, with) == if c == needle then with else [c]
  {
    assert Replace([c][1..], needle, with) == [];
  }

  // ---------- What the emitted patterns are made of ----------

  /** The items of a value whose stars are wildcards and whose other characters are literal. */
  function GlobItems(v: string): seq<Item> {
    if v == [] then [] else [if v[0] == '*' then AnyRun else Literal(v[0])] + GlobItems(v[1..])
  }

  function Literals(v: string): seq<Item> {
    if v == [] then [] else [Literal(v[0])] + Literals(v[1..])
  }

  /** An escaped value read back as a pattern is the value itself; no escape is left dangling. */
  lemma EscapedChar(c: char, rest: string)
    ensures Items((if c in "\\%_" then ['\\', c] else [c]) + rest) == Prepend(Literal(c), Items(rest))
  {
    if c in "\\%_" {
      assert (['\\', c] + rest)[2..] == rest;
    } else {
      assert ([c] + rest)[1..] == rest;
    }
  }

  lemma {:induction false} EscapedIsLiteral(v: string, tail: string)
    requires Items(tail).Some?
    ensures Items(EscapeOnce(v) + tail) == Some(Literals(v) + Items(tail).value)
  {
    hide Items;
    if v == [] {
      assert EscapeOnce(v) + tail == tail;
      assert Literals(v) + Items(tail).value == Items(tail).value;
    } else {
      EscapedIsLiteral(v[1..], tail);
      var rest := EscapeOnce(v[1..]) + tail;
      EscapedChar(v[0], rest);
      assert EscapeOnce(v) + tail == (if v[0] in "\\%_" then ['\\', v[0]] else [v[0]]) + rest;
      assert Literals(v) + Items(tail).value == [Literal(v[0])] + (Literals(v[1..]) + Items(tail).value);
    }
  }

  lemma {:induction false} EscapedStarsAreRuns(v: string)
    ensures Items(Replace(EscapeOnce(v), '*', "%")) == Some(GlobItems(v))
  {
    if v != [] {
      EscapedStarsAreRuns(v[1..]);
      var head := if v[0] in "\\%_" then ['\\', v[0]] else [v[0]];
      ReplaceAppend(head, EscapeOnce(v[1..]), '*', "%");
      var rest := Replace(EscapeOnce(v[1..]), '*', "%");
      if v[0] in "\\%_" {
        ReplaceAppend("\\", [v[0]], '*', "%");
        ReplaceShort('\\', '*', "%");
        ReplaceShort(v[0], '*', "%");
        assert "\\" + [v[0]] == head;
        assert (head + rest)[2..] == rest;
      } else {
        ReplaceShort(v[0], '*', "%");
        var h := if v[0] == '*' then "%" else [v[0]];
        assert (h + rest)[1..] == rest;
      }
    }
  }

  // ---------- What the emitted patterns match ----------

  lemma {:induction false} LiteralsMatchPrefix(v: string, items: seq<Item>, s: string, fold: char -> char)
    ensures Matches(Literals(v) + items, s, fold)
       <==> |v| <= |s| && SameText(v, s[..|v|], fold) && Matches(items, s[|v|..], fold)
  {
    if v == [] {
      assert Literals(v) + items == items;
      assert s[0..] == s;
    } else {
      assert Literals(v) + items == [Literal(v[0])] + (Literals(v[1..]) + items);
      if s != [] {
        LiteralsMatchPrefix(v[1..], items, s[1..], fold);
        if |v| <= |s| {
          assert s[1..][|v| - 1..] == s[|v|..];
          assert s[1..][..|v| - 1] == s[..|v|][1..];
          assert SameText(v, s[..|v|], fold) <==>
            fold(v[0]) == fold(s[0]) && SameText(v[1..], s[..|v|][1..], fold) by {
            if SameText(v[1..], s[..|v|][1..], fold) && fold(v[0]) == fold(s[0]) {
              forall i | 0 <= i < |v| ensures fold(v[i]) == fold(s[..|v|][i]) {
                if i > 0 { assert fold(v[1..][i - 1]) == fold(s[..|v|][1..][i - 1]); }
              }
            }
          }
        }
      }
    }
  }

  lemma AnyRunMatches(s: string, fold: char -> char)
    ensures Matches([AnyRun], s, fold)
  {
    assert Matches([AnyRun][1..], s[|s|..], fold);
  }

  /** A free-text pattern matches exactly the texts the value occurs in. */
  lemma ContainsPatternMeaning(v: string, s: string, fold: char -> char)
    ensures Items(ContainsPattern(v)).Some?
    ensures Like(s, ContainsPattern(v), fold) <==> Contains(s, v, fold)
  {
    EscapeLikeIsOnePass(v);
    assert Items("%") == Some([AnyRun]) by { assert "%"[1..] == "" && [AnyRun] + [] == [AnyRun]; }
    EscapedIsLiteral(v, "%");
    var tail := EscapeOnce(v) + "%";
    assert ContainsPattern(v) == "%" + tail;
    assert ("%" + tail)[1..] == tail;
    var rest := Literals(v) + [AnyRun];
    var items := [AnyRun] + rest;
    assert Items(ContainsPattern(v)) == Some(items);
    assert items[1..] == rest;
    forall k | 0 <= k <= |s|
      ensures Matches(rest, s[k..], fold) <==> OccursAt(s, v, k, fold)
    {
      LiteralsMatchPrefix(v, [AnyRun], s[k..], fold);
      if k <= |s| - |v| {
        assert s[k..][..|v|] == s[k..k + |v|];
        AnyRunMatches(s[k..][|v|..], fold);
      }
    }
    if Contains(s, v, fold) {
      var i :| 0 <= i <= |s| && OccursAt(s, v, i, fold);
      assert Matches(items[1..], s[i..], fold);
    }
  }

  lemma {:induction false} GlobItemsMatchFillings(v: string, fillers: seq<string>, s: string, fold: char -> char)
    requires |fillers| == Stars(v) && SameText(Fill(v, fillers), s, fold)
    ensures Matches(GlobItems(v), s, fold)
  {
    if v != [] {
      var items := GlobItems(v);
      assert items[1..] == GlobItems(v[1..]);
      if v[0] == '*' {
        var k := |fillers[0]|;
        var rest := Fill(v[1..], fillers[1..]);
        assert rest == Fill(v, fillers)[k..];
        assert SameText(rest, s[k..], fold) by {
          forall i | 0 <= i < |rest| ensures fold(rest[i]) == fold(s[k..][i]) {
            assert rest[i] == Fill(v, fillers)[k + i];
          }
        }
        GlobItemsMatchFillings(v[1..], fillers[1..], s[k..], fold);
      } else {
        var rest := Fill(v[1..], fillers);
        assert rest == Fill(v, fillers)[1..];
        GlobItemsMatchFillings(v[1..], fillers, s[1..], fold);
      }
    }
  }

  lemma {:induction false} GlobItemsFillings(v: string, s: string, fold: char -> char) returns (fillers: seq<string>)
    requires Matches(GlobItems(v), s, fold)
    ensures |fillers| == Stars(v) && SameText(Fill(v, fillers), s, fold)
  {
    if v == [] {
      fillers := [];
    } else {
      assert GlobItems(v)[1..] == GlobItems(v[1..]);
      if v[0] == '*' {
        var k :| 0 <= k <= |s| && Matches(GlobItems(v[1..]), s[k..], fold);
        var rest := GlobItemsFillings(v[1..], s[k..], fold);
        fillers := [s[..k]] + rest;
        assert fillers[1..] == rest;
        assert s == s[..k] + s[k..];
      } else {
        fillers := GlobItemsFillings(v[1..], s[1..], fold);
        assert s == [s[0]] + s[1..];
      }
    }
  }

  /**
   The pattern bound for a search value matches exactly the texts the value denotes: `*` is the
   only metacharacter the user has, and every other character stands for itself.
   */
  lemma ToLikePatternMeaning(v: string, s: string, fold: char -> char)
    ensures Items(ToLikePattern(v)).Some?
    ensures Like(s, ToLikePattern(v), fold) <==> Denotes(s, v, fold)
  {
    if '*' in v {
      EscapeLikeIsOnePass(v);
      EscapedStarsAreRuns(v);
      if Matches(GlobItems(v), s, fold) {
        var fillers := GlobItemsFillings(v, s, fold);
        assert Glob(s, v, fold);
      }
      if Glob(s, v, fold) {
        var fillers: seq<string> :| |fillers| == Stars(v) && SameText(Fill(v, fillers), s, fold);
        GlobItemsMatchFillings(v, fillers, s, fold);
      }
    } else {
      ContainsPatternMeaning(v, s, fold);
    }
  }
}
