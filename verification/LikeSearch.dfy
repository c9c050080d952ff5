/** The title and author search of the media directory: SQLite's LIKE with ESCAPE '\' and the
    pattern built for it (internal/storage/sqlite/media_repository.go:193-210, 271-276). */
module LikeSearch {

  /** LIKE compares characters through a fold of its own (ASCII case, in SQLite). */
  type Fold = char -> char

  predicate Like(pattern: string, text: string, fold: Fold)
    decreases |pattern| + |text|
  {
    if pattern == "" then text == ""
    else if pattern[0] == '%' then Like(pattern[1..], text, fold) || (text != "" && Like(pattern, text[1..], fold))
    else if pattern[0] == '_' then text != "" && Like(pattern[1..], text[1..], fold)
    else if pattern[0] == '\\' then |pattern| >= 2 && text != "" && fold(pattern[1]) == fold(text[0]) &&
      Like(pattern[2..], text[1..], fold)
    else text != "" && fold(pattern[0]) == fold(text[0]) && Like(pattern[1..], text[1..], fold)
  }

  /** strings.ReplaceAll for a one-character old text. */
  function ReplaceAll(s: string, c: char, with: string): string {
    if s == "" then "" else (if s[0] == c then with else [s[0]]) + ReplaceAll(s[1..], c, with)
  }

  function EscapeLikePattern(value: string): string {
    ReplaceAll(ReplaceAll(ReplaceAll(value, '\\', "\\\\"), '%', "\\%"), '_', "\\_")
  }

  /** One pass over the characters. */
  function Escaped(value: string): string {
    if value == "" then "" else (if value[0] in "\\%_" then ['\\', value[0]] else [value[0]]) + Escaped(value[1..])
  }

  lemma {:induction false} ReplaceAllJoined(s: string, t: string, c: char, with: string)
    ensures ReplaceAll(s + t, c, with) == ReplaceAll(s, c, with) + ReplaceAll(t, c, with)
  {
    if s == "" {
      assert s + t == t;
    } else {
      assert (s + t)[1..] == s[1..] + t;
      ReplaceAllJoined(s[1..], t, c, with);
    }
  }

  /** The backslash pass comes first, so the later passes never escape an escape. */
  lemma {:induction false} ThreePassesAreOne(value: string)
    ensures EscapeLikePattern(value) == Escaped(value)
  {
    if value != "" {
      var c, rest := value[0], value[1..];
      var first := if c == '\\' then "\\\\" else [c];
      var second := if c == '%' then "\\%" else first;
      var third := if c == '_' then "\\_" else second;
      ReplaceCharacter(c, first, second, third);
      ReplaceAllJoined(first, ReplaceAll(rest, '\\', "\\\\"), '%', "\\%");
      ReplaceAllJoined(second, ReplaceAll(ReplaceAll(rest, '\\', "\\\\"), '%', "\\%"), '_', "\\_");
      ThreePassesAreOne(rest);
    }
  }

  lemma ReplaceCharacter(c: char, first: string, second: string, third: string)
    requires first == if c == '\\' then "\\\\" else [c]
    requires second == if c == '%' then "\\%" else first
    requires third == if c == '_' then "\\_" else second
    ensures ReplaceAll(first, '%', "\\%") == second && ReplaceAll(second, '_', "\\_") == third
  {
    if |first| == 2 {
      ReplacePair('\\', c, '%', "\\%");
    } else {
      ReplaceOne(c, '%', "\\%");
    }
    if |second| == 2 {
      ReplacePair('\\', c, '_', "\\_");
    } else {
      ReplaceOne(c, '_', "\\_");
    }
  }

  lemma ReplaceOne(x: char, c: char, with: string)
    ensures ReplaceAll([x], c, with) == if x == c then with else [x]
  {
    assert [x][1..] == "";
    assert ReplaceAll("", c, with) == "";
  }

  lemma ReplacePair(x: char, y: char, c: char, with: string)
    requires x != c && y != c
    ensures ReplaceAll([x, y], c, with) == [x, y]
  {
    assert [x, y] == [x] + [y];
    ReplaceAllJoined([x], [y], c, with);
    ReplaceOne(x, c, with);
    ReplaceOne(y, c, with);
  }

  /** q begins text, up to the fold. */
  predicate Begins(q: string, text: string, fold: Fold) {
    |q| <= |text| && forall i | 0 <= i < |q| :: fold(q[i]) == fold(text[i])
  }

  predicate Occurs(q: string, text: string, fold: Fold) {
    exists k :: 0 <= k <= |text| && Begins(q, text[k..], fold)
  }

  lemma {:induction false} LikeEscaped(q: string, rest: string, text: string, fold: Fold)
    ensures Like(Escaped(q) + rest, text, fold) <==> Begins(q, text, fold) && Like(rest, text[|q|..], fold)
  {
    var pattern := Escaped(q) + rest;
    if q == "" {
      assert pattern == rest && text[0..] == text;
    } else {
      var tail := Escaped(q[1..]) + rest;
      if q[0] in "\\%_" {
        assert pattern == ['\\', q[0]] + tail;
        assert pattern[0] == '\\' && pattern[1] == q[0] && pattern[2..] == tail;
      } else {
        assert pattern == [q[0]] + tail;
        assert pattern[0] == q[0] && pattern[1..] == tail;
      }
      if text != "" {
        LikeEscaped(q[1..], rest, text[1..], fold);
        BeginsStep(q, text, fold);
      }
    }
  }

  lemma BeginsStep(q: string, text: string, fold: Fold)
    requires q != "" && text != ""
    ensures Begins(q, text, fold) <==> fold(q[0]) == fold(text[0]) && Begins(q[1..], text[1..], fold)
    ensures Begins(q, text, fold) ==> text[1..][|q| - 1..] == text[|q|..]
  {
    if fold(q[0]) == fold(text[0]) && Begins(q[1..], text[1..], fold) {
      forall i | 0 <= i < |q|
        ensures fold(q[i]) == fold(text[i])
      {
        if i > 0 {
          assert q[1..][i - 1] == q[i] && text[1..][i - 1] == text[i];
        }
      }
    }
  }

  lemma {:induction false} LikeAnything(text: string, fold: Fold)
    ensures Like("%", text, fold)
  {
    if text != "" {
      LikeAnything(text[1..], fold);
    } else {
      assert "%"[1..] == "";
    }
  }

  lemma {:induction false} LikeAnywhere(pattern: string, text: string, fold: Fold)
    ensures Like("%" + pattern, text, fold) <==> exists k :: 0 <= k <= |text| && Like(pattern, text[k..], fold)
    decreases |text|
  {
    assert ("%" + pattern)[1..] == pattern;
    assert text[0..] == text;
    if text != "" {
      LikeAnywhere(pattern, text[1..], fold);
      forall k | 0 <= k < |text|
        ensures text[1..][k..] == text[k + 1..]
      {
      }
      if k :| 0 <= k <= |text| && Like(pattern, text[k..], fold) {
        assert k > 0 ==> text[1..][k - 1..] == text[k..];
      }
      if k :| 0 <= k <= |text[1..]| && Like(pattern, text[1..][k..], fold) {
        assert Like(pattern, text[k + 1..], fold);
      }
    }
  }

  /** The pattern made of a query finds exactly the texts that contain the query, whatever
      wildcards and backslashes the query holds. */
  lemma LikeFindsSubstrings(q: string, text: string, fold: Fold)
    ensures Like("%" + (EscapeLikePattern(q) + "%"), text, fold) <==> Occurs(q, text, fold)
  {
    hide Like, Begins;
    ThreePassesAreOne(q);
    LikeAnywhere(Escaped(q) + "%", text, fold);
    forall k | 0 <= k <= |text|
      ensures Like(Escaped(q) + "%", text[k..], fold) <==> Begins(q, text[k..], fold)
    {
      LikeEscaped(q, "%", text[k..], fold);
      if Begins(q, text[k..], fold) {
        BeginsFits(q, text[k..], fold);
        LikeAnything(text[k..][|q|..], fold);
      }
    }
  }

  lemma BeginsFits(q: string, text: string, fold: Fold)
    requires Begins(q, text, fold)
    ensures |q| <= |text|
  {
  }
}
