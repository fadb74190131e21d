/** Searching records for a literal text with the SQL operator LIKE. */
module LikeEscape {
  import opened Seqs
  import opened Text

  /* ----- escaping ----- */

  const ESCAPE := '\\'

  predicate Special(c: char)
  {
    c == ESCAPE || c == '%' || c == '_'
  }

  /** `str.replace` of one character. */
  function Replace(s: string, c: char, to: string): string
  {
    if s == "" then "" else (if s[0] == c then to else [s[0]]) + Replace(s[1..], c, to)
  }

  /** `_escape_like`: three replacements, one after the other. */
  function EscapeLike(value: string): string
  {
    Replace(Replace(Replace(value, ESCAPE, [ESCAPE, ESCAPE]), '%', [ESCAPE, '%']), '_', [ESCAPE, '_'])
  }

  /** Every special character behind an escape character, all at once. */
  function Escaped(value: string): string
  {
    if value == "" then ""
    else (if Special(value[0]) then [ESCAPE, value[0]] else [value[0]]) + Escaped(value[1..])
  }

  lemma {:induction false} ReplaceAppend(a: string, b: string, c: char, to: string)
    ensures Replace(a + b, c, to) == Replace(a, c, to) + Replace(b, c, to)
  {
    if a == "" {
      assert a + b == b;
    } else {
      ReplaceAppend(a[1..], b, c, to);
      assert (a + b)[1..] == a[1..] + b;
      ConcatAssoc(if a[0] == c then to else [a[0]], Replace(a[1..], c, to), Replace(b, c, to));
    }
  }

  lemma ReplaceShort(x: char, y: char, c: char, to: string)
    ensures Replace([x], c, to) == if x == c then to else [x]
    ensures Replace([x, y], c, to) == (if x == c then to else [x]) + (if y == c then to else [y])
  {
    assert [x][1..] == "" && [x, y][1..] == [y];
    assert Replace([y], c, to) == if y == c then to else [y];
  }

  /** No replacement touches what an earlier one has inserted in a harmful way. */
  lemma {:induction false} ReplacementsAreSimultaneous(value: string)
    ensures EscapeLike(value) == Escaped(value)
  {
    if value != "" {
      var c, rest := value[0], value[1..];
      var one := Replace([c], ESCAPE, [ESCAPE, ESCAPE]);
      var two := Replace(one, '%', [ESCAPE, '%']);
      ReplacementsAreSimultaneous(rest);
      assert value == [c] + rest;
      ReplaceAppend([c], rest, ESCAPE, [ESCAPE, ESCAPE]);
      ReplaceAppend(one, Replace(rest, ESCAPE, [ESCAPE, ESCAPE]), '%', [ESCAPE, '%']);
      ReplaceAppend(two, Replace(Replace(rest, ESCAPE, [ESCAPE, ESCAPE]), '%', [ESCAPE, '%']), '_', [ESCAPE, '_']);
      assert Replace(two, '_', [ESCAPE, '_']) == if Special(c) then [ESCAPE, c] else [c] by {
        ReplaceShort(c, c, ESCAPE, [ESCAPE, ESCAPE]);
        ReplaceShort(c, c, '%', [ESCAPE, '%']);
        ReplaceShort(c, c, '_', [ESCAPE, '_']);
        ReplaceShort(ESCAPE, '%', '_', [ESCAPE, '_']);
      }
    }
  }

  /* ----- the LIKE predicate ----- */

  /** ASCII case folding. */
  function Fold(c: char): char
  {
    if 'A' <= c <= 'Z' then (c as int + 32) as char else c
  }

  function FoldAll(s: string): (r: string)
    ensures |r| == |s|
  {
    if s == "" then "" else [Fold(s[0])] + FoldAll(s[1..])
  }

  /**
   * Section 8.5 of ISO/IEC 9075:1992: `%` stands for any text, `_` for any character and the
   * escape character makes the next one stand for itself. Case is folded as SQLite does.
   */
  predicate Like(pattern: string, s: string)
    decreases |pattern|
  {
    if pattern == "" then s == ""
    else if pattern[0] == '%' then exists k :: 0 <= k <= |s| && Like(pattern[1..], s[k..])
    else if s == "" then false
    else if pattern[0] == '_' then Like(pattern[1..], s[1..])
    else if pattern[0] == ESCAPE then
      |pattern| >= 2 && Fold(pattern[1]) == Fold(s[0]) && Like(pattern[2..], s[1..])
    else Fold(pattern[0]) == Fold(s[0]) && Like(pattern[1..], s[1..])
  }

  lemma AnythingMatches(s: string)
    ensures Like("%", s)
  {
    assert s[|s|..] == "" && "%"[1..] == "";
    assert Like("%"[1..], s[|s|..]);
  }

  lemma FoldAllCons(a: string, b: string)
    requires a != "" && b != ""
    ensures FoldAll(a) == FoldAll(b) <==> Fold(a[0]) == Fold(b[0]) && FoldAll(a[1..]) == FoldAll(b[1..])
  {
    assert FoldAll(a)[0] == Fold(a[0]) && FoldAll(a)[1..] == FoldAll(a[1..]);
    assert FoldAll(b)[0] == Fold(b[0]) && FoldAll(b)[1..] == FoldAll(b[1..]);
  }

  /** A character in its escaped form stands for itself. */
  lemma EscapedCharacterMatches(c: char, rest: string, s: string)
    ensures Like((if Special(c) then [ESCAPE, c] else [c]) + rest, s) <==>
      s != "" && Fold(c) == Fold(s[0]) && Like(rest, s[1..])
  {
    var head := if Special(c) then [ESCAPE, c] else [c];
    var pattern := head + rest;
    assert pattern[|head|..] == rest;
    if s != "" && Special(c) {
      assert pattern[0] == ESCAPE && pattern[1] == c;
      assert pattern[2..] == rest;
    }
  }

  /** An escaped text followed by `%` matches exactly the texts that begin with it, up to case. */
  lemma {:induction false} EscapedMatchesPrefix(q: string, s: string)
    ensures Like(Escaped(q) + "%", s) <==> OccursAt(q, s, 0)
  {
    if q == "" {
      assert Escaped(q) + "%" == "%";
      AnythingMatches(s);
    } else {
      var rest := q[1..];
      ConcatAssoc(if Special(q[0]) then [ESCAPE, q[0]] else [q[0]], Escaped(rest), "%");
      EscapedCharacterMatches(q[0], Escaped(rest) + "%", s);
      if s != "" {
        EscapedMatchesPrefix(rest, s[1..]);
        if |q| <= |s| {
          assert s[0..|q|][1..] == s[1..][0..|rest|];
          FoldAllCons(s[0..|q|], q);
        }
      }
    }
  }

  /** The text is found in `s` from position `k` on, up to ASCII case. */
  predicate OccursAt(q: string, s: string, k: nat)
  {
    k + |q| <= |s| && FoldAll(s[k..k + |q|]) == FoldAll(q)
  }

  predicate Occurs(q: string, s: string)
  {
    exists k :: 0 <= k <= |s| && OccursAt(q, s, k)
  }

  /** The pattern of a search finds a text exactly where it occurs literally. */
  lemma PatternFindsOccurrences(q: string, s: string)
    ensures Like("%" + EscapeLike(q) + "%", s) <==> Occurs(q, s)
  {
    hide Like, Escaped, EscapeLike, FoldAll;
    ReplacementsAreSimultaneous(q);
    var pattern := "%" + Escaped(q) + "%";
    assert pattern[1..] == Escaped(q) + "%";
    LikeAfterPercent(pattern, s);
    forall k | 0 <= k <= |s|
      ensures Like(pattern[1..], s[k..]) <==> OccursAt(q, s, k)
    {
      EscapedMatchesPrefix(q, s[k..]);
      if k + |q| <= |s| {
        assert s[k..][0..|q|] == s[k..k + |q|];
      }
    }
  }

  lemma LikeAfterPercent(pattern: string, s: string)
    requires pattern != "" && pattern[0] == '%'
    ensures Like(pattern, s) <==> exists k :: 0 <= k <= |s| && Like(pattern[1..], s[k..])
  {
  }

  /* ----- search_qa_records ----- */

  /** The text columns of a record that are searched; a column may hold NULL. */
  datatype Record = Record(
    question: string, answer: string, title: Option<string>, tags: Option<string>)

  function Columns(record: Record): seq<Option<string>>
  {
    [Some(record.question), Some(record.answer), record.title, record.tags]
  }

  /** The condition a query adds to the statement. */
  predicate Selected(query: Option<string>, record: Record)
  {
    query.None? || Strip(query.value) == "" ||
    exists column <- Columns(record) ::
      column.Some? && Like("%" + EscapeLike(Strip(query.value)) + "%", column.value)
  }

  /** A query selects exactly the records in one of whose columns it occurs, blanks around it aside. */
  lemma SearchIsLiteral(query: string, record: Record)
    ensures Selected(Some(query), record) <==>
      Strip(query) == "" || exists column <- Columns(record) :: column.Some? && Occurs(Strip(query), column.value)
  {
    hide Like, EscapeLike, Occurs, Columns, Strip;
    forall column <- Columns(record) | column.Some?
      ensures Like("%" + EscapeLike(Strip(query)) + "%", column.value) <==> Occurs(Strip(query), column.value)
    {
      PatternFindsOccurrences(Strip(query), column.value);
    }
  }
}
