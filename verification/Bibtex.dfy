/** The printer of local BibTeX entries and readers that recover what was printed. */
module Bibtex {
  import opened Seqs
  import opened Text
  import ChunkText

  datatype Paper = Paper(
    id: string,
    title: Option<string>,
    authors: seq<string>,
    year: Option<int>,
    venue: Option<string>,
    doi: Option<string>,
    arxivId: Option<string>,
    sourceUrl: Option<string>)

  datatype Field = Field(name: string, value: string)

  const TEXT_BACKSLASH := "\\textbackslash{}"

  /* ----- printing ----- */

  function EscapeChar(c: char): (r: string)
    ensures r != ""
  {
    if c == '\\' then TEXT_BACKSLASH
    else if c in "{}&%#_" then ['\\', c]
    else [c]
  }

  function Escape(value: string): (r: string)
  {
    if value == "" then "" else EscapeChar(value[0]) + Escape(value[1..])
  }

  /** A present, non-empty text: what the source's `if value:` tests. */
  predicate Truthy(value: Option<string>)
  {
    value.Some? && value.value != ""
  }

  function Optional(name: string, value: Option<string>): seq<Field>
  {
    if Truthy(value) then [Field(name, value.value)] else []
  }

  function Url(p: Paper): Option<string>
  {
    if Truthy(p.doi) then Some("https://doi.org/" + p.doi.value)
    else if Truthy(p.arxivId) then Some("https://arxiv.org/abs/" + p.arxivId.value)
    else p.sourceUrl
  }

  function Fields(p: Paper): (r: seq<Field>)
  {
    (if p.authors != [] then [Field("author", Join(" and ", p.authors))] else [])
    + Optional("title", p.title)
    + (if p.year.Some? then [Field("year", ChunkText.Decimal(p.year.value))] else [])
    + Optional("howpublished", p.venue)
    + Optional("doi", p.doi)
    + (if Truthy(p.arxivId) then [Field("eprint", p.arxivId.value), Field("archivePrefix", "arXiv")] else [])
    + Optional("url", Url(p))
  }

  /** The value under a name, if there is one. */
  function ValueOf(fields: seq<Field>, name: string): Option<string>
  {
    if fields == [] then None
    else if fields[0].name == name then Some(fields[0].value)
    else ValueOf(fields[1..], name)
  }

  lemma {:induction false} ValueOfAppend(a: seq<Field>, b: seq<Field>, name: string)
    ensures ValueOf(a + b, name) == if ValueOf(a, name).Some? then ValueOf(a, name) else ValueOf(b, name)
  {
    if a == [] {
      assert a + b == b;
    } else {
      assert (a + b)[1..] == a[1..] + b;
      ValueOfAppend(a[1..], b, name);
    }
  }

  const NAMES := ["author", "title", "year", "howpublished", "doi", "eprint", "archivePrefix", "url"]

  /** What is printed of a column: nothing when it is absent or empty. */
  function Shown(column: Option<string>): Option<string>
  {
    if Truthy(column) then column else None
  }

  /** What stands under each name. */
  function Columns(p: Paper): (r: seq<Option<string>>)
    ensures |r| == 8
  {
    [if p.authors == [] then None else Some(Join(" and ", p.authors)),
     Shown(p.title),
     if p.year.Some? then Some(ChunkText.Decimal(p.year.value)) else None,
     Shown(p.venue),
     Shown(p.doi),
     Shown(p.arxivId),
     if Truthy(p.arxivId) then Some("arXiv") else None,
     if Truthy(p.doi) then Some("https://doi.org/" + p.doi.value)
     else if Truthy(p.arxivId) then Some("https://arxiv.org/abs/" + p.arxivId.value)
     else Shown(p.sourceUrl)]
  }

  function Single(name: string, value: Option<string>): seq<Field>
  {
    if value.Some? then [Field(name, value.value)] else []
  }

  /** The first n columns that there are, under their names. */
  function Listed(names: seq<string>, columns: seq<Option<string>>, n: nat): seq<Field>
    requires n <= |names| == |columns|
  {
    if n == 0 then [] else Listed(names, columns, n - 1) + Single(names[n - 1], columns[n - 1])
  }

  lemma {:induction false} ListedValue(names: seq<string>, columns: seq<Option<string>>, n: nat, k: nat)
    requires n <= |names| == |columns| && k < |names| && Distinct(names)
    ensures ValueOf(Listed(names, columns, n), names[k]) == if k < n then columns[k] else None
  {
    if n > 0 {
      ListedValue(names, columns, n - 1, k);
      var last := Single(names[n - 1], columns[n - 1]);
      assert ValueOf(last, names[k]) == if k == n - 1 then columns[k] else None;
      ValueOfAppend(Listed(names, columns, n - 1), last, names[k]);
    }
  }

  lemma ListedEight(names: seq<string>, columns: seq<Option<string>>)
    requires |names| == |columns| == 8
    ensures Listed(names, columns, 8) ==
      Single(names[0], columns[0]) + Single(names[1], columns[1]) + Single(names[2], columns[2])
      + Single(names[3], columns[3]) + Single(names[4], columns[4])
      + (Single(names[5], columns[5]) + Single(names[6], columns[6])) + Single(names[7], columns[7])
  {
    hide Single;
    assert Listed(names, columns, 0) == [];
    forall n | 0 <= n < 8
      ensures Listed(names, columns, n + 1) == Listed(names, columns, n) + Single(names[n], columns[n])
    {
    }
    hide Listed;
    assert Listed(names, columns, 0 + 1) == Single(names[0], columns[0]);
    assert Listed(names, columns, 1 + 1) == Single(names[0], columns[0]) + Single(names[1], columns[1]);
    var five := Listed(names, columns, 4 + 1);
    assert five == Listed(names, columns, 2 + 1) + Single(names[3], columns[3]) + Single(names[4], columns[4]);
    assert Listed(names, columns, 7 + 1) ==
      five + Single(names[5], columns[5]) + Single(names[6], columns[6]) + Single(names[7], columns[7]);
    ConcatAssoc(five, Single(names[5], columns[5]), Single(names[6], columns[6]));
  }

  lemma OptionalIsSingle(name: string, value: Option<string>)
    ensures Optional(name, value) == Single(name, Shown(value))
  {
  }

  lemma ArxivFields(p: Paper, eprint: string, archive: string)
    ensures (if Truthy(p.arxivId) then [Field(eprint, p.arxivId.value), Field(archive, "arXiv")] else []) ==
      Single(eprint, Shown(p.arxivId)) + Single(archive, if Truthy(p.arxivId) then Some("arXiv") else None)
  {
  }

  lemma FieldsAreListed(p: Paper)
    ensures Fields(p) == Listed(NAMES, Columns(p), 8)
  {
    var names, columns := NAMES, Columns(p);
    ListedEight(names, columns);
    OptionalIsSingle(names[1], p.title);
    OptionalIsSingle(names[3], p.venue);
    OptionalIsSingle(names[4], p.doi);
    OptionalIsSingle(names[7], Url(p));
    ArxivFields(p, names[5], names[6]);
    hide Optional, Listed, Join, Truthy;
  }

  lemma NamesDiffer()
    ensures Distinct(NAMES)
  {
    assert NAMES[0][1] == 'u' && NAMES[5][1] == 'p' && NAMES[6][1] == 'r';
    assert NAMES[0][0] == 'a' && NAMES[1][0] == 't' && NAMES[2][0] == 'y' && NAMES[3][0] == 'h';
    assert NAMES[4][0] == 'd' && NAMES[5][0] == 'e' && NAMES[7][0] == 'u' && NAMES[6][0] == 'a';
  }

  /** Every column is printed under its own name, and nothing else is. */
  lemma FieldsShowColumns(p: Paper, k: nat)
    requires k < 8
    ensures ValueOf(Fields(p), NAMES[k]) == Columns(p)[k]
  {
    FieldsAreListed(p);
    NamesDiffer();
    ListedValue(NAMES, Columns(p), 8, k);
  }

  function FieldLine(f: Field): string
  {
    "  " + f.name + " = {" + Escape(f.value) + "},"
  }

  function FieldLines(fields: seq<Field>): (r: seq<string>)
  {
    if fields == [] then [] else [FieldLine(fields[0])] + FieldLines(fields[1..])
  }

  /** `_local_bibtex` for a given key: the lines of the entry joined by newlines. */
  function Entry(key: string, fields: seq<Field>): string
  {
    Join("\n", ["@misc{" + key + ","] + FieldLines(fields) + ["}"]) + "\n"
  }

  /* ----- reading a value ----- */

  /** One escaped character at the head of a text, with its printed length. */
  function ReadUnit(s: string): (r: Option<(char, nat)>)
    ensures r.Some? ==> 0 < r.value.1 <= |s|
  {
    if s == "" then None
    else if s[0] != '\\' then if s[0] in "{}&%#_" then None else Some((s[0], 1))
    else if TEXT_BACKSLASH <= s then Some(('\\', |TEXT_BACKSLASH|))
    else if |s| > 1 && s[1] in "{}&%#_" then Some((s[1], 2))
    else None
  }

  /** A braced value up to its closing brace, and the rest of the text. */
  function ReadValue(s: string): (r: Option<(string, string)>)
    ensures r.Some? ==> |r.value.1| < |s|
    decreases |s|
  {
    if s != "" && s[0] == '}' then Some(("", s[1..]))
    else
      var unit := ReadUnit(s);
      if unit.None? then None
      else
        var tail := ReadValue(s[unit.value.1..]);
        if tail.None? then None else Some(([unit.value.0] + tail.value.0, tail.value.1))
  }

  lemma ReadEscapedChar(c: char, rest: string)
    ensures ReadUnit(EscapeChar(c) + rest) == Some((c, |EscapeChar(c)|))
    ensures (EscapeChar(c) + rest)[0] != '}'
  {
    var s := EscapeChar(c) + rest;
    if c == '\\' {
      assert s[..|TEXT_BACKSLASH|] == TEXT_BACKSLASH;
    } else if c in "{}&%#_" {
      assert s[0] == '\\' && s[1] == c;
      assert TEXT_BACKSLASH[1] == 't';
    }
  }

  /** A printed value, closed by a brace, reads back as the value that was printed. */
  lemma {:induction false} ReadPrintedValue(value: string, rest: string)
    ensures ReadValue(Escape(value) + "}" + rest) == Some((value, rest))
  {
    hide ReadUnit, EscapeChar;
    if value == "" {
      assert Escape(value) + "}" + rest == "}" + rest;
    } else {
      var tail := Escape(value[1..]) + "}" + rest;
      ReadEscapedChar(value[0], tail);
      ReadPrintedValue(value[1..], rest);
      assert Escape(value) + "}" + rest == EscapeChar(value[0]) + tail;
      assert (EscapeChar(value[0]) + tail)[|EscapeChar(value[0])|..] == tail;
      assert [value[0]] + value[1..] == value;
    }
  }

  function Unescape(s: string): Option<string>
  {
    var r := ReadValue(s + "}");
    if r.Some? && r.value.1 == "" then Some(r.value.0) else None
  }

  /** Escaping is uniquely decodable. */
  lemma UnescapeEscape(value: string)
    ensures Unescape(Escape(value)) == Some(value)
  {
    ReadPrintedValue(value, "");
    assert Escape(value) + "}" + "" == Escape(value) + "}";
  }

  /* ----- braces ----- */

  /**
   * Brace depth after a text, or -1 once it would become negative. With `escapes`, a character
   * after a backslash does not count, as for TeX; without, every brace counts, as for BibTeX.
   */
  function Depth(s: string, depth: int, escapes: bool): (r: int)
    decreases |s|
  {
    if s == "" || depth < 0 then depth
    else if escapes && s[0] == '\\' then if |s| == 1 then depth else Depth(s[2..], depth, escapes)
    else if s[0] == '{' then Depth(s[1..], depth + 1, escapes)
    else if s[0] == '}' then Depth(s[1..], depth - 1, escapes)
    else Depth(s[1..], depth, escapes)
  }

  lemma {:induction false} PlainDepth(s: string, rest: string, depth: int, escapes: bool)
    requires forall k :: 0 <= k < |s| ==> s[k] !in "\\{}"
    ensures Depth(s + rest, depth, escapes) == Depth(rest, depth, escapes)
  {
    if s == "" {
      assert s + rest == rest;
    } else {
      assert (s + rest)[1..] == s[1..] + rest;
      PlainDepth(s[1..], rest, depth, escapes);
    }
  }

  lemma BackslashDepth(rest: string, depth: int, escapes: bool)
    requires depth >= 0
    ensures Depth(TEXT_BACKSLASH + rest, depth, escapes) == Depth(rest, depth, escapes)
  {
    var word := if escapes then "extbackslash" else "textbackslash";
    BracePairDepth(rest, depth, escapes);
    PlainDepth(word, "{}" + rest, depth, escapes);
    TextBackslashParts(rest);
    FirstStep(if escapes then "\\t" else "\\", word + ("{}" + rest), depth, escapes);
  }

  lemma TextBackslashParts(rest: string)
    ensures TEXT_BACKSLASH + rest == "\\" + ("textbackslash" + ("{}" + rest))
    ensures TEXT_BACKSLASH + rest == "\\t" + ("extbackslash" + ("{}" + rest))
  {
  }

  lemma BracePairDepth(rest: string, depth: int, escapes: bool)
    requires depth >= 0
    ensures Depth("{}" + rest, depth, escapes) == Depth(rest, depth, escapes)
  {
    assert ("{}" + rest)[1..] == "}" + rest && ("}" + rest)[1..] == rest;
  }

  lemma FirstStep(head: string, tail: string, depth: int, escapes: bool)
    requires depth >= 0
    requires head == (if escapes then "\\t" else "\\")
    ensures Depth(head + tail, depth, escapes) == Depth(tail, depth, escapes)
  {
    assert (head + tail)[|head|..] == tail;
  }

  /** To TeX, an escaped text has no braces at all but closed pairs: the surrounding field stays balanced. */
  lemma {:induction false} EscapedTextIsBalanced(value: string, rest: string, depth: int)
    requires depth >= 0
    ensures Depth(Escape(value) + rest, depth, true) == Depth(rest, depth, true)
  {
    if value == "" {
      assert Escape(value) + rest == rest;
    } else {
      var c, tail := value[0], Escape(value[1..]) + rest;
      EscapedTextIsBalanced(value[1..], rest, depth);
      assert Escape(value) + rest == EscapeChar(c) + tail;
      if c == '\\' {
        BackslashDepth(tail, depth, true);
      } else if c in "{}&%#_" {
        assert ([ '\\', c ] + tail)[2..] == tail;
      } else {
        PlainDepth([c], tail, depth, true);
      }
    }
  }

  function Delta(c: char): int
  {
    if c == '{' then 1 else if c == '}' then -1 else 0
  }

  lemma RawStep(c: char, tail: string, depth: int)
    requires depth >= 0
    ensures Depth([c] + tail, depth, false) == Depth(tail, depth + Delta(c), false)
    ensures Depth(EscapeChar(c) + tail, depth, false) == Depth(tail, depth + Delta(c), false)
  {
    assert ([c] + tail)[1..] == tail;
    if c == '\\' {
      BackslashDepth(tail, depth, false);
    } else if c in "{}&%#_" {
      assert (EscapeChar(c) + tail)[1..] == [c] + tail;
    }
  }

  /** To BibTeX, which counts every brace, escaping changes nothing: a field is balanced iff its text was. */
  lemma {:induction false} EscapingKeepsRawDepth(value: string, rest: string, depth: int)
    requires depth >= 0
    ensures Depth(Escape(value) + rest, depth, false) == Depth(value + rest, depth, false)
  {
    if value == "" {
      assert Escape(value) + rest == value + rest;
    } else {
      hide EscapeChar;
      var c, tail := value[0], Escape(value[1..]) + rest;
      assert Escape(value) + rest == EscapeChar(c) + tail;
      assert value + rest == [c] + (value[1..] + rest);
      RawStep(c, tail, depth);
      RawStep(c, value[1..] + rest, depth);
      if depth + Delta(c) >= 0 {
        EscapingKeepsRawDepth(value[1..], rest, depth + Delta(c));
      }
    }
  }

  /** BibTeX sees balanced braces in a printed value exactly when the value's own braces balance. */
  lemma RawBalancedIff(value: string)
    ensures Depth(Escape(value), 0, false) == 0 <==> Depth(value, 0, false) == 0
  {
    EscapingKeepsRawDepth(value, "", 0);
    assert Escape(value) + "" == Escape(value) && value + "" == value;
  }

  /** A text with one opening brace and no other, such as `{x`: its printed form stays open for BibTeX. */
  lemma OpenBraceExample(text: string)
    requires forall k :: 0 <= k < |text| ==> text[k] !in "\\{}"
    ensures Depth("{" + text, 0, false) == 1
    ensures Depth(Escape("{" + text), 0, false) != 0
  {
    assert ("{" + text)[1..] == text == text + "";
    PlainDepth(text, "", 1, false);
    RawBalancedIff("{" + text);
  }

  /* ----- reading the key ----- */

  predicate IsLetter(c: char)
  {
    'a' <= c <= 'z' || 'A' <= c <= 'Z'
  }

  predicate KeyChar(c: char)
  {
    c != ',' && !IsSpace(c)
  }

  /** A text that `[^,\s]+` matches as a whole. */
  predicate ValidKey(key: string)
  {
    key != "" && forall k :: 0 <= k < |key| ==> KeyChar(key[k])
  }

  function SkipLetters(s: string): (r: string)
    ensures |r| <= |s|
  {
    if s != "" && IsLetter(s[0]) then SkipLetters(s[1..]) else s
  }

  function TakeKey(s: string): (r: string)
    ensures r <= s
    ensures forall k :: 0 <= k < |r| ==> KeyChar(r[k])
    ensures |r| < |s| ==> !KeyChar(s[|r|])
  {
    if s != "" && KeyChar(s[0]) then [s[0]] + TakeKey(s[1..]) else ""
  }

  /** `@[A-Za-z]+\s*\{\s*([^,\s]+)\s*,` at the start of the content. */
  function BibtexKey(content: string): (r: Option<string>)
    ensures r.Some? ==> ValidKey(r.value)
  {
    if content == "" || content[0] != '@' then None
    else
      var afterType := SkipLetters(content[1..]);
      var open := LStrip(afterType);
      if afterType == content[1..] || open == "" || open[0] != '{' then None
      else
        var body := LStrip(open[1..]);
        var key := TakeKey(body);
        var close := LStrip(body[|key|..]);
        if key == "" || close == "" || close[0] != ',' then None else Some(key)
  }

  lemma {:induction false} TakeWholeKey(key: string, rest: string)
    requires forall k :: 0 <= k < |key| ==> KeyChar(key[k])
    requires rest != "" && !KeyChar(rest[0])
    ensures TakeKey(key + rest) == key
  {
    if key == "" {
      assert key + rest == rest;
    } else {
      assert (key + rest)[1..] == key[1..] + rest;
      TakeWholeKey(key[1..], rest);
    }
  }

  lemma {:induction false} SkipWord(word: string, rest: string)
    requires forall k :: 0 <= k < |word| ==> IsLetter(word[k])
    requires rest != "" && !IsLetter(rest[0])
    ensures SkipLetters(word + rest) == rest
  {
    if word == "" {
      assert word + rest == rest;
    } else {
      assert (word + rest)[1..] == word[1..] + rest;
      SkipWord(word[1..], rest);
    }
  }

  /** The key printed in an entry is the key that is read back from it. */
  lemma ReadPrintedKey(key: string, rest: string)
    requires ValidKey(key)
    ensures BibtexKey("@misc{" + key + "," + rest) == Some(key)
  {
    var content := "@misc{" + key + "," + rest;
    var body := key + ("," + rest);
    var braced := "{" + body;
    assert content[1..] == "misc" + braced;
    SkipWord("misc", braced);
    assert braced[1..] == body && LStrip(body) == body;
    TakeWholeKey(key, "," + rest);
    assert body[|key|..] == "," + rest;
  }

  /* ----- reading a whole entry ----- */

  predicate ValidName(name: string)
  {
    name != "" && forall k :: 0 <= k < |name| ==> IsLetter(name[k])
  }

  /** The printed fields and the end of the entry. */
  function FieldsText(fields: seq<Field>): (r: string)
  {
    if fields == [] then "}\n" else FieldLine(fields[0]) + "\n" + FieldsText(fields[1..])
  }

  lemma {:induction false} FieldLinesText(fields: seq<Field>)
    ensures Join("\n", FieldLines(fields) + ["}"]) + "\n" == FieldsText(fields)
  {
    hide FieldLine;
    if fields == [] {
      assert FieldLines(fields) + ["}"] == ["}"];
    } else {
      var rest := FieldLines(fields[1..]) + ["}"];
      FieldLinesText(fields[1..]);
      assert FieldLines(fields) + ["}"] == [FieldLine(fields[0])] + rest;
      JoinAppend("\n", [FieldLine(fields[0])], rest);
      ConcatAssoc(FieldLine(fields[0]) + "\n", Join("\n", rest), "\n");
    }
  }

  lemma EntryText(key: string, fields: seq<Field>)
    ensures Entry(key, fields) == "@misc{" + key + "," + ("\n" + FieldsText(fields))
  {
    hide FieldLine, FieldsText, FieldLines;
    var head, rest := "@misc{" + key + ",", FieldLines(fields) + ["}"];
    assert [head] + FieldLines(fields) + ["}"] == [head] + rest;
    JoinAppend("\n", [head], rest);
    FieldLinesText(fields);
    ConcatAssoc(head + "\n", Join("\n", rest), "\n");
    ConcatAssoc(head, "\n", Join("\n", rest) + "\n");
  }

  /** Reading the key back from a printed local entry returns the key that was printed. */
  lemma EntryKeyReadsBack(key: string, fields: seq<Field>)
    requires ValidKey(key)
    ensures BibtexKey(Entry(key, fields)) == Some(key)
  {
    EntryText(key, fields);
    ReadPrintedKey(key, "\n" + FieldsText(fields));
  }

  /** The fields of a printed entry, read from the text after its first line. */
  function ReadFields(s: string): (r: Option<seq<Field>>)
    decreases |s|
  {
    if s == "}\n" then Some([])
    else if !("  " <= s) then None
    else
      var name := s[2..][..|s[2..]| - |SkipLetters(s[2..])|];
      var afterName := SkipLetters(s[2..]);
      if !(" = {" <= afterName) then None
      else
        var value := ReadValue(afterName[4..]);
        if value.None? || !(",\n" <= value.value.1) then None
        else
          var rest := ReadFields(value.value.1[2..]);
          if rest.None? then None else Some([Field(name, value.value.0)] + rest.value)
  }

  lemma ReadFieldLine(f: Field, rest: string)
    requires ValidName(f.name)
    ensures
      var s := FieldLine(f) + "\n" + rest;
      && s != "}\n" && "  " <= s
      && var afterName := SkipLetters(s[2..]);
         && s[2..][..|s[2..]| - |afterName|] == f.name
         && " = {" <= afterName
         && ReadValue(afterName[4..]) == Some((f.value, ",\n" + rest))
  {
    hide Escape, ReadValue;
    var s := FieldLine(f) + "\n" + rest;
    var tail := Escape(f.value) + "}" + (",\n" + rest);
    assert s == "  " + (f.name + (" = {" + tail));
    assert s[2..] == f.name + (" = {" + tail);
    assert (" = {" + tail)[0] == ' ' && (" = {" + tail)[..4] == " = {" && (" = {" + tail)[4..] == tail;
    SkipWord(f.name, " = {" + tail);
    ReadPrintedValue(f.value, ",\n" + rest);
  }

  /** The printer is unambiguous: the fields of every printed entry can be read back. */
  lemma {:induction false} ReadPrintedFields(fields: seq<Field>)
    requires AllNamed(fields)
    ensures ReadFields(FieldsText(fields)) == Some(fields)
  {
    hide FieldLine, SkipLetters, ReadValue;
    if fields != [] {
      var rest := FieldsText(fields[1..]);
      ReadFieldLine(fields[0], rest);
      ReadPrintedFields(fields[1..]);
      assert (",\n" + rest)[2..] == rest && (",\n" + rest)[..2] == ",\n";
      assert [Field(fields[0].name, fields[0].value)] + fields[1..] == fields;
    }
  }

  ghost predicate AllNamed(fields: seq<Field>)
  {
    forall k :: 0 <= k < |fields| ==> ValidName(fields[k].name)
  }

  lemma NamedAppend(a: seq<Field>, b: seq<Field>)
    requires AllNamed(a) && AllNamed(b)
    ensures AllNamed(a + b)
  {
  }

  lemma FieldNames(p: Paper)
    ensures AllNamed(Fields(p))
  {
    hide AllNamed, Url;
    var author := if p.authors != [] then [Field("author", Join(" and ", p.authors))] else [];
    var title := Optional("title", p.title);
    var year := if p.year.Some? then [Field("year", ChunkText.Decimal(p.year.value))] else [];
    var venue := Optional("howpublished", p.venue);
    var doi := Optional("doi", p.doi);
    var eprint :=
      if Truthy(p.arxivId) then [Field("eprint", p.arxivId.value), Field("archivePrefix", "arXiv")] else [];
    LocalFieldsNamed(p);
    NamedAppend(author, title);
    NamedAppend(author + title, year);
    NamedAppend(author + title + year, venue);
    NamedAppend(author + title + year + venue, doi);
    NamedAppend(author + title + year + venue + doi, eprint);
    NamedAppend(author + title + year + venue + doi + eprint, Optional("url", Url(p)));
  }

  lemma LocalFieldsNamed(p: Paper)
    ensures AllNamed(if p.authors != [] then [Field("author", Join(" and ", p.authors))] else [])
    ensures AllNamed(Optional("title", p.title))
    ensures AllNamed(if p.year.Some? then [Field("year", ChunkText.Decimal(p.year.value))] else [])
    ensures AllNamed(Optional("howpublished", p.venue)) && AllNamed(Optional("doi", p.doi))
    ensures AllNamed(
      if Truthy(p.arxivId) then [Field("eprint", p.arxivId.value), Field("archivePrefix", "arXiv")] else [])
    ensures AllNamed(Optional("url", Url(p)))
  {
    hide Url;
  }

  /** Two papers printed to the same entry have the same key and the same field values. */
  lemma EntryDeterminesPaper(key: string, p: Paper, key': string, p': Paper)
    requires ValidKey(key) && ValidKey(key') && Entry(key, Fields(p)) == Entry(key', Fields(p'))
    ensures key == key' && Fields(p) == Fields(p')
  {
    hide Fields, FieldsText, Entry, BibtexKey, ReadFields, AllNamed, ValidKey;
    EntryKeyReadsBack(key, Fields(p));
    EntryKeyReadsBack(key', Fields(p'));
    EntryText(key, Fields(p));
    EntryText(key', Fields(p'));
    var head := "@misc{" + key + "," + "\n";
    assert FieldsText(Fields(p)) == Entry(key, Fields(p))[|head|..];
    assert FieldsText(Fields(p')) == Entry(key', Fields(p'))[|head|..];
    FieldNames(p);
    FieldNames(p');
    ReadPrintedFields(Fields(p));
    ReadPrintedFields(Fields(p'));
  }
}
