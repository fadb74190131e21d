/** Locators into a paper's summary: the path syntax, its resolution and the check of a cited page. */
module SummaryPath {
  import opened Seqs
  import ChunkText

  /** A JSON value, as the summary is dumped. */
  datatype Json =
    | Null
    | Bool(value: bool)
    | Number(number: int)
    | Text(text: string)
    | List(items: seq<Json>)
    | Dict(fields: map<string, Json>)

  /** One step of an address: into a dictionary and, with an index, on into a list. */
  datatype Step = Step(key: string, index: Option<nat>)

  predicate NameChar(c: char)
  {
    c != '.' && c != '[' && c != ']'
  }

  predicate Name(key: string)
  {
    key != "" && forall k :: 0 <= k < |key| ==> NameChar(key[k])
  }

  predicate Names(address: seq<Step>)
  {
    forall k :: 0 <= k < |address| ==> Name(address[k].key)
  }

  function StepInto(node: Json, step: Step): Option<Json>
  {
    if !node.Dict? || step.key !in node.fields then None
    else
      var child := node.fields[step.key];
      if step.index.None? then Some(child)
      else if !child.List? || step.index.value >= |child.items| then None
      else Some(child.items[step.index.value])
  }

  /** The node an address names. */
  function Walk(node: Json, address: seq<Step>): Option<Json>
  {
    if address == [] then Some(node)
    else
      var child := StepInto(node, address[0]);
      if child.None? then None else Walk(child.value, address[1..])
  }

  /* ----- printing ----- */

  function PrintStep(step: Step): (r: string)
  {
    step.key + if step.index.Some? then "[" + ChunkText.Decimal(step.index.value) + "]" else ""
  }

  function Print(address: seq<Step>): string
    requires address != []
  {
    PrintStep(address[0]) + if |address| == 1 then "" else "." + Print(address[1..])
  }

  /* ----- reading ----- */

  function TakeName(s: string): (r: string)
    ensures r <= s
    ensures forall k :: 0 <= k < |r| ==> NameChar(r[k])
  {
    if s != "" && NameChar(s[0]) then [s[0]] + TakeName(s[1..]) else ""
  }

  predicate Digits(s: string)
  {
    s != "" && forall k :: 0 <= k < |s| ==> '0' <= s[k] <= '9'
  }

  /** `int` of a digit string. */
  function Value(s: string): nat
    requires forall k :: 0 <= k < |s| ==> '0' <= s[k] <= '9'
  {
    if s == "" then 0 else 10 * Value(s[..|s| - 1]) + (s[|s| - 1] as int - '0' as int)
  }

  /** Full match of `([^.\[\]]+)(?:\[(\d+)\])?`. */
  function ReadStep(segment: string): (r: Option<Step>)
    ensures r.Some? ==> Name(r.value.key)
  {
    var key := TakeName(segment);
    var rest := segment[|key|..];
    if key == "" then None
    else if rest == "" then Some(Step(key, None))
    else if |rest| >= 2 && rest[0] == '[' && rest[|rest| - 1] == ']' && Digits(rest[1..|rest| - 1]) then
      Some(Step(key, Some(Value(rest[1..|rest| - 1]))))
    else None
  }

  function ToDot(s: string): (r: string)
    ensures r <= s && '.' !in r
    ensures |r| < |s| ==> s[|r|] == '.'
  {
    if s == "" || s[0] == '.' then "" else [s[0]] + ToDot(s[1..])
  }

  /** `str.split(".")`. */
  function Segments(s: string): (r: seq<string>)
    ensures r != []
  {
    var first := ToDot(s);
    if first == s then [s] else [first] + Segments(s[|first| + 1..])
  }

  function ReadSteps(segments: seq<string>): (r: Option<seq<Step>>)
    ensures r.Some? ==> |r.value| == |segments| && Names(r.value)
  {
    if segments == [] then Some([])
    else
      var first, rest := ReadStep(segments[0]), ReadSteps(segments[1..]);
      if first.None? || rest.None? then None else Some([first.value] + rest.value)
  }

  const ROOT := "$."

  function WithoutRoot(path: string): string
  {
    if ROOT <= path then path[2..] else path
  }

  /** The address a path stands for, if it is well formed. */
  function Address(path: string): (r: Option<seq<Step>>)
    ensures r.Some? ==> r.value != [] && Names(r.value)
  {
    ReadSteps(Segments(WithoutRoot(path)))
  }

  /** The node a path resolves to; null when it resolves to nothing. */
  function Resolved(root: Json, path: string): Json
  {
    var address := Address(path);
    if address.None? then Null
    else
      var node := Walk(root, address.value);
      if node.None? then Null else node.value
  }

  /** What is left to resolve: the remaining segments, from a node. */
  ghost function Remaining(node: Json, segments: seq<string>): Json
  {
    var steps := ReadSteps(segments);
    if steps.None? then Null
    else
      var end := Walk(node, steps.value);
      if end.None? then Null else end.value
  }

  /** `_resolve_summary_path`. */
  method ResolveSummaryPath(root: Json, path: string) returns (node: Json)
    ensures node == Resolved(root, path)
  {
    node := root;
    var segments := Segments(WithoutRoot(path));
    for i := 0 to |segments|
      invariant Remaining(node, segments[i..]) == Resolved(root, path)
    {
      assert segments[i..][1..] == segments[i + 1..];
      var step := ReadStep(segments[i]);
      if step.None? {
        return Null;
      }
      RemainingStep(node, segments[i..]);
      var child := StepInto(node, step.value);
      if child.None? {
        return Null;
      }
      node := child.value;
    }
  }

  lemma RemainingStep(node: Json, segments: seq<string>)
    requires segments != [] && ReadStep(segments[0]).Some?
    ensures
      var child := StepInto(node, ReadStep(segments[0]).value);
      Remaining(node, segments) == if child.None? then Null else Remaining(child.value, segments[1..])
  {
    var rest := ReadSteps(segments[1..]);
    if rest.Some? {
      var steps := [ReadStep(segments[0]).value] + rest.value;
      assert steps[1..] == rest.value;
    }
  }

  /* ----- printed addresses read back ----- */

  lemma DigitAppended(s: string, c: char)
    requires forall k :: 0 <= k < |s| ==> '0' <= s[k] <= '9'
    requires '0' <= c <= '9'
    ensures Digits(s + [c]) && Value(s + [c]) == 10 * Value(s) + (c as int - '0' as int)
  {
    var t := s + [c];
    assert t[..|t| - 1] == s && t[|t| - 1] == c;
  }

  lemma {:induction false} DecimalReadsBack(n: nat)
    ensures Digits(ChunkText.Decimal(n)) && Value(ChunkText.Decimal(n)) == n
  {
    var c := "0123456789"[n % 10];
    assert '0' <= c <= '9' && (c as int - '0' as int) == n % 10;
    hide Value;
    if n < 10 {
      assert ChunkText.Decimal(n) == "" + [c];
      DigitAppended("", c);
      assert Value("") == 0 by { EmptyValue(); }
    } else {
      DecimalReadsBack(n / 10);
      DigitAppended(ChunkText.Decimal(n / 10), c);
    }
  }

  lemma EmptyValue()
    ensures Value("") == 0
  {
  }

  lemma {:induction false} TakeWholeName(key: string, rest: string)
    requires forall k :: 0 <= k < |key| ==> NameChar(key[k])
    requires rest == "" || !NameChar(rest[0])
    ensures TakeName(key + rest) == key
  {
    if key == "" {
      assert key + rest == rest;
    } else {
      assert (key + rest)[1..] == key[1..] + rest;
      TakeWholeName(key[1..], rest);
    }
  }

  lemma StepReadsBack(step: Step)
    requires Name(step.key)
    ensures ReadStep(PrintStep(step)) == Some(step) && '.' !in PrintStep(step)
  {
    if step.index.None? {
      assert PrintStep(step) == step.key + "";
      TakeWholeName(step.key, "");
    } else {
      var digits := ChunkText.Decimal(step.index.value);
      var rest := "[" + digits + "]";
      DecimalReadsBack(step.index.value);
      TakeWholeName(step.key, rest);
      assert PrintStep(step)[|step.key|..] == rest;
      assert rest[1..|rest| - 1] == digits;
    }
  }

  lemma {:induction false} ToDotStops(s: string, rest: string)
    requires '.' !in s && (rest == "" || rest[0] == '.')
    ensures ToDot(s + rest) == s
  {
    if s == "" {
      assert s + rest == rest;
    } else {
      assert (s + rest)[1..] == s[1..] + rest;
      ToDotStops(s[1..], rest);
    }
  }

  lemma {:induction false} PrintedStepsReadBack(address: seq<Step>)
    requires address != [] && Names(address)
    ensures ReadSteps(Segments(Print(address))) == Some(address)
  {
    hide PrintStep, ReadStep;
    var first, rest := PrintStep(address[0]), address[1..];
    StepReadsBack(address[0]);
    if rest == [] {
      ToDotStops(first, "");
      assert first + "" == first;
      assert Segments(first) == [first];
      assert [first][1..] == [] && ReadSteps([]) == Some([]);
      assert address == [address[0]] + [];
    } else {
      PrintedStepsReadBack(rest);
      ToDotStops(first, "." + Print(rest));
      var path := first + ("." + Print(rest));
      assert path[|first| + 1..] == Print(rest);
      assert Print(address) == path;
      assert Segments(path) == [first] + Segments(Print(rest));
      assert ([first] + Segments(Print(rest)))[1..] == Segments(Print(rest));
      assert address == [address[0]] + rest;
    }
  }

  /** With the root marker, the printed form of every address reads back as that address. */
  lemma RootedPathReadsBack(address: seq<Step>)
    requires address != [] && Names(address)
    ensures Address(ROOT + Print(address)) == Some(address)
  {
    hide ReadSteps, Segments, Print;
    assert (ROOT + Print(address))[2..] == Print(address);
    PrintedStepsReadBack(address);
  }

  /** The bare key `$` before another step is taken for the root marker. */
  predicate BeginsLikeRoot(address: seq<Step>)
  {
    |address| >= 2 && address[0] == Step("$", None)
  }

  /** Without the root marker the printed form reads back exactly when it does not begin like one. */
  lemma BarePathReadsBackIff(address: seq<Step>)
    requires address != [] && Names(address)
    ensures Address(Print(address)) == Some(address) <==> !BeginsLikeRoot(address)
    ensures BeginsLikeRoot(address) ==> Address(Print(address)) == Some(address[1..])
  {
    hide ReadSteps, Segments, Print;
    PrintedStepsReadBack(address);
    if BeginsLikeRoot(address) {
      DollarPrintsRoot(address);
      RootedPathReadsBack(address[1..]);
    } else if ROOT <= Print(address) {
      RootComesFromKey(address);
    }
  }

  lemma DollarPrintsRoot(address: seq<Step>)
    requires BeginsLikeRoot(address)
    ensures Print(address) == ROOT + Print(address[1..])
  {
    hide Print;
    PrintHead(address);
    assert PrintStep(address[0]) == "$";
    assert "$" + "." == ROOT;
    ConcatAssoc("$", ".", Print(address[1..]));
  }

  lemma RootComesFromKey(address: seq<Step>)
    requires address != [] && Names(address) && ROOT <= Print(address)
    ensures BeginsLikeRoot(address)
  {
    hide Print;
    assert ROOT[0] == '$' && ROOT[1] == '.';
    var step := address[0];
    var tail := if |address| == 1 then "" else "." + Print(address[1..]);
    assert Print(address) == PrintStep(step) + tail by { PrintHead(address); }
    StepReadsBack(step);
    var printed := PrintStep(step);
    assert printed[0] == step.key[0];
    if |printed| >= 2 {
      assert false;
    }
    assert step.index.None? && step.key == "$";
  }

  lemma PrintHead(address: seq<Step>)
    requires address != []
    ensures Print(address) == PrintStep(address[0]) + if |address| == 1 then "" else "." + Print(address[1..])
  {
  }

  /** Resolving a printed address, marker or not, gives the addressed node. */
  lemma PrintedAddressResolves(root: Json, address: seq<Step>)
    requires address != [] && Names(address)
    requires Walk(root, address).Some?
    ensures Resolved(root, ROOT + Print(address)) == Walk(root, address).value
    ensures !BeginsLikeRoot(address) ==> Resolved(root, Print(address)) == Walk(root, address).value
  {
    hide Address, Print, Walk, Names;
    RootedPathReadsBack(address);
    BarePathReadsBackIff(address);
  }

  /* ----- which texts are paths of an address ----- */

  function Zeros(n: nat): (r: string)
    ensures |r| == n && forall k :: 0 <= k < n ==> r[k] == '0'
  {
    seq(n, _ => '0')
  }

  /** The key, and the index in brackets, in decimal digits with any number of leading zeros. */
  ghost predicate Spells(text: string, step: Step)
  {
    if step.index.None? then text == step.key
    else exists zeros: nat :: text == SpelledStep(step.key, zeros, step.index.value)
  }

  function SpelledStep(key: string, zeros: nat, index: nat): string
  {
    key + ("[" + (Zeros(zeros) + ChunkText.Decimal(index)) + "]")
  }

  /** The steps of the address, spelled out and joined by dots. */
  ghost predicate SpellsAll(text: string, address: seq<Step>)
    decreases |address|
  {
    if |address| <= 1 then address != [] && Spells(text, address[0])
    else
      exists dot :: SpelledUpTo(text, dot, address) && SpellsAll(text[dot + 1..], address[1..])
  }

  /** A dot of the text, behind the first step spelled out. */
  ghost predicate SpelledUpTo(text: string, dot: int, address: seq<Step>)
    requires address != []
  {
    0 <= dot < |text| && text[dot] == '.' && Spells(text[..dot], address[0])
  }

  lemma {:induction false} ZerosPrefix(zeros: nat, digits: string)
    requires Digits(digits)
    ensures Digits(Zeros(zeros) + digits) && Value(Zeros(zeros) + digits) == Value(digits)
    decreases |digits|
  {
    var all, front, last := Zeros(zeros) + digits, digits[..|digits| - 1], digits[|digits| - 1];
    assert all[..|all| - 1] == Zeros(zeros) + front && all[|all| - 1] == last;
    if front == "" {
      assert Zeros(zeros) + front == Zeros(zeros);
      ZeroValue(zeros);
    } else {
      ZerosPrefix(zeros, front);
    }
  }

  lemma {:induction false} ZeroValue(n: nat)
    ensures Value(Zeros(n)) == 0
  {
    if n > 0 {
      ZeroValue(n - 1);
      assert Zeros(n)[..n - 1] == Zeros(n - 1);
    }
  }

  lemma LastDigit(digits: string)
    requires Digits(digits)
    ensures
      var front, c := digits[..|digits| - 1], digits[|digits| - 1];
      && digits == front + [c]
      && (front != "" ==> Digits(front))
      && ChunkText.Decimal(Value(digits)) ==
           if front == "" || Value(front) == 0 then [c] else ChunkText.Decimal(Value(front)) + [c]
  {
    var front, c := digits[..|digits| - 1], digits[|digits| - 1];
    assert digits == front + [c];
    ValueOfLast(front, c);
    DecimalTimesTen(Value(front), c as int - '0' as int);
    hide Value, ChunkText.Decimal;
  }

  /** Digits are the decimal form of their value behind some zeros. */
  lemma {:induction false} DigitsAreDecimal(digits: string) returns (zeros: nat)
    requires Digits(digits)
    ensures digits == Zeros(zeros) + ChunkText.Decimal(Value(digits))
  {
    var front, c := digits[..|digits| - 1], digits[|digits| - 1];
    LastDigit(digits);
    hide Value, Zeros, ChunkText.Decimal;
    if front == "" {
      zeros := 0;
      NoZeros([c]);
    } else {
      var n := DigitsAreDecimal(front);
      if Value(front) == 0 {
        zeros := n + 1;
        OneZeroMore(n);
      } else {
        zeros := n;
        ConcatAssoc(Zeros(n), ChunkText.Decimal(Value(front)), [c]);
      }
    }
  }

  lemma NoZeros(s: string)
    ensures s == Zeros(0) + s
  {
  }

  lemma OneZeroMore(n: nat)
    ensures Zeros(n + 1) == Zeros(n) + ChunkText.Decimal(0)
  {
  }

  lemma ValueOfLast(front: string, c: char)
    requires (forall k :: 0 <= k < |front| ==> '0' <= front[k] <= '9') && '0' <= c <= '9'
    ensures
      var d := c as int - '0' as int;
      0 <= d < 10 && "0123456789"[d] == c && Value(front + [c]) == 10 * Value(front) + d
    ensures front == "" ==> Value(front) == 0
  {
    DigitAppended(front, c);
  }

  lemma DecimalTimesTen(n: nat, d: nat)
    requires d < 10
    ensures ChunkText.Decimal(10 * n + d) ==
      if n == 0 then ["0123456789"[d]] else ChunkText.Decimal(n) + ["0123456789"[d]]
  {
    assert (10 * n + d) / 10 == n && (10 * n + d) % 10 == d;
  }

  /** A segment is read as a step exactly when it spells that step. */
  lemma StepReadIff(segment: string, step: Step)
    ensures ReadStep(segment) == Some(step) <==> Name(step.key) && Spells(segment, step)
  {
    if ReadStep(segment) == Some(step) {
      StepIsSpelled(segment);
    }
    if Name(step.key) && Spells(segment, step) {
      SpelledIsRead(segment, step);
    }
  }

  lemma StepIsSpelled(segment: string)
    requires ReadStep(segment).Some?
    ensures Spells(segment, ReadStep(segment).value)
  {
    hide Value, TakeName, SpelledStep;
    var key := TakeName(segment);
    var rest := segment[|key|..];
    assert segment == key + rest;
    if rest != "" {
      var zeros := IndexIsSpelled(key, rest);
      assert segment == SpelledStep(key, zeros, Value(rest[1..|rest| - 1]));
    }
  }

  lemma IndexIsSpelled(key: string, rest: string) returns (zeros: nat)
    requires |rest| >= 2 && rest[0] == '[' && rest[|rest| - 1] == ']' && Digits(rest[1..|rest| - 1])
    ensures key + rest == SpelledStep(key, zeros, Value(rest[1..|rest| - 1]))
  {
    var digits := rest[1..|rest| - 1];
    zeros := DigitsAreDecimal(digits);
    hide Digits, Value;
    assert rest == "[" + digits + "]";
  }

  lemma SpelledIsRead(segment: string, step: Step)
    requires Name(step.key) && Spells(segment, step)
    ensures ReadStep(segment) == Some(step)
  {
    if step.index.None? {
      TakeWholeName(step.key, "");
      assert segment + "" == segment;
    } else {
      var zeros: nat :| segment == SpelledStep(step.key, zeros, step.index.value);
      var digits := Zeros(zeros) + ChunkText.Decimal(step.index.value);
      var rest := "[" + digits + "]";
      DecimalReadsBack(step.index.value);
      ZerosPrefix(zeros, ChunkText.Decimal(step.index.value));
      hide Digits, Value;
      TakeWholeName(step.key, rest);
      assert segment[|step.key|..] == rest;
      assert rest[1..|rest| - 1] == digits;
    }
  }

  lemma SpelledHasNoDot(text: string, step: Step)
    requires Name(step.key) && Spells(text, step)
    ensures '.' !in text
  {
    if step.index.Some? {
      var zeros: nat :| text == SpelledStep(step.key, zeros, step.index.value);
      DecimalReadsBack(step.index.value);
    }
  }

  lemma SplitAtDot(text: string, dot: nat)
    requires dot < |text| && text[dot] == '.' && '.' !in text[..dot]
    ensures ToDot(text) == text[..dot] && Segments(text) == [text[..dot]] + Segments(text[dot + 1..])
  {
    ToDotStops(text[..dot], text[dot..]);
    assert text[..dot] + text[dot..] == text;
  }

  lemma SegmentsStep(text: string)
    ensures
      var first := ToDot(text);
      if first == text then Segments(text) == [text]
      else |first| < |text| && text[|first|] == '.' && Segments(text) == [first] + Segments(text[|first| + 1..])
  {
  }

  lemma ReadStepsCons(first: string, rest: seq<string>, address: seq<Step>)
    ensures ReadSteps([first] + rest) == Some(address) <==>
      address != [] && ReadStep(first) == Some(address[0]) && ReadSteps(rest) == Some(address[1..])
  {
    assert ([first] + rest)[1..] == rest;
    if address != [] {
      assert address == [address[0]] + address[1..];
    }
  }

  lemma {:induction false} SegmentsReadIff(text: string, address: seq<Step>)
    ensures ReadSteps(Segments(text)) == Some(address) <==> Names(address) && SpellsAll(text, address)
    decreases |address|
  {
    if address == [] {
      assert ReadSteps(Segments(text)) != Some([]);
    } else {
      SegmentsHead(text, address);
      if |address| > 1 {
        forall dot | 0 <= dot < |text| && text[dot] == '.' {
          SegmentsReadIff(text[dot + 1..], address[1..]);
        }
        NamesTail(address);
      }
      SpellsAllHead(text, address);
    }
  }

  lemma NamesTail(address: seq<Step>)
    requires address != []
    ensures Names(address) <==> Name(address[0].key) && Names(address[1..])
  {
    assert address == [address[0]] + address[1..];
  }

  /** Reading a text as an address of one step, or as a first step before a dot and the rest. */
  lemma SegmentsHead(text: string, address: seq<Step>)
    requires address != []
    ensures ReadSteps(Segments(text)) == Some(address) <==>
      if |address| == 1 then '.' !in text && ReadStep(text) == Some(address[0])
      else exists dot :: DotAt(text, dot, address) && ReadSteps(Segments(text[dot + 1..])) == Some(address[1..])
  {
    hide ReadStep, ReadSteps, Segments;
    var first := ToDot(text);
    SegmentsStep(text);
    ReadNothing();
    if first == text {
      assert [text] + [] == [text];
      ReadStepsCons(text, [], address);
    } else {
      var rest := Segments(text[|first| + 1..]);
      ReadStepsCons(first, rest, address);
      ReadStepsLength(rest, address[1..]);
      assert text[..|first|] == first;
      if |address| > 1 {
        if ReadSteps(Segments(text)) == Some(address) {
          assert DotAt(text, |first|, address);
        }
        forall dot | DotAt(text, dot, address) ensures dot == |first| {
          SplitAtDot(text, dot);
        }
      }
    }
  }

  /** The first dot of the text, behind a segment that is read as the first step. */
  ghost predicate DotAt(text: string, dot: int, address: seq<Step>)
    requires address != []
  {
    0 <= dot < |text| && text[dot] == '.' && '.' !in text[..dot] && ReadStep(text[..dot]) == Some(address[0])
  }

  lemma ReadNothing()
    ensures ReadSteps([]) == Some([])
  {
  }

  lemma ReadStepsLength(segments: seq<string>, address: seq<Step>)
    ensures ReadSteps(segments) == Some(address) ==> |address| == |segments|
  {
  }

  lemma SpellsAllHead(text: string, address: seq<Step>)
    requires address != []
    ensures Name(address[0].key) ==>
      (SpellsAll(text, address) <==>
       if |address| == 1 then '.' !in text && ReadStep(text) == Some(address[0])
       else exists dot :: DotAt(text, dot, address) && SpellsAll(text[dot + 1..], address[1..]))
    ensures ReadStep(text) == Some(address[0]) ==> Name(address[0].key)
    ensures forall dot :: DotAt(text, dot, address) ==> Name(address[0].key)
  {
    hide ReadStep, Spells, Name;
    StepReadIff(text, address[0]);
    forall dot ensures DotAt(text, dot, address) <==> Name(address[0].key) && SpelledUpTo(text, dot, address) {
      if 0 <= dot < |text| {
        StepReadIff(text[..dot], address[0]);
        if Name(address[0].key) && Spells(text[..dot], address[0]) {
          SpelledHasNoDot(text[..dot], address[0]);
        }
      }
    }
    hide DotAt, SpelledUpTo;
    if Name(address[0].key) && Spells(text, address[0]) {
      SpelledHasNoDot(text, address[0]);
    }
  }

  /**
   * A path decodes to an address exactly when it is, less an optional root marker, the address's
   * steps joined by dots, each index written in decimal digits with leading zeros allowed.
   */
  lemma AddressIffSpelled(path: string, address: seq<Step>)
    ensures Address(path) == Some(address) <==> Names(address) && SpellsAll(WithoutRoot(path), address)
  {
    SegmentsReadIff(WithoutRoot(path), address);
  }

  /** A path resolves to a node other than null exactly when it spells an address of that node. */
  lemma ResolvesIffSpelled(root: Json, path: string, node: Json)
    requires !node.Null?
    ensures Resolved(root, path) == node <==>
      exists address: seq<Step> ::
        Names(address) && SpellsAll(WithoutRoot(path), address) && Walk(root, address) == Some(node)
  {
    hide Walk, Names, SpellsAll, Address;
    forall address: seq<Step>
      ensures Address(path) == Some(address) <==> Names(address) && SpellsAll(WithoutRoot(path), address)
    {
      AddressIffSpelled(path, address);
    }
    if Resolved(root, path) == node {
      var address := Address(path).value;
      assert Names(address) && SpellsAll(WithoutRoot(path), address) && Walk(root, address) == Some(node);
    }
  }

  /* ----- the root marker and the keys of a root ----- */

  /** The root is a dictionary with the key `$`. */
  predicate HasDollarKey(root: Json)
  {
    root.Dict? && "$" in root.fields
  }

  /** Without a key `$` at the root, both printed forms of an address resolve to the addressed node. */
  lemma BothFormsResolve(root: Json, address: seq<Step>)
    requires address != [] && Names(address) && Walk(root, address).Some? && !HasDollarKey(root)
    ensures Resolved(root, ROOT + Print(address)) == Walk(root, address).value
    ensures Resolved(root, Print(address)) == Walk(root, address).value
  {
    PrintedAddressResolves(root, address);
  }

  const SUMMARY_KEYS := {
    "schema_version", "identity", "classification", "problem", "contributions", "design", "implementation",
    "evaluation", "discussion", "related_work"}

  /** The dump of a structured summary: its fields and no others. */
  predicate IsSummary(root: Json)
  {
    root.Dict? && root.fields.Keys == SUMMARY_KEYS
  }

  /** On a summary both printed forms of an address resolve to the addressed node. */
  lemma SummaryPathsResolve(root: Json, address: seq<Step>)
    requires address != [] && Names(address) && Walk(root, address).Some? && IsSummary(root)
    ensures Resolved(root, ROOT + Print(address)) == Walk(root, address).value
    ensures Resolved(root, Print(address)) == Walk(root, address).value
  {
    assert "$" !in SUMMARY_KEYS;
    hide Print, Walk, Names;
    BothFormsResolve(root, address);
  }

  /** In arbitrary JSON with a key `$` at the root, nothing below that key is addressed without the marker. */
  lemma DollarKeyExample()
    ensures
      var root := Dict(map["$" := Dict(map["a" := Number(1)])]);
      var address := [Step("$", None), Step("a", None)];
      && Walk(root, address) == Some(Number(1))
      && Resolved(root, Print(address)) == Null
  {
    var root := Dict(map["$" := Dict(map["a" := Number(1)])]);
    var address := [Step("$", None), Step("a", None)];
    BarePathReadsBackIff(address);
    assert Walk(root, [Step("a", None)]).None?;
    assert address[1..] == [Step("a", None)];
    assert Walk(Number(1), []) == Some(Number(1));
    assert Walk(Dict(map["a" := Number(1)]), [Step("a", None)]) == Some(Number(1));
  }

  /* ----- the summary locator of a citation ----- */

  datatype LocatorError = SummaryNotLoaded | PathMissing | PathUnresolved | PageNotInEvidence

  predicate HasPage(node: Json, page: int)
  {
    && node.Dict?
    && "evidence_pages" in node.fields
    && node.fields["evidence_pages"].List?
    && Number(page) in node.fields["evidence_pages"].items
  }

  /** The node is an object whose `evidence_pages` are a list with the page in it. */
  lemma HasPageIff(node: Json, page: int)
    ensures HasPage(node, page) <==>
      exists fields: map<string, Json>, pages: seq<Json>, k: nat ::
        && node == Dict(fields) && "evidence_pages" in fields && fields["evidence_pages"] == List(pages)
        && k < |pages| && pages[k] == Number(page)
  {
    if HasPage(node, page) {
      var pages := node.fields["evidence_pages"].items;
      var k: nat :| k < |pages| && pages[k] == Number(page);
      assert node == Dict(node.fields) && node.fields["evidence_pages"] == List(pages);
    }
  }

  /** `_validate_summary_locator`: None when the locator is accepted. */
  method ValidateSummaryLocator(summary: Option<Json>, path: Option<string>, page: Option<int>)
    returns (error: Option<LocatorError>)
    ensures error.None? <==>
      && summary.Some?
      && path.Some?
      && (exists address :: Address(path.value) == Some(address)
            && Walk(summary.value, address).Some?
            && Walk(summary.value, address).value != Null
            && (page.Some? ==> HasPage(Walk(summary.value, address).value, page.value)))
    ensures error == Some(PageNotInEvidence) ==>
      summary.Some? && path.Some? && page.Some? && !HasPage(Resolved(summary.value, path.value), page.value)
  {
    if summary.None? {
      return Some(SummaryNotLoaded);
    }
    if path.None? {
      return Some(PathMissing);
    }
    var node := ResolveSummaryPath(summary.value, path.value);
    if node.Null? {
      return Some(PathUnresolved);
    }
    if page.Some? && !HasPage(node, page.value) {
      return Some(PageNotInEvidence);
    }
    return None;
  }
}
