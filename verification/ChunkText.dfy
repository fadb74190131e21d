/** How a chunk is rendered, and the arithmetic of its length. */
module ChunkText {
  import opened Seqs

  datatype Unit = Unit(section: string, pages: seq<int>, text: string, isParagraph: bool)

  /* ----- rendering ----- */

  /** `str(n)`. */
  function Decimal(n: int): (r: string)
    ensures |r| >= 1
    decreases if n < 0 then 1 - n else n
  {
    if n < 0 then "-" + Decimal(-n)
    else if n < 10 then ["0123456789"[n]]
    else Decimal(n / 10) + ["0123456789"[n % 10]]
  }

  function Decimals(pages: seq<int>): (r: seq<string>)
    ensures |r| == |pages|
  {
    if pages == [] then [] else [Decimal(pages[0])] + Decimals(pages[1..])
  }

  function PagesText(pages: seq<int>): string
  {
    "[" + Join(", ", Decimals(SortedUnique(pages))) + "]"
  }

  function Sections(units: seq<Unit>): (r: seq<string>)
    ensures |r| == |units|
  {
    if units == [] then [] else Sections(units[..|units| - 1]) + [units[|units| - 1].section]
  }

  function Pages(units: seq<Unit>): (r: seq<int>)
  {
    if units == [] then [] else Pages(units[..|units| - 1]) + units[|units| - 1].pages
  }

  /** The non-empty unit texts. */
  function Bodies(units: seq<Unit>): (r: seq<string>)
  {
    if units == [] then []
    else
      var last := units[|units| - 1].text;
      Bodies(units[..|units| - 1]) + (if last == "" then [] else [last])
  }

  function Header(title: string, units: seq<Unit>): string
  {
    "Paper: " + title
    + "\nSections: " + Join(" > ", Dedup(Sections(units)))
    + "\nPages: " + PagesText(Pages(units))
  }

  function Render(title: string, units: seq<Unit>): string
  {
    var body := Join("\n\n", Bodies(units));
    if body != "" then Header(title, units) + "\n\n" + body + "\n" else Header(title, units) + "\n"
  }

  /* ----- weights ----- */

  function Sum<T>(s: seq<T>, w: T -> nat): (r: nat)
  {
    if s == [] then 0 else w(s[0]) + Sum(s[1..], w)
  }

  lemma {:induction false} SumAppend<T>(a: seq<T>, b: seq<T>, w: T -> nat)
    ensures Sum(a + b, w) == Sum(a, w) + Sum(b, w)
  {
    if a == [] {
      assert a + b == b;
    } else {
      assert (a + b)[1..] == a[1..] + b;
      SumAppend(a[1..], b, w);
    }
  }

  /** Total weight of the distinct elements of a list. */
  function DistinctWeight<T(==)>(s: seq<T>, w: T -> nat): (r: nat)
  {
    if s == [] then 0
    else
      var front, last := s[..|s| - 1], s[|s| - 1];
      DistinctWeight(front, w) + (if last in front then 0 else w(last))
  }

  lemma {:induction false} DistinctWeightSubadditive<T(!new)>(a: seq<T>, b: seq<T>, w: T -> nat)
    ensures DistinctWeight(a, w) <= DistinctWeight(a + b, w) <= DistinctWeight(a, w) + DistinctWeight(b, w)
  {
    if b == [] {
      assert a + b == a;
    } else {
      var front, last := b[..|b| - 1], b[|b| - 1];
      assert (a + b)[..|a + b| - 1] == a + front;
      DistinctWeightSubadditive(a, front, w);
    }
  }

  lemma {:induction false} DistinctWeightNewHead<T(!new)>(x: T, s: seq<T>, w: T -> nat)
    ensures DistinctWeight([x] + s, w) == DistinctWeight(s, w) + (if x in s then 0 else w(x))
  {
    if s == [] {
      assert [x] + s == [x];
      assert [x][..0] == [];
    } else {
      var front, last := s[..|s| - 1], s[|s| - 1];
      assert ([x] + s)[..|s|] == [x] + front;
      assert s == front + [last];
      DistinctWeightNewHead(x, front, w);
    }
  }

  lemma {:induction false} DistinctWeightOfSuffix<T(!new)>(a: seq<T>, b: seq<T>, w: T -> nat)
    ensures DistinctWeight(b, w) <= DistinctWeight(a + b, w)
  {
    if a == [] {
      assert a + b == b;
    } else {
      assert a + b == [a[0]] + (a[1..] + b);
      DistinctWeightNewHead(a[0], a[1..] + b, w);
      DistinctWeightOfSuffix(a[1..], b, w);
    }
  }

  lemma {:induction false} DedupWeight<T(!new)>(s: seq<T>, w: T -> nat)
    ensures Sum(Dedup(s), w) == DistinctWeight(s, w)
  {
    if s != [] {
      var front, last := s[..|s| - 1], s[|s| - 1];
      DedupWeight(front, w);
      SumAppend(Dedup(front), [last], w);
    }
  }

  lemma {:induction false} InsertSortedWeight(x: int, s: seq<int>, w: int -> nat)
    requires StrictlyIncreasing(s)
    ensures Sum(InsertSorted(x, s), w) == Sum(s, w) + (if x in s then 0 else w(x))
  {
    if s != [] {
      HeadIsLeast(s);
      assert s == [s[0]] + s[1..];
      if x < s[0] {
        assert ([x] + s)[1..] == s;
      } else if x > s[0] {
        InsertSortedWeight(x, s[1..], w);
        assert ([s[0]] + InsertSorted(x, s[1..]))[1..] == InsertSorted(x, s[1..]);
      }
    }
  }

  lemma {:induction false} SortedUniqueWeight(s: seq<int>, w: int -> nat)
    ensures Sum(SortedUnique(s), w) == DistinctWeight(s, w)
  {
    if s != [] {
      var front, last := s[..|s| - 1], s[|s| - 1];
      SortedUniqueWeight(front, w);
      SortedUniqueProperties(front);
      InsertSortedWeight(last, SortedUnique(front), w);
    }
  }

  lemma {:induction false} JoinLength(sep: string, parts: seq<string>, w: string -> nat)
    requires parts != [] && forall t: string :: w(t) == |t| + |sep|
    ensures |Join(sep, parts)| + |sep| == Sum(parts, w)
  {
    var front, last := parts[..|parts| - 1], parts[|parts| - 1];
    assert parts == front + [last];
    SumAppend(front, [last], w);
    if front != [] {
      JoinLength(sep, front, w);
    }
  }

  lemma {:induction false} DecimalsWeight(pages: seq<int>)
    ensures Sum(Decimals(pages), PairWeight) == Sum(pages, PageWeight)
  {
    if pages != [] {
      DecimalsWeight(pages[1..]);
      assert Decimals(pages)[1..] == Decimals(pages[1..]);
    }
  }

  /* ----- length of a rendering ----- */

  /** Weights with the separators " > " and the two-character separators counted in. */
  function TitleWeight(t: string): nat { |t| + 3 }
  function PairWeight(t: string): nat { |t| + 2 }
  function PageWeight(p: int): nat { |Decimal(p)| + 2 }

  function TitlesSize(units: seq<Unit>): nat { DistinctWeight(Sections(units), TitleWeight) }
  function BodySize(units: seq<Unit>): nat { Sum(Bodies(units), PairWeight) }

  ghost predicate AllTexts(units: seq<Unit>)
  {
    forall i :: 0 <= i < |units| ==> units[i].text != ""
  }

  lemma {:induction false} SectionsAppend(a: seq<Unit>, b: seq<Unit>)
    ensures Sections(a + b) == Sections(a) + Sections(b)
  {
    if b == [] {
      assert a + b == a;
    } else {
      assert (a + b)[..|a + b| - 1] == a + b[..|b| - 1];
      SectionsAppend(a, b[..|b| - 1]);
    }
  }

  lemma {:induction false} PagesAppend(a: seq<Unit>, b: seq<Unit>)
    ensures Pages(a + b) == Pages(a) + Pages(b)
  {
    if b == [] {
      assert a + b == a;
    } else {
      assert (a + b)[..|a + b| - 1] == a + b[..|b| - 1];
      PagesAppend(a, b[..|b| - 1]);
    }
  }

  lemma {:induction false} BodiesAppend(a: seq<Unit>, b: seq<Unit>)
    ensures Bodies(a + b) == Bodies(a) + Bodies(b)
  {
    if b == [] {
      assert a + b == a;
    } else {
      assert (a + b)[..|a + b| - 1] == a + b[..|b| - 1];
      BodiesAppend(a, b[..|b| - 1]);
    }
  }

  lemma PartsAppend(a: seq<Unit>, b: seq<Unit>)
    ensures Sections(a + b) == Sections(a) + Sections(b)
    ensures Pages(a + b) == Pages(a) + Pages(b)
    ensures Bodies(a + b) == Bodies(a) + Bodies(b)
  {
    SectionsAppend(a, b);
    PagesAppend(a, b);
    BodiesAppend(a, b);
  }

  lemma BodiesNonEmpty(units: seq<Unit>)
    requires units != [] && AllTexts(units)
    ensures Bodies(units) != [] && Join("\n\n", Bodies(units)) != ""
  {
  }

  lemma PagesTextLength(pages: seq<int>)
    ensures |PagesText(pages)| == if pages == [] then 2 else DistinctWeight(pages, PageWeight)
  {
    SortedUniqueWeight(pages, PageWeight);
    DecimalsWeight(SortedUnique(pages));
    SortedUniqueProperties(pages);
    if pages != [] {
      assert pages[0] in pages;
      JoinLength(", ", Decimals(SortedUnique(pages)), PairWeight);
    }
  }

  lemma HeaderLength(title: string, units: seq<Unit>)
    requires units != []
    ensures |Header(title, units)| == |title| + 23 + TitlesSize(units) + |PagesText(Pages(units))|
  {
    var titles := Sections(units);
    DedupWeight(titles, TitleWeight);
    assert titles[0] in Dedup(titles);
    JoinLength(" > ", Dedup(titles), TitleWeight);
  }

  /** Characters in a rendering of non-empty units, as a function of its parts. */
  lemma RenderLength(title: string, units: seq<Unit>)
    requires units != [] && AllTexts(units)
    ensures |Render(title, units)|
         == |title| + 24 + TitlesSize(units) + |PagesText(Pages(units))| + BodySize(units)
  {
    HeaderLength(title, units);
    BodiesNonEmpty(units);
    JoinLength("\n\n", Bodies(units), PairWeight);
  }

  /** Rendering two groups together costs at least 25 characters less than rendering both. */
  lemma RenderTogether(title: string, a: seq<Unit>, b: seq<Unit>)
    requires title != "" && a != [] && b != [] && AllTexts(a) && AllTexts(b)
    ensures |Render(title, a + b)| + 25 <= |Render(title, a)| + |Render(title, b)|
  {
    hide Sum, Render, PagesText, Sections, Pages, Bodies;
    PartsAppend(a, b);
    RenderLength(title, a);
    RenderLength(title, b);
    RenderLength(title, a + b);
    DistinctWeightSubadditive(Sections(a), Sections(b), TitleWeight);
    DistinctWeightSubadditive(Pages(a), Pages(b), PageWeight);
    SumAppend(Bodies(a), Bodies(b), PairWeight);
    PagesTextLength(Pages(a));
    PagesTextLength(Pages(b));
    PagesTextLength(Pages(a + b));
  }

  lemma {:induction false} DistinctWeightPositive(pages: seq<int>)
    requires pages != []
    ensures DistinctWeight(pages, PageWeight) >= 3
  {
    if |pages| > 1 {
      DistinctWeightPositive(pages[..|pages| - 1]);
    }
  }

  /** A rendering never gets shorter by adding units before or after. */
  lemma RenderMonotone(title: string, a: seq<Unit>, b: seq<Unit>, c: seq<Unit>)
    requires b != [] && AllTexts(a) && AllTexts(b) && AllTexts(c)
    ensures |Render(title, b)| <= |Render(title, a + b + c)|
  {
    hide Sum, Render, PagesText, Sections, Pages, Bodies;
    PartsAppend(a, b);
    PartsAppend(a + b, c);
    RenderLength(title, b);
    RenderLength(title, a + b + c);
    DistinctWeightOfSuffix(Sections(a), Sections(b), TitleWeight);
    DistinctWeightSubadditive(Sections(a + b), Sections(c), TitleWeight);
    DistinctWeightOfSuffix(Pages(a), Pages(b), PageWeight);
    DistinctWeightSubadditive(Pages(a + b), Pages(c), PageWeight);
    SumAppend(Bodies(a), Bodies(b), PairWeight);
    SumAppend(Bodies(a + b), Bodies(c), PairWeight);
    PagesTextLength(Pages(b));
    PagesTextLength(Pages(a + b + c));
    if Pages(a + b + c) != [] {
      DistinctWeightPositive(Pages(a + b + c));
    }
  }

  lemma RenderPrefix(title: string, a: seq<Unit>, b: seq<Unit>)
    requires a != [] && AllTexts(a) && AllTexts(b)
    ensures |Render(title, a)| <= |Render(title, a + b)|
  {
    hide Render;
    RenderMonotone(title, [], a, b);
    assert [] + a + b == a + b;
  }

  /** The probe that measures a section header: one unit without text. */
  function HeaderProbe(section: string, pages: seq<int>): Unit
  {
    Unit(section, pages, "", true)
  }

  /** A single unit is rendered as the header probe, plus its text and two more characters. */
  lemma OneUnitLength(title: string, u: Unit)
    requires u.text != ""
    ensures |Render(title, [u])| == |Render(title, [HeaderProbe(u.section, u.pages)])| + 2 + |u.text|
  {
    var probe := HeaderProbe(u.section, u.pages);
    assert [u][..0] == [] && [probe][..0] == [];
    assert Sections([u]) == [u.section] == Sections([probe]);
    assert Pages([u]) == u.pages == Pages([probe]);
    assert Bodies([u]) == [u.text] && Bodies([probe]) == [];
  }
}
