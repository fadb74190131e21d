/** Selection of ranked sections under a section limit, a token budget and a soft cap per paper. */
module Retrieval {
  import opened Seqs
  import Budget

  datatype Row = Row(paperId: string, ordinal: int, text: string)

  datatype Limits = Limits(maxSections: int, maxTokens: int, charsPerToken: real)

  predicate Sane(limits: Limits)
  {
    limits.charsPerToken > 0.0
  }

  function Tokens(row: Row, limits: Limits): nat
    requires Sane(limits)
  {
    Budget.EstimateTokens(row.text, limits.charsPerToken)
  }

  function Max(a: int, b: int): int
  {
    if a >= b then a else b
  }

  /** The share of each paper: the section limit divided by the number of papers, rounded up. */
  function SoftCap(maxSections: int, papers: nat): (r: int)
    ensures r >= 1
    ensures Max(1, papers) * r >= maxSections
    ensures r == 1 || Max(1, papers) * (r - 1) < maxSections
  {
    var count := Max(1, papers);
    Max(1, -((-maxSections) / count))
  }

  predicate InRange(rows: seq<Row>, picks: seq<nat>)
  {
    forall i :: 0 <= i < |picks| ==> picks[i] < |rows|
  }

  /** The tokens of the picked rows. */
  function Used(rows: seq<Row>, picks: seq<nat>, limits: Limits): nat
    requires Sane(limits) && InRange(rows, picks)
  {
    if picks == [] then 0
    else Used(rows, picks[..|picks| - 1], limits) + Tokens(rows[picks[|picks| - 1]], limits)
  }

  /** How many of the picked rows belong to a paper. */
  function OfPaper(rows: seq<Row>, picks: seq<nat>, paperId: string): nat
    requires InRange(rows, picks)
  {
    if picks == [] then 0
    else OfPaper(rows, picks[..|picks| - 1], paperId) + if rows[picks[|picks| - 1]].paperId == paperId then 1 else 0
  }

  /** What a pass starts from: how many sections are selected and how many tokens they use. */
  datatype Start = Start(sections: nat, tokens: nat)

  /** Whether there is room for a row beside the picks of the pass. */
  predicate Room(rows: seq<Row>, limits: Limits, start: Start, picks: seq<nat>, row: nat)
    requires Sane(limits) && InRange(rows, picks) && row < |rows|
  {
    && start.sections + |picks| < limits.maxSections
    && start.tokens + Used(rows, picks, limits) + Tokens(rows[row], limits) <= limits.maxTokens
  }

  /** A pass over the first `n` rows that leaves out `skipped` ones; a cap of zero stands for none. */
  function Picks(rows: seq<Row>, limits: Limits, start: Start, cap: nat, skipped: set<nat>, n: nat): (r: seq<nat>)
    requires Sane(limits) && n <= |rows|
    ensures forall i :: 0 <= i < |r| ==> r[i] < n && r[i] !in skipped
  {
    if n == 0 then []
    else
      var picks := Picks(rows, limits, start, cap, skipped, n - 1);
      if n - 1 !in skipped && Room(rows, limits, start, picks, n - 1)
         && (cap == 0 || OfPaper(rows, picks, rows[n - 1].paperId) < cap)
      then picks + [n - 1] else picks
  }

  /** The first pass, under the soft cap. */
  function First(rows: seq<Row>, limits: Limits, papers: nat): (r: seq<nat>)
    requires Sane(limits)
    ensures InRange(rows, r)
  {
    Picks(rows, limits, Start(0, 0), SoftCap(limits.maxSections, papers), {}, |rows|)
  }

  function AfterFirst(rows: seq<Row>, limits: Limits, papers: nat): Start
    requires Sane(limits)
  {
    var first := First(rows, limits, papers);
    Start(|first|, Used(rows, first, limits))
  }

  /** The second pass, over all rows again and without the cap. */
  function Second(rows: seq<Row>, limits: Limits, papers: nat): (r: seq<nat>)
    requires Sane(limits)
    ensures InRange(rows, r)
  {
    Picks(rows, limits, AfterFirst(rows, limits, papers), 0, {}, |rows|)
  }

  function RowsAt(rows: seq<Row>, picks: seq<nat>): (r: seq<Row>)
    requires InRange(rows, picks)
    ensures |r| == |picks| && forall i :: 0 <= i < |r| ==> r[i] == rows[picks[i]]
  {
    seq(|picks|, i requires 0 <= i < |picks| => rows[picks[i]])
  }

  /** The state of a pass after its first `n` rows. */
  ghost predicate PassHolds(
    rows: seq<Row>, limits: Limits, start: Start, cap: nat, n: nat, before: seq<Row>,
    selected: seq<Row>, usedTokens: nat, perPaper: map<string, nat>)
    requires Sane(limits) && n <= |rows|
  {
    var picks := Picks(rows, limits, start, cap, {}, n);
    && start.sections == |before|
    && InRange(rows, picks)
    && selected == before + RowsAt(rows, picks)
    && usedTokens == start.tokens + Used(rows, picks, limits)
    && (cap > 0 ==> forall paper: string :: Counted(perPaper, paper) == OfPaper(rows, picks, paper))
  }

  function Counted(perPaper: map<string, nat>, paper: string): nat
  {
    if paper in perPaper then perPaper[paper] else 0
  }

  lemma PassTakes(
    rows: seq<Row>, limits: Limits, start: Start, cap: nat, n: nat, before: seq<Row>,
    selected: seq<Row>, usedTokens: nat, perPaper: map<string, nat>)
    requires Sane(limits) && n < |rows| && PassHolds(rows, limits, start, cap, n, before, selected, usedTokens, perPaper)
    requires |selected| < limits.maxSections && usedTokens + Tokens(rows[n], limits) <= limits.maxTokens
    requires cap == 0 || Counted(perPaper, rows[n].paperId) < cap
    ensures
      PassHolds(rows, limits, start, cap, n + 1, before, selected + [rows[n]], usedTokens + Tokens(rows[n], limits),
                perPaper[rows[n].paperId := Counted(perPaper, rows[n].paperId) + 1])
  {
    hide Tokens, Used, OfPaper, RowsAt;
    var picks := Picks(rows, limits, start, cap, {}, n);
    PickMore(rows, limits, picks, n);
    assert Picks(rows, limits, start, cap, {}, n + 1) == picks + [n];
    ConcatAssoc(before, RowsAt(rows, picks), [rows[n]]);
  }

  lemma PassSkips(
    rows: seq<Row>, limits: Limits, start: Start, cap: nat, n: nat, before: seq<Row>,
    selected: seq<Row>, usedTokens: nat, perPaper: map<string, nat>)
    requires Sane(limits) && n < |rows| && PassHolds(rows, limits, start, cap, n, before, selected, usedTokens, perPaper)
    requires usedTokens + Tokens(rows[n], limits) > limits.maxTokens || (cap > 0 && Counted(perPaper, rows[n].paperId) >= cap)
    ensures PassHolds(rows, limits, start, cap, n + 1, before, selected, usedTokens, perPaper)
  {
    hide Tokens, Used, OfPaper, RowsAt;
    assert Picks(rows, limits, start, cap, {}, n + 1) == Picks(rows, limits, start, cap, {}, n);
  }

  /** One pass of the loop of `_select`; `perPaper` counts the selected rows of each paper. */
  method RunPass(
    rows: seq<Row>, limits: Limits, cap: nat, before: seq<Row>, usedBefore: nat, counted: map<string, nat>)
    returns (selected: seq<Row>, usedTokens: nat, perPaper: map<string, nat>)
    requires Sane(limits) && (cap > 0 ==> counted == map[])
    ensures PassHolds(rows, limits, Start(|before|, usedBefore), cap, |rows|, before, selected, usedTokens, perPaper)
  {
    hide Tokens, Used, Picks, RowsAt;
    selected, usedTokens, perPaper := before, usedBefore, counted;
    ghost var start := Start(|before|, usedBefore);
    PassBegins(rows, limits, start, cap, before, counted);
    for n := 0 to |rows|
      invariant PassHolds(rows, limits, start, cap, n, before, selected, usedTokens, perPaper)
    {
      if |selected| >= limits.maxSections {
        NoRoomLeft(rows, limits, start, cap, n, |rows|);
        return;
      }
      var row := rows[n];
      if (cap > 0 && Counted(perPaper, row.paperId) >= cap) || usedTokens + Tokens(row, limits) > limits.maxTokens {
        PassSkips(rows, limits, start, cap, n, before, selected, usedTokens, perPaper);
      } else {
        PassTakes(rows, limits, start, cap, n, before, selected, usedTokens, perPaper);
        selected := selected + [row];
        perPaper := perPaper[row.paperId := Counted(perPaper, row.paperId) + 1];
        usedTokens := usedTokens + Tokens(row, limits);
      }
    }
  }

  lemma PassBegins(rows: seq<Row>, limits: Limits, start: Start, cap: nat, before: seq<Row>, counted: map<string, nat>)
    requires Sane(limits) && start.sections == |before| && (cap > 0 ==> counted == map[])
    ensures PassHolds(rows, limits, start, cap, 0, before, before, start.tokens, counted)
  {
    assert before + RowsAt(rows, []) == before;
  }

  lemma {:induction false} NoRoomLeft(rows: seq<Row>, limits: Limits, start: Start, cap: nat, n: nat, m: nat)
    requires Sane(limits) && n <= m <= |rows|
    requires start.sections + |Picks(rows, limits, start, cap, {}, n)| >= limits.maxSections
    ensures Picks(rows, limits, start, cap, {}, m) == Picks(rows, limits, start, cap, {}, n)
  {
    if n < m {
      NoRoomLeft(rows, limits, start, cap, n, m - 1);
    }
  }

  /** `_select`: the rows of both passes, one after the other. */
  method Select(rows: seq<Row>, limits: Limits, papers: nat) returns (selected: seq<Row>)
    requires Sane(limits)
    ensures selected == RowsAt(rows, First(rows, limits, papers)) + RowsAt(rows, Second(rows, limits, papers))
  {
    hide Picks, SoftCap, Tokens, Used, RowsAt;
    var usedTokens, perPaper;
    selected, usedTokens, perPaper := RunPass(rows, limits, SoftCap(limits.maxSections, papers), [], 0, map[]);
    ghost var first := RowsAt(rows, First(rows, limits, papers));
    assert selected == [] + first == first;
    selected, usedTokens, perPaper := RunPass(rows, limits, 0, selected, usedTokens, perPaper);
  }

  /* ----- what every pass keeps ----- */

  ghost predicate Increasing(picks: seq<nat>)
  {
    forall i, j :: 0 <= i < j < |picks| ==> picks[i] < picks[j]
  }

  lemma IncreasingAppend(picks: seq<nat>, row: nat)
    requires Increasing(picks) && forall i :: 0 <= i < |picks| ==> picks[i] < row
    ensures Increasing(picks + [row])
  {
  }

  /** A pass takes each row at most once, in the order of their ranks. */
  lemma {:induction false} PicksIncrease(rows: seq<Row>, limits: Limits, start: Start, cap: nat, skipped: set<nat>, n: nat)
    requires Sane(limits) && n <= |rows|
    ensures Increasing(Picks(rows, limits, start, cap, skipped, n))
  {
    hide Room, OfPaper, Increasing;
    if n == 0 {
      EmptyIncreases();
    } else {
      PicksIncrease(rows, limits, start, cap, skipped, n - 1);
      IncreasingAppend(Picks(rows, limits, start, cap, skipped, n - 1), n - 1);
    }
  }

  lemma EmptyIncreases()
    ensures Increasing([])
  {
  }

  lemma PickMore(rows: seq<Row>, limits: Limits, picks: seq<nat>, row: nat)
    requires Sane(limits) && InRange(rows, picks) && row < |rows|
    ensures InRange(rows, picks + [row])
    ensures Used(rows, picks + [row], limits) == Used(rows, picks, limits) + Tokens(rows[row], limits)
    ensures forall paper ::
      OfPaper(rows, picks + [row], paper) == OfPaper(rows, picks, paper) + if rows[row].paperId == paper then 1 else 0
    ensures RowsAt(rows, picks + [row]) == RowsAt(rows, picks) + [rows[row]]
  {
    assert (picks + [row])[..|picks|] == picks;
  }

  /** Room is only ever used up. */
  lemma {:induction false} UsedGrows(rows: seq<Row>, limits: Limits, start: Start, cap: nat, skipped: set<nat>, m: nat, n: nat)
    requires Sane(limits) && m <= n <= |rows|
    ensures
      var early, late := Picks(rows, limits, start, cap, skipped, m), Picks(rows, limits, start, cap, skipped, n);
      && |early| <= |late|
      && (forall row <- early :: row in late)
      && InRange(rows, early) && InRange(rows, late)
      && Used(rows, early, limits) <= Used(rows, late, limits)
      && forall paper :: OfPaper(rows, early, paper) <= OfPaper(rows, late, paper)
  {
    hide Tokens, Room, Used, OfPaper, Sane;
    if m < n {
      UsedGrows(rows, limits, start, cap, skipped, m, n - 1);
      PickMore(rows, limits, Picks(rows, limits, start, cap, skipped, n - 1), n - 1);
    }
  }

  lemma {:induction false} WithinLimits(rows: seq<Row>, limits: Limits, start: Start, cap: nat, skipped: set<nat>, n: nat)
    requires Sane(limits) && n <= |rows|
    ensures
      var picks := Picks(rows, limits, start, cap, skipped, n);
      && InRange(rows, picks)
      && start.sections + |picks| <= Max(start.sections, limits.maxSections)
      && start.tokens + Used(rows, picks, limits) <= Max(start.tokens, limits.maxTokens)
      && (cap > 0 ==> forall paper :: OfPaper(rows, picks, paper) <= cap)
  {
    hide Tokens;
    if n > 0 {
      WithinLimits(rows, limits, start, cap, skipped, n - 1);
      var before := Picks(rows, limits, start, cap, skipped, n - 1);
      assert (before + [n - 1])[..|before|] == before;
    }
  }

  /** Why a row was not picked. */
  predicate Refused(rows: seq<Row>, limits: Limits, start: Start, cap: nat, picks: seq<nat>, row: nat)
    requires Sane(limits) && InRange(rows, picks) && row < |rows|
  {
    !Room(rows, limits, start, picks, row) || (cap > 0 && OfPaper(rows, picks, rows[row].paperId) >= cap)
  }

  /** A row is picked exactly when it is not refused at its turn. */
  lemma {:induction false} PickedIff(rows: seq<Row>, limits: Limits, start: Start, cap: nat, skipped: set<nat>, n: nat, row: nat)
    requires Sane(limits) && row < n <= |rows| && row !in skipped
    ensures row in Picks(rows, limits, start, cap, skipped, n) <==>
      !Refused(rows, limits, start, cap, Picks(rows, limits, start, cap, skipped, row), row)
  {
    hide Room, OfPaper;
    if row < n - 1 {
      PickedIff(rows, limits, start, cap, skipped, n - 1, row);
    }
  }

  /** A row passed over would not fit at the end of the pass either. */
  lemma PassIsMaximal(rows: seq<Row>, limits: Limits, start: Start, cap: nat, row: nat)
    requires Sane(limits) && row < |rows|
    requires row !in Picks(rows, limits, start, cap, {}, |rows|)
    ensures Refused(rows, limits, start, cap, Picks(rows, limits, start, cap, {}, |rows|), row)
  {
    hide Picks, Used, OfPaper, Tokens;
    PickedIff(rows, limits, start, cap, {}, |rows|, row);
    UsedGrows(rows, limits, start, cap, {}, row, |rows|);
  }

  /* ----- the selection as a whole ----- */

  /** Both limits hold over the two passes together, and the soft cap within the first. */
  lemma SelectionWithinLimits(rows: seq<Row>, limits: Limits, papers: nat, paperId: string)
    requires Sane(limits)
    ensures
      var first, second := First(rows, limits, papers), Second(rows, limits, papers);
      && |first| + |second| <= Max(0, limits.maxSections)
      && Used(rows, first, limits) + Used(rows, second, limits) <= Max(0, limits.maxTokens)
      && OfPaper(rows, first, paperId) <= SoftCap(limits.maxSections, papers)
  {
    hide Picks, SoftCap, Used, OfPaper;
    WithinLimits(rows, limits, Start(0, 0), SoftCap(limits.maxSections, papers), {}, |rows|);
    WithinLimits(rows, limits, AfterFirst(rows, limits, papers), 0, {}, |rows|);
  }

  /** When fewer sections than allowed are returned, no row passed over in the second pass would still fit. */
  lemma SelectionIsMaximal(rows: seq<Row>, limits: Limits, papers: nat, row: nat)
    requires Sane(limits) && row < |rows|
    ensures
      var first, second := First(rows, limits, papers), Second(rows, limits, papers);
      |first| + |second| < limits.maxSections && row !in second ==>
        Used(rows, first, limits) + Used(rows, second, limits) + Tokens(rows[row], limits) > limits.maxTokens
  {
    hide Picks, Used, Tokens;
    if row !in Second(rows, limits, papers) {
      PassIsMaximal(rows, limits, AfterFirst(rows, limits, papers), 0, row);
    }
  }

  /** A row that only the second pass takes had been held back by the soft cap. */
  lemma SecondPassTakesCappedRows(rows: seq<Row>, limits: Limits, papers: nat, row: nat)
    requires Sane(limits) && row < |rows|
    requires row in Second(rows, limits, papers) && row !in First(rows, limits, papers)
    ensures OfPaper(rows, First(rows, limits, papers), rows[row].paperId) == SoftCap(limits.maxSections, papers)
  {
    hide Picks, Used, OfPaper, Tokens, SoftCap;
    var start := AfterFirst(rows, limits, papers);
    var cap := SoftCap(limits.maxSections, papers);
    PickedIff(rows, limits, start, 0, {}, |rows|, row);
    PassIsMaximal(rows, limits, Start(0, 0), cap, row);
    WithinLimits(rows, limits, Start(0, 0), cap, {}, |rows|);
  }

  /* ----- rows returned twice ----- */

  predicate Repeats(rows: seq<Row>, limits: Limits, papers: nat)
    requires Sane(limits)
  {
    exists row <- First(rows, limits, papers) :: row in Second(rows, limits, papers)
  }

  function AsSet(picks: seq<nat>): set<nat>
  {
    set pick <- picks
  }

  /**
   * What the second pass would have picked of the first `n` rows if it left out the rows of the
   * first pass.
   */
  function WithoutRepeats(rows: seq<Row>, limits: Limits, papers: nat, n: nat): (r: seq<nat>)
    requires Sane(limits) && n <= |rows|
    ensures InRange(rows, r)
  {
    Picks(rows, limits, AfterFirst(rows, limits, papers), 0, AsSet(First(rows, limits, papers)), n)
  }

  lemma {:induction false} SameUntilRepeat(rows: seq<Row>, limits: Limits, papers: nat, n: nat)
    requires Sane(limits) && n <= |rows|
    requires forall row <- First(rows, limits, papers) | row < n ::
      !Room(rows, limits, AfterFirst(rows, limits, papers), WithoutRepeats(rows, limits, papers, row), row)
    ensures WithoutRepeats(rows, limits, papers, n) == Picks(rows, limits, AfterFirst(rows, limits, papers), 0, {}, n)
  {
    hide First, Room;
    if n > 0 {
      SameUntilRepeat(rows, limits, papers, n - 1);
    }
  }

  lemma {:induction false} SameWithoutRepeat(rows: seq<Row>, limits: Limits, papers: nat, n: nat)
    requires Sane(limits) && n <= |rows|
    requires forall row <- First(rows, limits, papers) ::
      row !in Picks(rows, limits, AfterFirst(rows, limits, papers), 0, {}, n)
    ensures WithoutRepeats(rows, limits, papers, n) == Picks(rows, limits, AfterFirst(rows, limits, papers), 0, {}, n)
  {
    hide First, Room;
    if n > 0 {
      SameWithoutRepeat(rows, limits, papers, n - 1);
    }
  }

  lemma EarlyPicksStay(rows: seq<Row>, limits: Limits, start: Start, n: nat)
    requires Sane(limits) && n <= |rows|
    ensures forall row :: row in Picks(rows, limits, start, 0, {}, n) ==> row in Picks(rows, limits, start, 0, {}, |rows|)
  {
    hide Picks, Used, OfPaper;
    UsedGrows(rows, limits, start, 0, {}, n, |rows|);
  }

  /**
   * No row is returned twice exactly when no row of the first pass finds room at its turn in a
   * second pass that leaves such rows out; the selection is then what that pass gives.
   */
  lemma RepeatsExactly(rows: seq<Row>, limits: Limits, papers: nat)
    requires Sane(limits)
    ensures !Repeats(rows, limits, papers) <==>
      forall row <- First(rows, limits, papers) ::
        !Room(rows, limits, AfterFirst(rows, limits, papers), WithoutRepeats(rows, limits, papers, row), row)
    ensures !Repeats(rows, limits, papers) ==>
      Second(rows, limits, papers) == WithoutRepeats(rows, limits, papers, |rows|)
  {
    hide First, Room, Picks;
    var start := AfterFirst(rows, limits, papers);
    if !Repeats(rows, limits, papers) {
      SameWithoutRepeat(rows, limits, papers, |rows|);
      forall row <- First(rows, limits, papers)
        ensures !Room(rows, limits, start, WithoutRepeats(rows, limits, papers, row), row)
      {
        PickedIff(rows, limits, start, 0, {}, |rows|, row);
        EarlyPicksStay(rows, limits, start, row);
        SameWithoutRepeat(rows, limits, papers, row);
      }
    } else {
      var row :| row in First(rows, limits, papers) && row in Second(rows, limits, papers);
      if forall other <- First(rows, limits, papers) ::
           !Room(rows, limits, start, WithoutRepeats(rows, limits, papers, other), other)
      {
        PickedIff(rows, limits, start, 0, {}, |rows|, row);
        SameUntilRepeat(rows, limits, papers, row);
        assert false;
      }
    }
  }

  /** The best ranked row is returned twice exactly when it still fits after the first pass. */
  lemma BestRowRepeatsIff(rows: seq<Row>, limits: Limits, papers: nat)
    requires Sane(limits) && rows != [] && 0 in First(rows, limits, papers)
    ensures 0 in Second(rows, limits, papers) <==>
      var first := First(rows, limits, papers);
      |first| < limits.maxSections && Used(rows, first, limits) + Tokens(rows[0], limits) <= limits.maxTokens
  {
    hide First, Tokens;
    PickedIff(rows, limits, AfterFirst(rows, limits, papers), 0, {}, |rows|, 0);
    assert Picks(rows, limits, AfterFirst(rows, limits, papers), 0, {}, 0) == [];
  }

  /* ----- rows returned twice, when the token budget does not bind ----- */

  function Min(a: int, b: int): int
  {
    if a <= b then a else b
  }

  function PaperIds(rows: seq<Row>): seq<string>
  {
    seq(|rows|, i requires 0 <= i < |rows| => rows[i].paperId)
  }

  function RowsOf(rows: seq<Row>, paper: string): nat
  {
    multiset(PaperIds(rows))[paper]
  }

  /** The rows that the papers can have under a cap: as many as they have, but no more than the cap each. */
  function Shares(rows: seq<Row>, cap: nat, papers: seq<string>): nat
  {
    if papers == [] then 0
    else Shares(rows, cap, papers[..|papers| - 1]) + Min(cap, RowsOf(rows, papers[|papers| - 1]))
  }

  function AllTokens(rows: seq<Row>, limits: Limits): nat
    requires Sane(limits)
  {
    if rows == [] then 0 else AllTokens(rows[..|rows| - 1], limits) + Tokens(rows[|rows| - 1], limits)
  }

  /** All rows fit the budget, and the best one a second time. */
  predicate Generous(rows: seq<Row>, limits: Limits)
    requires Sane(limits)
  {
    rows != [] ==> AllTokens(rows, limits) + Tokens(rows[0], limits) <= limits.maxTokens
  }

  lemma PaperIdsNext(rows: seq<Row>)
    requires rows != []
    ensures PaperIds(rows) == PaperIds(rows[..|rows| - 1]) + [rows[|rows| - 1].paperId]
  {
  }

  lemma RowsOfNext(rows: seq<Row>, paper: string)
    requires rows != []
    ensures RowsOf(rows, paper) ==
      RowsOf(rows[..|rows| - 1], paper) + if rows[|rows| - 1].paperId == paper then 1 else 0
  {
    PaperIdsNext(rows);
    var front := PaperIds(rows[..|rows| - 1]);
    assert multiset(front + [rows[|rows| - 1].paperId]) == multiset(front) + multiset{rows[|rows| - 1].paperId};
  }

  lemma {:induction false} SharesNext(rows: seq<Row>, cap: nat, papers: seq<string>)
    requires rows != [] && Distinct(papers)
    ensures
      var front, paper := rows[..|rows| - 1], rows[|rows| - 1].paperId;
      Shares(rows, cap, papers) ==
        Shares(front, cap, papers) + if paper in papers && RowsOf(front, paper) < cap then 1 else 0
  {
    hide RowsOf;
    if papers != [] {
      SharesNext(rows, cap, papers[..|papers| - 1]);
      RowsOfNext(rows, papers[|papers| - 1]);
      assert papers == papers[..|papers| - 1] + [papers[|papers| - 1]];
    }
  }

  /** One more row adds one to the shares exactly when its paper is below the cap. */
  lemma AllSharesNext(rows: seq<Row>, cap: nat)
    requires rows != [] && cap > 0
    ensures
      var front, paper := rows[..|rows| - 1], rows[|rows| - 1].paperId;
      Shares(rows, cap, Dedup(PaperIds(rows))) ==
        Shares(front, cap, Dedup(PaperIds(front))) + if RowsOf(front, paper) < cap then 1 else 0
  {
    var front, paper := rows[..|rows| - 1], rows[|rows| - 1].paperId;
    var papers := Dedup(PaperIds(front));
    PaperIdsNext(rows);
    assert PaperIds(rows)[..|rows| - 1] == PaperIds(front);
    DedupDistinct(PaperIds(front));
    SharesNext(rows, cap, papers);
    RowsOfNext(rows, paper);
    if paper !in papers {
      assert RowsOf(front, paper) == 0;
      assert (papers + [paper])[..|papers|] == papers;
    }
  }

  /** The first pass fills the shares of the papers, as far as the section limit goes. */
  ghost predicate FillsShares(rows: seq<Row>, maxSections: int, cap: nat, n: nat, picks: seq<nat>)
    requires n <= |rows| && InRange(rows, picks)
  {
    var shares := Shares(rows[..n], cap, Dedup(PaperIds(rows[..n])));
    || (|picks| >= maxSections && shares >= maxSections)
    || (&& |picks| < maxSections && |picks| == shares
        && forall paper :: OfPaper(rows, picks, paper) == Min(cap, RowsOf(rows[..n], paper)))
  }

  lemma {:induction false} AllTokensPrefix(rows: seq<Row>, limits: Limits, n: nat)
    requires Sane(limits) && n <= |rows|
    ensures AllTokens(rows[..n], limits) <= AllTokens(rows, limits)
  {
    hide Tokens;
    if n < |rows| {
      AllTokensPrefix(rows[..|rows| - 1], limits, n);
      assert rows[..|rows| - 1][..n] == rows[..n];
    } else {
      assert rows[..n] == rows;
    }
  }

  lemma {:induction false} UsedWithinAll(rows: seq<Row>, limits: Limits, start: Start, cap: nat, n: nat)
    requires Sane(limits) && n <= |rows|
    ensures
      var picks := Picks(rows, limits, start, cap, {}, n);
      InRange(rows, picks) && Used(rows, picks, limits) <= AllTokens(rows[..n], limits)
  {
    hide Tokens, Room, OfPaper, Sane;
    if n > 0 {
      UsedWithinAll(rows, limits, start, cap, n - 1);
      PickMore(rows, limits, Picks(rows, limits, start, cap, {}, n - 1), n - 1);
      assert rows[..n][..n - 1] == rows[..n - 1];
    }
  }

  lemma {:induction false} FirstPassFillsShares(rows: seq<Row>, limits: Limits, cap: nat, n: nat)
    requires Sane(limits) && n <= |rows| && cap > 0 && AllTokens(rows, limits) <= limits.maxTokens
    ensures
      var picks := Picks(rows, limits, Start(0, 0), cap, {}, n);
      InRange(rows, picks) && FillsShares(rows, limits.maxSections, cap, n, picks)
  {
    hide Tokens, Used, OfPaper, RowsOf, Shares, PaperIds, AllTokens;
    if n == 0 {
      NoShares(rows, limits.maxSections, cap);
    } else {
      FirstPassFillsShares(rows, limits, cap, n - 1);
      var picks := Picks(rows, limits, Start(0, 0), cap, {}, n - 1);
      AllSharesNext(rows[..n], cap);
      assert rows[..n][..n - 1] == rows[..n - 1];
      TokensLeft(rows, limits, cap, n);
      PickMore(rows, limits, picks, n - 1);
      forall paper
        ensures RowsOf(rows[..n], paper) == RowsOf(rows[..n - 1], paper) + if rows[n - 1].paperId == paper then 1 else 0
      {
        RowsOfNext(rows[..n], paper);
      }
    }
  }

  lemma TokensLeft(rows: seq<Row>, limits: Limits, cap: nat, n: nat)
    requires Sane(limits) && 0 < n <= |rows| && AllTokens(rows, limits) <= limits.maxTokens
    ensures
      var picks := Picks(rows, limits, Start(0, 0), cap, {}, n - 1);
      InRange(rows, picks) && Used(rows, picks, limits) + Tokens(rows[n - 1], limits) <= limits.maxTokens
  {
    hide Tokens, Used, Picks;
    UsedWithinAll(rows, limits, Start(0, 0), cap, n - 1);
    AllTokensPrefix(rows, limits, n);
    assert rows[..n][..n - 1] == rows[..n - 1];
  }

  lemma NoShares(rows: seq<Row>, maxSections: int, cap: nat)
    ensures FillsShares(rows, maxSections, cap, 0, [])
  {
  }

  /**
   * When the budget does not bind, a row is returned twice exactly when there are rows and the
   * papers' shares under the soft cap do not fill the section limit.
   */
  lemma GenerousRepeatsIff(rows: seq<Row>, limits: Limits, papers: nat)
    requires Sane(limits) && Generous(rows, limits)
    ensures Repeats(rows, limits, papers) <==>
      && rows != []
      && Shares(rows, SoftCap(limits.maxSections, papers), Dedup(PaperIds(rows))) < limits.maxSections
  {
    hide Picks, Used, OfPaper, Tokens, SoftCap, Shares, PaperIds, AllTokens, RowsOf;
    var cap := SoftCap(limits.maxSections, papers);
    var first, start := First(rows, limits, papers), AfterFirst(rows, limits, papers);
    if rows != [] {
      FirstPassFillsShares(rows, limits, cap, |rows|);
      assert rows[..|rows|] == rows;
      UsedWithinAll(rows, limits, Start(0, 0), cap, |rows|);
      if |first| < limits.maxSections {
        FirstTakesBest(rows, limits, papers);
        BestRowRepeatsIff(rows, limits, papers);
      } else {
        forall row <- first ensures row !in Second(rows, limits, papers) {
          PickedIff(rows, limits, start, 0, {}, |rows|, row);
        }
      }
    }
  }

  lemma FirstTakesBest(rows: seq<Row>, limits: Limits, papers: nat)
    requires Sane(limits) && rows != [] && Generous(rows, limits) && limits.maxSections > 0
    ensures 0 in First(rows, limits, papers)
  {
    hide Tokens, SoftCap;
    var cap := SoftCap(limits.maxSections, papers);
    PickedIff(rows, limits, Start(0, 0), cap, {}, |rows|, 0);
  }

  /** A section of four characters, two sections allowed and a generous budget: it comes back twice. */
  lemma RepeatExample(row: Row)
    requires |row.text| == 4
    ensures
      var limits := Limits(2, 100, 4.0);
      RowsAt([row], First([row], limits, 1)) + RowsAt([row], Second([row], limits, 1)) == [row, row]
  {
    var rows, limits := [row], Limits(2, 100, 4.0);
    assert Tokens(row, limits) == 1 by {
      Budget.QuarterTokens(row.text, 1);
    }
    hide Tokens;
    assert SoftCap(2, 1) == 2;
    assert Picks(rows, limits, Start(0, 0), 2, {}, 0) == [];
    assert First(rows, limits, 1) == [] + [0] == [0];
    assert [0][..0] == [];
    assert Used(rows, [0], limits) == 1;
    var start := AfterFirst(rows, limits, 1);
    assert Picks(rows, limits, start, 0, {}, 0) == [];
    assert Second(rows, limits, 1) == [] + [0] == [0];
  }
}
