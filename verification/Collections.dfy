/** The papers of a collection and their positions. */
module Collections {
  import opened Seqs

  type PaperId = string

  datatype Member = Member(position: nat, note: Option<string>, addedAt: int)

  /** The membership rows of one collection, by paper. */
  type Rows = map<PaperId, Member>

  /** The collection shows the papers in this order, at positions 0, 1, 2 and so on. */
  ghost predicate Shows(rows: Rows, order: seq<PaperId>)
  {
    && Distinct(order)
    && (forall paper <- rows.Keys :: paper in order)
    && (forall i :: 0 <= i < |order| ==> order[i] in rows && rows[order[i]].position == i)
  }

  /** A collection shows its papers in one order only. */
  lemma ShowsOneOrder(rows: Rows, a: seq<PaperId>, b: seq<PaperId>)
    requires Shows(rows, a) && Shows(rows, b)
    ensures a == b
  {
    assert forall paper :: paper in a <==> paper in b;
    SameElementsSameLength(a, b);
    forall i | 0 <= i < |a| ensures a[i] == b[i] {
      assert a[i] in b;
    }
  }

  predicate ByPosition(rows: Rows, listed: seq<PaperId>)
    requires forall paper <- listed :: paper in rows
  {
    forall i, j :: 0 <= i < j < |listed| ==> rows[listed[i]].position <= rows[listed[j]].position
  }

  /** The paper of the least position among some. */
  method Least(rows: Rows, rest: set<PaperId>) returns (least: PaperId)
    requires rest != {} && rest <= rows.Keys
    ensures least in rest && forall paper <- rest :: rows[least].position <= rows[paper].position
  {
    least :| least in rest;
    var others := rest - {least};
    while others != {}
      invariant others <= rest && least in rest
      invariant forall paper <- rest - others :: rows[least].position <= rows[paper].position
      decreases |others|
    {
      var paper :| paper in others;
      if rows[paper].position < rows[least].position {
        least := paper;
      }
      others := others - {paper};
    }
  }

  /** A query of the rows ordered by position. */
  method SelectByPosition(rows: Rows) returns (listed: seq<PaperId>)
    ensures Distinct(listed) && (forall paper :: paper in listed <==> paper in rows) && ByPosition(rows, listed)
    ensures forall order :: Shows(rows, order) ==> listed == order
  {
    listed := [];
    var rest := rows.Keys;
    while rest != {}
      invariant rest <= rows.Keys && Distinct(listed)
      invariant forall paper :: paper in listed <==> paper in rows && paper !in rest
      invariant ByPosition(rows, listed)
      invariant forall i :: 0 <= i < |listed| ==> forall paper <- rest :: rows[listed[i]].position <= rows[paper].position
      decreases |rest|
    {
      var least := Least(rows, rest);
      listed := listed + [least];
      rest := rest - {least};
    }
    forall order | Shows(rows, order) ensures listed == order {
      SortedIsShown(rows, listed, order);
    }
  }

  lemma SortedIsShown(rows: Rows, listed: seq<PaperId>, order: seq<PaperId>)
    requires Distinct(listed) && (forall paper :: paper in listed <==> paper in rows) && ByPosition(rows, listed)
    requires Shows(rows, order)
    ensures listed == order
  {
    SameElementsSameLength(listed, order);
    var positions := seq(|listed|, i requires 0 <= i < |listed| => rows[listed[i]].position);
    forall i, j | 0 <= i < j < |positions| ensures positions[i] < positions[j] {
      assert listed[i] in order && listed[j] in order;
    }
    forall i | 0 <= i < |positions| ensures positions[i] < |positions| {
      assert listed[i] in order;
    }
    forall i | 0 <= i < |listed| ensures listed[i] == order[i] {
      Climbs(positions, i);
      assert listed[i] in order;
    }
  }

  lemma SameElementsSameLength(a: seq<PaperId>, b: seq<PaperId>)
    requires Distinct(a) && Distinct(b) && forall x :: x in a <==> x in b
    ensures |a| == |b|
  {
    forall x ensures multiset(a)[x] == multiset(b)[x] {
      DistinctCounts(a, x);
      DistinctCounts(b, x);
    }
    assert multiset(a) == multiset(b);
    assert |multiset(a)| == |a| && |multiset(b)| == |b|;
  }

  /** Strictly increasing numbers below their count are 0, 1, 2 and so on. */
  lemma {:induction false} Climbs(s: seq<nat>, i: nat)
    requires (forall j, k :: 0 <= j < k < |s| ==> s[j] < s[k]) && (forall j :: 0 <= j < |s| ==> s[j] < |s|)
    requires i < |s|
    ensures s[i] == i
  {
    AtLeast(s, i);
    AtMost(s, i);
  }

  lemma {:induction false} AtLeast(s: seq<nat>, i: nat)
    requires (forall j, k :: 0 <= j < k < |s| ==> s[j] < s[k]) && i < |s|
    ensures s[i] >= i
  {
    if i > 0 {
      AtLeast(s, i - 1);
      assert s[i - 1] < s[i];
    }
  }

  lemma {:induction false} AtMost(s: seq<nat>, i: nat)
    requires (forall j, k :: 0 <= j < k < |s| ==> s[j] < s[k]) && (forall j :: 0 <= j < |s| ==> s[j] < |s|)
    requires i < |s|
    ensures s[i] <= i
    decreases |s| - i
  {
    if i < |s| - 1 {
      AtMost(s, i + 1);
      assert s[i] < s[i + 1];
    }
  }

  /** The rows keep their notes and times. */
  ghost predicate DetailsKept(rows: Rows, rows': Rows)
  {
    forall paper <- rows'.Keys :: paper in rows ==>
      rows'[paper] == rows[paper].(position := rows'[paper].position)
  }

  /** Rows for the given papers, numbered from zero, with the details they have. */
  function Numbered(rows: Rows, order: seq<PaperId>): (r: Rows)
    requires Distinct(order) && forall paper <- order :: paper in rows
    ensures Shows(r, order) && DetailsKept(rows, r)
  {
    if order == [] then map[]
    else
      var last := order[|order| - 1];
      assert order == order[..|order| - 1] + [last];
      Numbered(rows, order[..|order| - 1])[last := rows[last].(position := |order| - 1)]
  }

  function Without(order: seq<PaperId>, paper: PaperId): (r: seq<PaperId>)
    ensures forall x :: x in r <==> x in order && x != paper
  {
    if order == [] then []
    else
      var last := order[|order| - 1];
      assert order == order[..|order| - 1] + [last];
      Without(order[..|order| - 1], paper) + if last == paper then [] else [last]
  }

  lemma {:induction false} WithoutDistinct(order: seq<PaperId>, paper: PaperId)
    requires Distinct(order)
    ensures Distinct(Without(order, paper))
  {
    if order != [] {
      WithoutDistinct(order[..|order| - 1], paper);
      assert order[|order| - 1] !in order[..|order| - 1];
    }
  }

  /** One paper comes somewhere before another. */
  ghost predicate Precedes(order: seq<PaperId>, first: PaperId, second: PaperId)
  {
    exists k, l :: 0 <= k < l < |order| && order[k] == first && order[l] == second
  }

  lemma PrecedesInFront(front: seq<PaperId>, rest: seq<PaperId>, first: PaperId, second: PaperId)
    ensures Precedes(front, first, second) ==> Precedes(front + rest, first, second)
    ensures first in front && second in rest ==> Precedes(front + rest, first, second)
  {
    if k, l :| 0 <= k < l < |front| && front[k] == first && front[l] == second {
      assert (front + rest)[k] == first && (front + rest)[l] == second;
    }
    if k, l :| 0 <= k < |front| && 0 <= l < |rest| && front[k] == first && rest[l] == second {
      assert (front + rest)[k] == first && (front + rest)[|front| + l] == second;
    }
  }

  /** The papers left keep the order they had among each other. */
  lemma {:induction false} WithoutKeepsOrder(order: seq<PaperId>, paper: PaperId, i: nat, j: nat)
    requires i < j < |order| && order[i] != paper && order[j] != paper
    ensures Precedes(Without(order, paper), order[i], order[j])
  {
    hide Precedes;
    var front, last := order[..|order| - 1], order[|order| - 1];
    PrecedesInFront(Without(front, paper), if last == paper then [] else [last], order[i], order[j]);
    if j < |order| - 1 {
      WithoutKeepsOrder(front, paper, i, j);
    } else {
      assert front[i] in front;
    }
  }

  datatype Error = Duplicates | PapersMissing | NotExactlyTheMembers | NotAMember

  /** The rows after the first `n` papers have been added to those there before. */
  ghost predicate AddHolds(before: Rows, order0: seq<PaperId>, papers: seq<PaperId>, n: nat, rows: Rows, order: seq<PaperId>)
    requires n <= |papers|
  {
    && Shows(before, order0)
    && Shows(rows, order)
    && order == Dedup(order0 + papers[..n])
    && (forall paper <- before.Keys :: paper in rows && rows[paper] == before[paper])
  }

  lemma AddNext(
    before: Rows, order0: seq<PaperId>, papers: seq<PaperId>, n: nat, rows: Rows, order: seq<PaperId>, now: int)
    requires n < |papers| && Distinct(papers) && AddHolds(before, order0, papers, n, rows, order)
    ensures
      if papers[n] in before then AddHolds(before, order0, papers, n + 1, rows, order)
      else AddHolds(before, order0, papers, n + 1, rows[papers[n] := Member(|order|, None, now)], order + [papers[n]])
  {
    var paper := papers[n];
    var earlier, later := order0 + papers[..n], order0 + papers[..n + 1];
    assert later == earlier + [paper] && later[..|later| - 1] == earlier;
    assert paper in earlier <==> paper in before by {
      assert paper !in papers[..n];
      assert paper in order0 <==> paper in before.Keys;
    }
    assert Dedup(later) == if paper in before then order else order + [paper];
    hide Dedup;
    if paper !in before {
      assert paper !in order;
      ShowsMore(rows, order, paper, Member(|order|, None, now));
    }
  }

  lemma ShowsMore(rows: Rows, order: seq<PaperId>, paper: PaperId, member: Member)
    requires Shows(rows, order) && paper !in order && member.position == |order|
    ensures Shows(rows[paper := member], order + [paper])
  {
  }

  /** `len(paper_ids) != len(set(paper_ids))`. */
  method Repeated(papers: seq<PaperId>) returns (repeated: bool)
    ensures repeated <==> !Distinct(papers)
  {
    DedupDistinct(papers);
    if Distinct(papers) {
      DedupIdentity(papers);
    }
    return Dedup(papers) != papers;
  }

  lemma AddBegins(rows: Rows, order: seq<PaperId>, papers: seq<PaperId>)
    requires Shows(rows, order)
    ensures AddHolds(rows, order, papers, 0, rows, order)
  {
    assert order + papers[..0] == order;
    DedupIdentity(order);
  }

  lemma AddEnds(before: Rows, order0: seq<PaperId>, papers: seq<PaperId>, rows: Rows, order: seq<PaperId>)
    requires AddHolds(before, order0, papers, |papers|, rows, order)
    ensures Shows(rows, order) && order == Dedup(order0 + papers)
    ensures forall paper <- before.Keys :: paper in rows && rows[paper] == before[paper]
  {
    assert papers[..|papers|] == papers;
  }

  /** One past the last position, as `max(position) + 1` gives it. */
  method NextPosition(rows: Rows, ghost order: seq<PaperId>) returns (position: nat)
    requires Shows(rows, order)
    ensures position == |order|
  {
    var listed := SelectByPosition(rows);
    assert listed == order;
    return if listed == [] then 0 else rows[listed[|listed| - 1]].position + 1;
  }

  /** The rows without a paper, numbered again in the order of their positions. */
  method Compact(rows: Rows, paper: PaperId, ghost order: seq<PaperId>) returns (compacted: Rows)
    requires Shows(rows, order)
    ensures Shows(compacted, Without(order, paper)) && DetailsKept(rows, compacted)
  {
    var listed := SelectByPosition(rows - {paper});
    RemainingInOrder(rows, order, paper, listed);
    return Numbered(rows, listed);
  }

  class Collection {
    var rows: Rows
    ghost var order: seq<PaperId>

    ghost predicate Valid()
      reads this
    {
      Shows(rows, order)
    }

    constructor ()
      ensures Valid() && order == []
    {
      rows, order := map[], [];
    }

    /** `add_collection_papers`: new papers go to the end; those already there stay where they are. */
    method Add(papers: seq<PaperId>, known: set<PaperId>, now: int) returns (error: Option<Error>)
      requires Valid()
      modifies this
      ensures Valid()
      ensures error.None? <==> Distinct(papers) && forall paper <- papers :: paper in known
      ensures error.Some? ==> rows == old(rows) && order == old(order)
      ensures error.None? ==> order == Dedup(old(order) + papers)
      ensures error.None? ==> forall paper <- old(rows).Keys :: paper in rows && rows[paper] == old(rows)[paper]
    {
      var repeated := Repeated(papers);
      if repeated {
        return Some(Duplicates);
      }
      if exists paper <- papers :: paper !in known {
        return Some(PapersMissing);
      }
      hide Shows, AddHolds;
      ghost var before, order0 := rows, order;
      var existing := rows.Keys;
      var position := NextPosition(rows, order);
      AddBegins(rows, order, papers);
      for i := 0 to |papers|
        invariant AddHolds(before, order0, papers, i, rows, order) && position == |order|
      {
        AddNext(before, order0, papers, i, rows, order, now);
        if papers[i] !in existing {
          rows := rows[papers[i] := Member(position, None, now)];
          order := order + [papers[i]];
          position := position + 1;
        }
      }
      AddEnds(before, order0, papers, rows, order);
      return None;
    }

    /** `reorder_collection`. */
    method Reorder(papers: seq<PaperId>) returns (error: Option<Error>)
      requires Valid()
      modifies this
      ensures Valid() && DetailsKept(old(rows), rows) && rows.Keys == old(rows).Keys
      ensures error.None? <==> Distinct(papers) && forall paper :: paper in papers <==> paper in old(order)
      ensures order == if error.None? then papers else old(order)
      ensures error.Some? ==> rows == old(rows)
    {
      var repeated := Repeated(papers);
      if repeated {
        return Some(Duplicates);
      }
      if (set paper <- papers) != rows.Keys {
        assert forall paper :: paper in order <==> paper in rows;
        return Some(NotExactlyTheMembers);
      }
      ghost var before := rows;
      rows, order := Numbered(rows, papers), papers;
      assert forall paper :: paper in rows <==> paper in before;
      return None;
    }

    /** `remove_collection_paper`: those behind the paper move up. */
    method Remove(paper: PaperId) returns (error: Option<Error>)
      requires Valid()
      modifies this
      ensures Valid() && DetailsKept(old(rows), rows)
      ensures error.None? <==> paper in old(order)
      ensures order == if error.None? then Without(old(order), paper) else old(order)
      ensures error.Some? ==> rows == old(rows)
    {
      if paper !in rows {
        return Some(NotAMember);
      }
      rows := Compact(rows, paper, order);
      order := Without(order, paper);
      return None;
    }
  }

  lemma {:induction false} RemainingByPosition(rows: Rows, order: seq<PaperId>, paper: PaperId)
    requires Distinct(order) && forall i :: 0 <= i < |order| ==> order[i] in rows && rows[order[i]].position == i
    ensures ByPosition(rows, Without(order, paper))
    ensures forall x <- Without(order, paper) :: rows[x].position < |order|
  {
    if order != [] {
      RemainingByPosition(rows, order[..|order| - 1], paper);
    }
  }

  /** What is left, sorted by the old positions, is the old order without the paper. */
  lemma RemainingInOrder(rows: Rows, order: seq<PaperId>, paper: PaperId, listed: seq<PaperId>)
    requires Shows(rows, order) && Distinct(listed)
    requires (forall x :: x in listed <==> x in rows && x != paper) && ByPosition(rows, listed)
    ensures listed == Without(order, paper)
  {
    var rest := Without(order, paper);
    WithoutDistinct(order, paper);
    RemainingByPosition(rows, order, paper);
    forall x, y | x in rows && y in rows && rows[x].position == rows[y].position ensures x == y {
      assert x in order && y in order;
    }
    SortedOnce(rows, listed, rest);
  }

  lemma WithoutLast(s: seq<PaperId>)
    requires Distinct(s) && s != []
    ensures Distinct(s[..|s| - 1]) && forall x :: x in s[..|s| - 1] <==> x in s && x != s[|s| - 1]
  {
    assert s == s[..|s| - 1] + [s[|s| - 1]];
  }

  /** A strictly ordered list is determined by its elements. */
  lemma {:induction false} SortedOnce(rows: Rows, a: seq<PaperId>, b: seq<PaperId>)
    requires Distinct(a) && Distinct(b) && (forall x :: x in a <==> x in b) && (forall x <- a :: x in rows)
    requires (forall x <- b :: x in rows) && ByPosition(rows, a) && ByPosition(rows, b)
    requires forall x <- a :: forall y <- a :: rows[x].position == rows[y].position ==> x == y
    ensures a == b
  {
    SameElementsSameLength(a, b);
    if a != [] {
      var last := |a| - 1;
      LastIsGreatest(rows, a, b[last]);
      LastIsGreatest(rows, b, a[last]);
      assert a[last] == b[last];
      WithoutLast(a);
      WithoutLast(b);
      forall x ensures x in a[..last] <==> x in b[..last] {
        assert x in a <==> x in b;
      }
      SortedOnce(rows, a[..last], b[..last]);
      assert a == a[..last] + [a[last]] && b == b[..last] + [b[last]];
    }
  }

  lemma LastIsGreatest(rows: Rows, s: seq<PaperId>, paper: PaperId)
    requires s != [] && (forall x <- s :: x in rows) && ByPosition(rows, s) && paper in s
    ensures s[|s| - 1] in s && rows[paper].position <= rows[s[|s| - 1]].position
  {
  }
}
