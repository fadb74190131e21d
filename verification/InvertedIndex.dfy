/** Rebuilding an abstract from an inverted index of its words. */
module InvertedIndex {
  import opened Seqs

  /** A listed position; anything that is not an integer is passed over. */
  datatype Position = At(position: int) | Other

  /** One key of the index with its list of positions, if it has a list. */
  datatype Entry = Entry(word: string, positions: Option<seq<Position>>)

  datatype Pair = Pair(position: nat, word: string)

  /** The order of Python strings. */
  predicate WordLe(a: string, b: string)
  {
    a == "" || (b != "" && (a[0] < b[0] || (a[0] == b[0] && WordLe(a[1..], b[1..]))))
  }

  lemma {:induction false} WordsCompare(a: string, b: string)
    ensures WordLe(a, b) || WordLe(b, a)
  {
    if a != "" && b != "" {
      WordsCompare(a[1..], b[1..]);
    }
  }

  /** The order of position and word pairs. */
  predicate PairLe(a: Pair, b: Pair)
  {
    a.position < b.position || (a.position == b.position && WordLe(a.word, b.word))
  }

  predicate Ordered(s: seq<Pair>)
  {
    |s| <= 1 || (PairLe(s[0], s[1]) && Ordered(s[1..]))
  }

  function Insert(x: Pair, s: seq<Pair>): seq<Pair>
  {
    if s == [] || PairLe(x, s[0]) then [x] + s else [s[0]] + Insert(x, s[1..])
  }

  /** `sorted` of pairs. */
  function Sorted(s: seq<Pair>): seq<Pair>
  {
    if s == [] then [] else Insert(s[|s| - 1], Sorted(s[..|s| - 1]))
  }

  lemma {:induction false} InsertOrders(x: Pair, s: seq<Pair>)
    requires Ordered(s)
    ensures Ordered(Insert(x, s)) && multiset(Insert(x, s)) == multiset(s) + multiset{x}
  {
    if s != [] {
      assert s == [s[0]] + s[1..];
      if PairLe(x, s[0]) {
        assert ([x] + s)[1..] == s;
      } else {
        WordsCompare(x.word, s[0].word);
        InsertOrders(x, s[1..]);
        assert ([s[0]] + Insert(x, s[1..]))[1..] == Insert(x, s[1..]);
      }
    }
  }

  lemma {:induction false} SortedOrders(s: seq<Pair>)
    ensures Ordered(Sorted(s)) && multiset(Sorted(s)) == multiset(s)
  {
    if s != [] {
      var front, last := s[..|s| - 1], s[|s| - 1];
      assert s == front + [last];
      SortedOrders(front);
      InsertOrders(last, Sorted(front));
    }
  }

  /* ----- reading the index ----- */

  function EntryPairs(word: string, positions: seq<Position>): (r: seq<Pair>)
  {
    if positions == [] then []
    else
      var last := positions[|positions| - 1];
      EntryPairs(word, positions[..|positions| - 1]) +
      if last.At? && last.position >= 0 then [Pair(last.position, word)] else []
  }

  function Pairs(index: seq<Entry>): (r: seq<Pair>)
  {
    if index == [] then []
    else
      var last := index[|index| - 1];
      Pairs(index[..|index| - 1]) + if last.positions.Some? then EntryPairs(last.word, last.positions.value) else []
  }

  function Words(pairs: seq<Pair>): (r: seq<string>)
    ensures |r| == |pairs| && forall i :: 0 <= i < |r| ==> r[i] == pairs[i].word
  {
    seq(|pairs|, i requires 0 <= i < |pairs| => pairs[i].word)
  }

  /** `_openalex_abstract` up to the joining of the words; None when there is no position at all. */
  method RebuildWords(index: Option<seq<Entry>>) returns (words: Option<seq<string>>)
    ensures words ==
      if index.None? || Pairs(index.value) == [] then None else Some(Words(Sorted(Pairs(index.value))))
  {
    if index.None? {
      return None;
    }
    var pairs: seq<Pair> := [];
    for i := 0 to |index.value|
      invariant pairs == Pairs(index.value[..i])
    {
      var entry := index.value[i];
      assert index.value[..i + 1][..i] == index.value[..i];
      if entry.positions.Some? {
        pairs := pairs + EntryPairs(entry.word, entry.positions.value);
      }
    }
    assert index.value[..|index.value|] == index.value;
    if pairs == [] {
      return None;
    }
    return Some(Words(Sorted(pairs)));
  }

  /* ----- the index of a text ----- */

  /** The position is listed under the word. */
  predicate Listed(entry: Entry, position: nat)
  {
    entry.positions.Some? && At(position) in entry.positions.value
  }

  /** No position is listed twice under one word. */
  ghost predicate ListedOnce(positions: seq<Position>)
  {
    forall i, j :: 0 <= i < j < |positions| && positions[i].At? ==> positions[i] != positions[j]
  }

  ghost predicate RightPositions(entry: Entry, words: seq<string>)
  {
    forall position: nat :: Listed(entry, position) ==> position < |words| && words[position] == entry.word
  }

  /** The index lists, under each word of a text, its positions; keys and positions in any order. */
  ghost predicate IndexOf(index: seq<Entry>, words: seq<string>)
  {
    && (forall i, j :: 0 <= i < j < |index| ==> index[i].word != index[j].word)
    && (forall i :: 0 <= i < |index| && index[i].positions.Some? ==> ListedOnce(index[i].positions.value))
    && (forall i :: 0 <= i < |index| ==> RightPositions(index[i], words))
    && (forall position :: 0 <= position < |words| ==> Somewhere(index, position))
  }

  predicate Somewhere(index: seq<Entry>, position: nat)
  {
    exists i :: 0 <= i < |index| && Listed(index[i], position)
  }

  lemma {:induction false} EntryPairsMembers(word: string, positions: seq<Position>)
    ensures forall pair :: pair in EntryPairs(word, positions) <==> pair.word == word && At(pair.position) in positions
  {
    if positions != [] {
      var front, last := positions[..|positions| - 1], positions[|positions| - 1];
      EntryPairsMembers(word, front);
      assert positions == front + [last];
    }
  }

  lemma {:induction false} EntryPairsDistinct(word: string, positions: seq<Position>)
    requires ListedOnce(positions)
    ensures Distinct(EntryPairs(word, positions))
  {
    if positions != [] {
      var front, last := positions[..|positions| - 1], positions[|positions| - 1];
      EntryPairsDistinct(word, front);
      EntryPairsMembers(word, front);
    }
  }

  lemma {:induction false} PairsMembers(index: seq<Entry>, pair: Pair)
    ensures pair in Pairs(index) <==> exists i :: 0 <= i < |index| && index[i].word == pair.word && Listed(index[i], pair.position)
  {
    hide EntryPairs;
    if index != [] {
      var front, last := index[..|index| - 1], index[|index| - 1];
      PairsMembers(front, pair);
      if last.positions.Some? {
        EntryPairsMembers(last.word, last.positions.value);
      }
      assert forall i :: 0 <= i < |front| ==> index[i] == front[i];
      if i :| 0 <= i < |index| && index[i].word == pair.word && Listed(index[i], pair.position) {
        if i < |front| {
          assert front[i].word == pair.word && Listed(front[i], pair.position);
        }
      }
    }
  }

  lemma DistinctAppend<T>(a: seq<T>, b: seq<T>)
    requires Distinct(a) && Distinct(b) && forall x <- b :: x !in a
    ensures Distinct(a + b)
  {
    forall i, j | 0 <= i < j < |a + b| ensures (a + b)[i] != (a + b)[j] {
      if i < |a| <= j {
        assert (a + b)[j] == b[j - |a|] && b[j - |a|] in b;
      }
    }
  }

  lemma {:induction false} PairsDistinct(index: seq<Entry>)
    requires forall i, j :: 0 <= i < j < |index| ==> index[i].word != index[j].word
    requires forall i :: 0 <= i < |index| && index[i].positions.Some? ==> ListedOnce(index[i].positions.value)
    ensures Distinct(Pairs(index))
  {
    hide EntryPairs;
    if index != [] {
      var front, last := index[..|index| - 1], index[|index| - 1];
      PairsDistinct(front);
      if last.positions.Some? {
        var added := EntryPairs(last.word, last.positions.value);
        EntryPairsDistinct(last.word, last.positions.value);
        EntryPairsMembers(last.word, last.positions.value);
        forall pair <- added ensures pair !in Pairs(front) {
          PairsMembers(front, pair);
        }
        DistinctAppend(Pairs(front), added);
      } else {
        assert Pairs(index) == Pairs(front);
      }
    }
  }

  /** Each word of a text with its position. */
  function Enumerated(words: seq<string>): (r: seq<Pair>)
    ensures |r| == |words| && forall i :: 0 <= i < |r| ==> r[i] == Pair(i, words[i])
  {
    seq(|words|, i requires 0 <= i < |words| => Pair(i, words[i]))
  }

  lemma IndexedPair(index: seq<Entry>, words: seq<string>, pair: Pair)
    requires IndexOf(index, words)
    ensures pair in Pairs(index) <==> pair in Enumerated(words)
  {
    hide Pairs;
    PairsMembers(index, pair);
    if pair in Pairs(index) {
      var i :| 0 <= i < |index| && index[i].word == pair.word && Listed(index[i], pair.position);
      assert RightPositions(index[i], words);
      assert Enumerated(words)[pair.position] == pair;
    }
    if pair in Enumerated(words) {
      assert pair.position < |words| && Somewhere(index, pair.position);
      var i :| 0 <= i < |index| && Listed(index[i], pair.position);
      assert RightPositions(index[i], words);
    }
  }

  lemma IndexHasTheWords(index: seq<Entry>, words: seq<string>)
    requires IndexOf(index, words)
    ensures multiset(Pairs(index)) == multiset(Enumerated(words))
  {
    hide Pairs;
    PairsDistinct(index);
    forall pair: Pair ensures multiset(Pairs(index))[pair] == multiset(Enumerated(words))[pair] {
      IndexedPair(index, words, pair);
      DistinctCounts(Pairs(index), pair);
      DistinctCounts(Enumerated(words), pair);
    }
  }

  lemma {:induction false} LastIsGreatest(s: seq<Pair>, i: nat)
    requires Ordered(s) && i < |s|
    ensures s[i].position <= s[|s| - 1].position
  {
    if |s| > 1 {
      LastIsGreatest(s[1..], if i > 0 then i - 1 else 0);
    }
  }

  lemma {:induction false} OrderedFront(s: seq<Pair>)
    requires s != [] && Ordered(s)
    ensures Ordered(s[..|s| - 1])
  {
    if |s| > 2 {
      OrderedFront(s[1..]);
      assert s[1..][..|s| - 2] == s[..|s| - 1][1..];
    }
  }

  lemma SameSize<T>(a: seq<T>, b: seq<T>)
    requires multiset(a) == multiset(b)
    ensures |a| == |b| && forall x :: x in a <==> x in b
  {
    assert |multiset(a)| == |a| && |multiset(b)| == |b|;
    forall x ensures x in a <==> x in b {
      assert x in a <==> x in multiset(a);
      assert x in b <==> x in multiset(b);
    }
  }

  lemma LastIsLast(s: seq<Pair>, words: seq<string>)
    requires Ordered(s) && words != [] && multiset(s) == multiset(Enumerated(words))
    ensures |s| == |words| && s[|s| - 1] == Pair(|words| - 1, words[|words| - 1])
  {
    var all := Enumerated(words);
    SameSize(s, all);
    assert all[|all| - 1] in s && s[|s| - 1] in all;
    var i :| 0 <= i < |s| && s[i] == all[|all| - 1];
    LastIsGreatest(s, i);
  }

  lemma FrontAsMultiset<T>(s: seq<T>)
    requires s != []
    ensures multiset(s[..|s| - 1]) == multiset(s) - multiset{s[|s| - 1]}
  {
    var front, last := s[..|s| - 1], [s[|s| - 1]];
    assert s == front + last;
    assert multiset(front + last) == multiset(front) + multiset(last);
  }

  lemma MultisetFront<T>(s: seq<T>, t: seq<T>)
    requires s != [] && t != [] && s[|s| - 1] == t[|t| - 1] && multiset(s) == multiset(t)
    ensures multiset(s[..|s| - 1]) == multiset(t[..|t| - 1])
  {
    FrontAsMultiset(s);
    FrontAsMultiset(t);
  }

  /** Enumerated words are the only ordered list of their pairs. */
  lemma {:induction false} OrderedIsEnumerated(s: seq<Pair>, words: seq<string>)
    requires Ordered(s) && multiset(s) == multiset(Enumerated(words))
    ensures s == Enumerated(words)
  {
    hide Ordered;
    var all := Enumerated(words);
    SameSize(s, all);
    if words != [] {
      var front := words[..|words| - 1];
      LastIsLast(s, words);
      MultisetFront(s, all);
      assert Enumerated(front) == all[..|all| - 1];
      OrderedFront(s);
      OrderedIsEnumerated(s[..|s| - 1], front);
      assert s == s[..|s| - 1] + [s[|s| - 1]] && all == all[..|all| - 1] + [all[|all| - 1]];
    }
  }

  /** Any index of a text gives back its words, in their order. */
  lemma IndexGivesBackTheWords(index: seq<Entry>, words: seq<string>)
    requires IndexOf(index, words)
    ensures Words(Sorted(Pairs(index))) == words
    ensures Pairs(index) == [] <==> words == []
  {
    hide Pairs, Sorted, Ordered;
    IndexHasTheWords(index, words);
    SortedOrders(Pairs(index));
    OrderedIsEnumerated(Sorted(Pairs(index)), words);
    SameSize(Pairs(index), Enumerated(words));
  }
}
