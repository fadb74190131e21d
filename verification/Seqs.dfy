/** Outcome types and sequence functions shared by the models. */
module Seqs {

  datatype Option<+T> = None | Some(value: T)

  datatype Result<+T, +E> = Ok(value: T) | Err(error: E)

  lemma ConcatAssoc<T>(a: seq<T>, b: seq<T>, c: seq<T>)
    ensures a + (b + c) == (a + b) + c
  {
  }

  /** Concatenation of a list of lists. */
  function Flatten<T>(parts: seq<seq<T>>): (r: seq<T>)
  {
    if parts == [] then [] else Flatten(parts[..|parts| - 1]) + parts[|parts| - 1]
  }

  lemma FlattenSnoc<T>(parts: seq<seq<T>>, last: seq<T>)
    ensures Flatten(parts + [last]) == Flatten(parts) + last
  {
    assert (parts + [last])[..|parts|] == parts;
  }

  lemma {:induction false} FlattenAppend<T>(a: seq<seq<T>>, b: seq<seq<T>>)
    ensures Flatten(a + b) == Flatten(a) + Flatten(b)
  {
    if b == [] {
      assert a + b == a;
    } else {
      var front, last := b[..|b| - 1], b[|b| - 1];
      assert (a + b)[..|a + b| - 1] == a + front;
      FlattenAppend(a, front);
    }
  }

  /** `dict.fromkeys` read back as a list: first occurrences, in order. */
  function Dedup<T(==,!new)>(s: seq<T>): (r: seq<T>)
    ensures forall x :: x in r <==> x in s
  {
    if s == [] then []
    else
      var r := Dedup(s[..|s| - 1]);
      assert s == s[..|s| - 1] + [s[|s| - 1]];
      if s[|s| - 1] in r then r else r + [s[|s| - 1]]
  }

  ghost predicate Distinct<T>(s: seq<T>)
  {
    forall i, j :: 0 <= i < j < |s| ==> s[i] != s[j]
  }

  lemma {:induction false} DistinctCounts<T>(s: seq<T>, x: T)
    requires Distinct(s)
    ensures multiset(s)[x] == if x in s then 1 else 0
  {
    if s != [] {
      var front := s[..|s| - 1];
      DistinctCounts(front, x);
      assert s == front + [s[|s| - 1]];
    }
  }

  lemma {:induction false} DedupDistinct<T(!new)>(s: seq<T>)
    ensures Distinct(Dedup(s))
  {
    if s != [] {
      DedupDistinct(s[..|s| - 1]);
    }
  }

  lemma {:induction false} DedupIdentity<T(!new)>(s: seq<T>)
    requires Distinct(s)
    ensures Dedup(s) == s
  {
    if s != [] {
      var front := s[..|s| - 1];
      DedupIdentity(front);
      assert s == front + [s[|s| - 1]];
    }
  }

  lemma {:induction false} DedupAppendExtends<T(!new)>(a: seq<T>, b: seq<T>)
    ensures Dedup(a) <= Dedup(a + b)
  {
    if b == [] {
      assert a + b == a;
    } else {
      assert (a + b)[..|a + b| - 1] == a + b[..|b| - 1];
      DedupAppendExtends(a, b[..|b| - 1]);
    }
  }

  /** `sep.join(parts)`. */
  function Join(sep: string, parts: seq<string>): (r: string)
  {
    if parts == [] then ""
    else if |parts| == 1 then parts[0]
    else Join(sep, parts[..|parts| - 1]) + sep + parts[|parts| - 1]
  }

  lemma {:induction false} JoinAppend(sep: string, a: seq<string>, b: seq<string>)
    requires a != [] && b != []
    ensures Join(sep, a + b) == Join(sep, a) + sep + Join(sep, b)
  {
    var front := b[..|b| - 1];
    assert (a + b)[..|a + b| - 1] == a + front;
    if front == [] {
      assert a + front == a;
    } else {
      JoinAppend(sep, a, front);
      assert Join(sep, a) + sep + Join(sep, front) + sep + b[|b| - 1]
          == Join(sep, a) + sep + (Join(sep, front) + sep + b[|b| - 1]);
    }
  }

  lemma {:induction false} JoinSublist(sep: string, s: seq<string>, lo: nat, hi: nat)
    requires lo <= hi <= |s|
    ensures |Join(sep, s[lo..hi])| <= |Join(sep, s)|
  {
    var a, b, c := s[..lo], s[lo..hi], s[hi..];
    if b != [] {
      var bc := b + c;
      if c == [] { assert bc == b; } else { JoinAppend(sep, b, c); }
      if a == [] { assert s == bc; } else { assert s == a + bc; JoinAppend(sep, a, bc); }
    }
  }

  /** Insert into a strictly increasing list, keeping it strictly increasing. */
  function InsertSorted(x: int, s: seq<int>): (r: seq<int>)
  {
    if s == [] then [x]
    else if x < s[0] then [x] + s
    else if x == s[0] then s
    else [s[0]] + InsertSorted(x, s[1..])
  }

  /** `sorted(set(s))`. */
  function SortedUnique(s: seq<int>): (r: seq<int>)
  {
    if s == [] then [] else InsertSorted(s[|s| - 1], SortedUnique(s[..|s| - 1]))
  }

  ghost predicate StrictlyIncreasing(s: seq<int>)
  {
    |s| <= 1 || (s[0] < s[1] && StrictlyIncreasing(s[1..]))
  }

  lemma {:induction false} HeadIsLeast(s: seq<int>)
    requires s != [] && StrictlyIncreasing(s)
    ensures forall y :: y in s[1..] <==> y in s && y != s[0]
    ensures forall y :: y in s[1..] ==> s[0] < y
  {
    assert s == [s[0]] + s[1..];
    if |s| > 1 {
      HeadIsLeast(s[1..]);
      assert s[1..] == [s[1]] + s[1..][1..];
    }
  }

  lemma {:induction false} InsertSortedMembers(x: int, s: seq<int>)
    ensures forall y :: y in InsertSorted(x, s) <==> y == x || y in s
  {
    if s != [] && x > s[0] {
      InsertSortedMembers(x, s[1..]);
      assert s == [s[0]] + s[1..];
    }
  }

  lemma {:induction false} InsertSortedIncreasing(x: int, s: seq<int>)
    requires StrictlyIncreasing(s)
    ensures StrictlyIncreasing(InsertSorted(x, s))
    ensures x in s ==> InsertSorted(x, s) == s
  {
    if s != [] {
      HeadIsLeast(s);
      assert s == [s[0]] + s[1..];
      if x < s[0] {
        assert ([x] + s)[1..] == s;
      } else if x > s[0] {
        InsertSortedIncreasing(x, s[1..]);
        var tail := InsertSorted(x, s[1..]);
        assert ([s[0]] + tail)[1..] == tail;
      }
    }
  }

  /** `sorted(set(s))` is strictly increasing and has exactly the elements of s. */
  lemma {:induction false} SortedUniqueProperties(s: seq<int>)
    ensures StrictlyIncreasing(SortedUnique(s))
    ensures forall y :: y in SortedUnique(s) <==> y in s
  {
    if s != [] {
      SortedUniqueProperties(s[..|s| - 1]);
      InsertSortedMembers(s[|s| - 1], SortedUnique(s[..|s| - 1]));
      InsertSortedIncreasing(s[|s| - 1], SortedUnique(s[..|s| - 1]));
      assert s == s[..|s| - 1] + [s[|s| - 1]];
    }
  }

  lemma SupersetNonEmpty(a: seq<int>, b: seq<int>)
    requires b != [] && forall y :: y in b ==> y in a
    ensures a != [] && b[0] in a
  {
    var y := b[0];
    assert y in b;
    assert y in a;
  }

  /** Strictly increasing lists with the same elements are equal. */
  lemma {:induction false} SortedExtensional(a: seq<int>, b: seq<int>)
    requires StrictlyIncreasing(a) && StrictlyIncreasing(b)
    requires forall y :: y in a <==> y in b
    ensures a == b
  {
    if b != [] {
      SupersetNonEmpty(a, b);
    }
    if a != [] {
      SupersetNonEmpty(b, a);
      HeadIsLeast(a);
      HeadIsLeast(b);
      assert a[0] == b[0];
      SortedExtensional(a[1..], b[1..]);
      assert a == [a[0]] + a[1..] && b == [b[0]] + b[1..];
    }
  }
}
