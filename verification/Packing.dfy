/**
 * The greedy contiguous packer of collection synthesis: documents are put into
 * prompt-sized batches in order. It is proved optimal among all contiguous splits.
 */
module Packing {
  import opened Seqs

  datatype PackError = SingleDocumentTooLarge

  /** Every contiguous sublist of a fitting list fits. */
  ghost predicate Hereditary<D(!new)>(fits: seq<D> -> bool)
  {
    forall docs: seq<D>, lo: nat, hi: nat ::
      lo <= hi <= |docs| && fits(docs) ==> fits(docs[lo..hi])
  }

  /** A split of docs into non-empty contiguous batches that all fit. */
  ghost predicate IsPacking<D>(batches: seq<seq<D>>, docs: seq<D>, fits: seq<D> -> bool)
  {
    && Flatten(batches) == docs
    && forall i :: 0 <= i < |batches| ==> batches[i] != [] && fits(batches[i])
  }

  /** A batch had no room for the document that opens the next one. */
  ghost predicate NoRoom<D>(batch: seq<D>, next: seq<D>, fits: seq<D> -> bool)
  {
    next != [] && !fits(batch + [next[0]])
  }

  ghost predicate IsGreedy<D>(batches: seq<seq<D>>, fits: seq<D> -> bool)
  {
    |batches| >= 2 ==>
      && IsGreedy(batches[..|batches| - 1], fits)
      && NoRoom(batches[|batches| - 2], batches[|batches| - 1], fits)
  }

  /** Closing a batch that the next document did not fit into. */
  lemma CloseBatch<D>(batches: seq<seq<D>>, current: seq<D>, fits: seq<D> -> bool)
    requires IsGreedy(batches, fits)
    requires batches == [] || NoRoom(batches[|batches| - 1], current, fits)
    ensures IsGreedy(batches + [current], fits)
  {
    assert (batches + [current])[..|batches|] == batches;
  }

  lemma {:induction false} GreedyAt<D>(batches: seq<seq<D>>, i: nat, fits: seq<D> -> bool)
    requires IsGreedy(batches, fits) && i + 1 < |batches|
    ensures NoRoom(batches[i], batches[i + 1], fits)
  {
    if i + 2 < |batches| {
      GreedyAt(batches[..|batches| - 1], i, fits);
    }
  }

  /** Progress of the packing loop over the first n documents. */
  ghost predicate Packed<D>(batches: seq<seq<D>>, current: seq<D>, docs: seq<D>, fits: seq<D> -> bool)
  {
    && IsPacking(batches, Flatten(batches), fits)
    && IsGreedy(batches, fits)
    && Flatten(batches) + current == docs
    && (docs != [] ==> current != [] && fits(current))
    && (batches != [] ==> NoRoom(batches[|batches| - 1], current, fits))
  }

  lemma ExtendBatch<D>(batches: seq<seq<D>>, current: seq<D>, docs: seq<D>, fits: seq<D> -> bool, next: D)
    requires Packed(batches, current, docs, fits) && fits(current + [next])
    ensures Packed(batches, current + [next], docs + [next], fits)
  {
    assert Flatten(batches) + (current + [next]) == Flatten(batches) + current + [next];
  }

  lemma OpenBatch<D>(batches: seq<seq<D>>, current: seq<D>, docs: seq<D>, fits: seq<D> -> bool, next: D)
    requires Packed(batches, current, docs, fits) && current != []
    requires !fits(current + [next]) && fits([next])
    ensures Packed(batches + [current], [next], docs + [next], fits)
  {
    CloseBatch(batches, current, fits);
    FlattenSnoc(batches, current);
  }

  lemma FinishPacking<D>(batches: seq<seq<D>>, current: seq<D>, docs: seq<D>, fits: seq<D> -> bool)
    requires Packed(batches, current, docs, fits)
    ensures current == [] ==> IsPacking(batches, docs, fits) && IsGreedy(batches, fits)
    ensures current != [] ==> IsPacking(batches + [current], docs, fits) && IsGreedy(batches + [current], fits)
  {
    CloseBatch(batches, current, fits);
    FlattenSnoc(batches, current);
  }

  method Pack<D(!new)>(docs: seq<D>, fits: seq<D> -> bool) returns (r: Result<seq<seq<D>>, PackError>)
    ensures r.Ok? ==> IsPacking(r.value, docs, fits) && IsGreedy(r.value, fits)
    ensures r.Err? ==> exists k :: 0 <= k < |docs| && !fits([docs[k]])
  {
    hide NoRoom;
    var batches: seq<seq<D>>, current: seq<D> := [], [];
    for i := 0 to |docs|
      invariant Packed(batches, current, docs[..i], fits)
    {
      assert docs[..i + 1] == docs[..i] + [docs[i]];
      var candidate := current + [docs[i]];
      if fits(candidate) {
        ExtendBatch(batches, current, docs[..i], fits, docs[i]);
        current := candidate;
      } else {
        if current == [] {
          assert candidate == [docs[i]];
          return Err(SingleDocumentTooLarge);
        }
        if !fits([docs[i]]) {
          return Err(SingleDocumentTooLarge);
        }
        OpenBatch(batches, current, docs[..i], fits, docs[i]);
        batches, current := batches + [current], [docs[i]];
      }
    }
    assert docs[..|docs|] == docs;
    FinishPacking(batches, current, docs, fits);
    if current != [] {
      batches := batches + [current];
    }
    return Ok(batches);
  }

  /** Whatever can be packed has no document too large on its own, so packing fails only for such a document. */
  lemma {:induction false} PackedSinglesFit<D(!new)>(batches: seq<seq<D>>, docs: seq<D>, fits: seq<D> -> bool)
    requires Hereditary(fits) && IsPacking(batches, docs, fits)
    ensures forall k :: 0 <= k < |docs| ==> fits([docs[k]])
  {
    if batches != [] {
      var front, last := batches[..|batches| - 1], batches[|batches| - 1];
      PackedSinglesFit(front, Flatten(front), fits);
      forall k | 0 <= k < |docs| ensures fits([docs[k]]) {
        var at := k - |Flatten(front)|;
        if at >= 0 {
          assert last[at..at + 1] == [docs[k]];
        } else {
          assert docs[k] == Flatten(front)[k];
        }
      }
    }
  }

  /** Number of documents in the first k batches. */
  function Covered<D>(batches: seq<seq<D>>, k: nat): (n: nat)
    requires k <= |batches|
  {
    |Flatten(batches[..k])|
  }

  /** Batch k is the slice of documents between two cover marks. */
  lemma {:induction false} BatchIsSlice<D>(batches: seq<seq<D>>, k: nat)
    requires k < |batches|
    ensures Covered(batches, k) + |batches[k]| == Covered(batches, k + 1) <= |Flatten(batches)|
    ensures Flatten(batches)[Covered(batches, k)..Covered(batches, k + 1)] == batches[k]
  {
    var a, b := batches[..k + 1], batches[k + 1..];
    assert batches == a + b;
    FlattenAppend(a, b);
    assert a[..|a| - 1] == batches[..k];
  }

  lemma CoversAll<D>(batches: seq<seq<D>>)
    ensures Covered(batches, |batches|) == |Flatten(batches)|
  {
    assert batches[..|batches|] == batches;
  }

  lemma SlicesFit<D(!new)>(docs: seq<D>, fits: seq<D> -> bool, from: nat, to: nat)
    requires Hereditary(fits)
    requires from <= to <= |docs| && fits(docs[from..to])
    ensures forall lo, hi :: from <= lo <= hi <= to ==> fits(docs[lo..hi])
  {
    forall lo, hi | from <= lo <= hi <= to ensures fits(docs[lo..hi]) {
      var outer := docs[from..to];
      var l: nat, h: nat := lo - from, hi - from;
      assert outer[l..h] == docs[lo..hi];
      assert fits(outer[l..h]);
    }
  }

  /** After k batches greedy packing is never behind any other packing. */
  lemma {:induction false} GreedyStaysAhead<D(!new)>(
    greedy: seq<seq<D>>, other: seq<seq<D>>, docs: seq<D>, fits: seq<D> -> bool, k: nat)
    requires Hereditary(fits)
    requires IsPacking(greedy, docs, fits) && IsGreedy(greedy, fits)
    requires IsPacking(other, docs, fits)
    requires k <= |greedy| && k <= |other|
    ensures Covered(greedy, k) >= Covered(other, k)
  {
    if k > 0 {
      var j := k - 1;
      GreedyStaysAhead(greedy, other, docs, fits, j);
      BatchIsSlice(greedy, j);
      BatchIsSlice(other, j);
      var g0, g1 := Covered(greedy, j), Covered(greedy, k);
      var o0, o1 := Covered(other, j), Covered(other, k);
      SlicesFit(docs, fits, o0, o1);
      if k == |greedy| {
        CoversAll(greedy);
      } else {
        BatchIsSlice(greedy, k);
        GreedyAt(greedy, j, fits);
        assert greedy[k][0] == docs[g1];
        assert greedy[j] + [greedy[k][0]] == docs[g0..g1 + 1];
      }
    }
  }

  /** No contiguous split into fitting batches uses fewer batches than greedy packing. */
  lemma {:induction false} GreedyIsOptimal<D(!new)>(
    greedy: seq<seq<D>>, other: seq<seq<D>>, docs: seq<D>, fits: seq<D> -> bool)
    requires Hereditary(fits)
    requires IsPacking(greedy, docs, fits) && IsGreedy(greedy, fits)
    requires IsPacking(other, docs, fits)
    ensures |greedy| <= |other|
  {
    if |other| < |greedy| {
      GreedyStaysAhead(greedy, other, docs, fits, |other|);
      CoversAll(other);
      BatchIsSlice(greedy, |other|);
    }
  }

  /** No split of the documents into fitting batches has fewer batches. */
  ghost predicate FewestBatches<D(!new)>(batches: seq<seq<D>>, docs: seq<D>, fits: seq<D> -> bool)
  {
    forall other: seq<seq<D>> :: IsPacking(other, docs, fits) ==> |batches| <= |other|
  }

  lemma GreedyHasFewest<D(!new)>(batches: seq<seq<D>>, docs: seq<D>, fits: seq<D> -> bool)
    requires Hereditary(fits) && IsPacking(batches, docs, fits) && IsGreedy(batches, fits)
    ensures FewestBatches(batches, docs, fits)
  {
    forall other: seq<seq<D>> | IsPacking(other, docs, fits) ensures |batches| <= |other| {
      GreedyIsOptimal(batches, other, docs, fits);
    }
  }

  /** Non-empty batches are no more than documents, and as many only when all are singletons. */
  lemma {:induction false} BatchCount<D>(batches: seq<seq<D>>)
    requires forall i :: 0 <= i < |batches| ==> batches[i] != []
    ensures |batches| <= |Flatten(batches)|
    ensures |batches| == |Flatten(batches)| <==> forall i :: 0 <= i < |batches| ==> |batches[i]| == 1
  {
    if batches != [] {
      var front := batches[..|batches| - 1];
      BatchCount(front);
      assert forall i :: 0 <= i < |front| ==> front[i] == batches[i];
      assert |batches| == |Flatten(batches)| ==> |front| == |Flatten(front)|;
    }
  }

  predicate AllSingletons<D>(batches: seq<seq<D>>)
  {
    forall i :: 0 <= i < |batches| ==> |batches[i]| == 1
  }

  lemma {:induction false} SingletonBatches<D>(batches: seq<seq<D>>)
    requires AllSingletons(batches)
    ensures |Flatten(batches)| == |batches|
    ensures forall k :: 0 <= k < |batches| ==> batches[k] == [Flatten(batches)[k]]
  {
    if batches != [] {
      SingletonBatches(batches[..|batches| - 1]);
    }
  }
}
