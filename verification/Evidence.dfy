/** Merging of extracted evidence and its grouping by domain. */
module Evidence {
  import opened Seqs
  import opened Text

  datatype Item = Item(
    category: string,
    claim: string,
    section: Option<string>,
    pages: seq<int>,
    subject: Option<string>,
    subjectValue: Option<string>,
    baseline: Option<string>,
    baselineValue: Option<string>,
    conditions: seq<string>,
    excerpt: Option<string>)

  datatype Key = Key(
    category: string, claim: string, subject: string, subjectValue: string, baseline: string, baselineValue: string)

  /** Lower-casing is left to the caller; nothing is assumed of it. */
  type Lower = string -> string

  /** `a or b` on optional strings. */
  function Or(a: Option<string>, b: Option<string>): Option<string>
  {
    if a.Some? && a.value != "" then a else b
  }

  function Given(s: Option<string>): string
  {
    if s.Some? then s.value else ""
  }

  function KeyOf(lower: Lower, item: Item): Key
  {
    Key(lower(Strip(item.category)), Collapse(lower(Strip(item.claim))),
        lower(Strip(Given(item.subject))), lower(Strip(Given(item.subjectValue))),
        lower(Strip(Given(item.baseline))), lower(Strip(Given(item.baselineValue))))
  }

  /** An item that repeats an existing one is folded into it. */
  function Combine(existing: Item, item: Item): Item
  {
    existing.(pages := SortedUnique(existing.pages + item.pages),
              conditions := Dedup(existing.conditions + item.conditions),
              section := Or(existing.section, item.section),
              excerpt := Or(existing.excerpt, item.excerpt))
  }

  /* ----- the merge as a fold ----- */

  function Absorb(lower: Lower, merged: seq<Item>, item: Item): seq<Item>
  {
    if merged == [] then [item]
    else if KeyOf(lower, merged[0]) == KeyOf(lower, item) then [Combine(merged[0], item)] + merged[1..]
    else [merged[0]] + Absorb(lower, merged[1..], item)
  }

  function Merge(lower: Lower, items: seq<Item>): seq<Item>
  {
    if items == [] then []
    else Absorb(lower, Merge(lower, items[..|items| - 1]), items[|items| - 1])
  }

  function Keys(lower: Lower, items: seq<Item>): (r: seq<Key>)
    ensures |r| == |items|
    ensures forall i :: 0 <= i < |items| ==> r[i] == KeyOf(lower, items[i])
  {
    if items == [] then [] else [KeyOf(lower, items[0])] + Keys(lower, items[1..])
  }

  /** The items with one key, in order. */
  function WithKey(lower: Lower, items: seq<Item>, key: Key): (r: seq<Item>)
    ensures forall i :: 0 <= i < |r| ==> KeyOf(lower, r[i]) == key
  {
    if items == [] then []
    else
      var last := items[|items| - 1];
      WithKey(lower, items[..|items| - 1], key) + if KeyOf(lower, last) == key then [last] else []
  }

  /* ----- merge_evidence ----- */

  /** The dictionary read out in the order of its keys. */
  function ReadOut(merged: map<Key, Item>, order: seq<Key>): (r: seq<Item>)
    requires forall key <- order :: key in merged
    ensures |r| == |order|
    ensures forall i :: 0 <= i < |order| ==> r[i] == merged[order[i]]
  {
    if order == [] then [] else [merged[order[0]]] + ReadOut(merged, order[1..])
  }

  /** The dictionary and its order hold the merge of the items seen so far. */
  ghost predicate Holds(lower: Lower, merged: map<Key, Item>, order: seq<Key>, items: seq<Item>)
  {
    && (forall key <- order :: key in merged)
    && (forall key <- merged.Keys :: key in order && KeyOf(lower, merged[key]) == key)
    && Distinct(order)
    && ReadOut(merged, order) == Merge(lower, items)
  }

  lemma ReadOutUpdated(merged: map<Key, Item>, order: seq<Key>, i: nat, item: Item)
    requires (forall key <- order :: key in merged) && Distinct(order) && i < |order|
    ensures ReadOut(merged[order[i] := item], order) == ReadOut(merged, order)[i := item]
  {
  }

  /** One item more, with a new key. */
  lemma HoldsNew(lower: Lower, merged: map<Key, Item>, order: seq<Key>, items: seq<Item>, item: Item)
    requires Holds(lower, merged, order, items) && KeyOf(lower, item) !in merged
    ensures
      var key := KeyOf(lower, item);
      Holds(lower, merged[key := item], order + [key], items + [item])
  {
    hide KeyOf, Merge, Combine, Absorb;
    var key, list := KeyOf(lower, item), ReadOut(merged, order);
    MergeNext(lower, items, item);
    AbsorbNew(lower, list, item);
    assert ReadOut(merged[key := item], order + [key]) == list + [item];
  }

  /** One item more, with a known key. */
  lemma HoldsRepeated(lower: Lower, merged: map<Key, Item>, order: seq<Key>, items: seq<Item>, item: Item)
    requires Holds(lower, merged, order, items) && KeyOf(lower, item) in merged
    ensures
      var key := KeyOf(lower, item);
      Holds(lower, merged[key := Combine(merged[key], item)], order, items + [item])
  {
    hide KeyOf, Merge, Combine, Absorb, ReadOut;
    var key, list := KeyOf(lower, item), ReadOut(merged, order);
    var combined := Combine(merged[key], item);
    var i :| 0 <= i < |order| && order[i] == key;
    MergeNext(lower, items, item);
    AbsorbRepeated(lower, list, item, i);
    CombineKeepsKey(lower, merged[key], item);
    ReadOutUpdated(merged, order, i, combined);
  }

  /** An item with a new key is appended. */
  lemma {:induction false} AbsorbNew(lower: Lower, merged: seq<Item>, item: Item)
    requires forall i :: 0 <= i < |merged| ==> KeyOf(lower, merged[i]) != KeyOf(lower, item)
    ensures Absorb(lower, merged, item) == merged + [item]
  {
    hide KeyOf, Combine;
    if merged != [] {
      AbsorbNew(lower, merged[1..], item);
    }
  }

  /** An item with a known key is folded into the one that has it. */
  lemma {:induction false} AbsorbRepeated(lower: Lower, merged: seq<Item>, item: Item, i: nat)
    requires i < |merged| && KeyOf(lower, merged[i]) == KeyOf(lower, item)
    requires forall j :: 0 <= j < i ==> KeyOf(lower, merged[j]) != KeyOf(lower, item)
    ensures Absorb(lower, merged, item) == merged[i := Combine(merged[i], item)]
  {
    hide KeyOf, Combine;
    if i > 0 {
      AbsorbRepeated(lower, merged[1..], item, i - 1);
    }
  }

  lemma MergeNext(lower: Lower, items: seq<Item>, item: Item)
    ensures Merge(lower, items + [item]) == Absorb(lower, Merge(lower, items), item)
  {
    assert (items + [item])[..|items|] == items;
  }

  lemma CombineKeepsKey(lower: Lower, existing: Item, item: Item)
    ensures KeyOf(lower, Combine(existing, item)) == KeyOf(lower, existing)
  {
  }

  /** `merge_evidence`. */
  method MergeEvidence(lower: Lower, items: seq<Item>) returns (r: seq<Item>)
    ensures r == Merge(lower, items)
    ensures KeepsClaims(lower, r, items)
  {
    hide KeyOf, Combine, Merge, KeepsClaims;
    MergeKeepsClaims(lower, items);
    var merged: map<Key, Item> := map[];
    var order: seq<Key> := [];
    NothingMerged(lower);
    assert items[..0] == [];
    for i := 0 to |items|
      invariant Holds(lower, merged, order, items[..i])
    {
      var item := items[i];
      var key := KeyOf(lower, item);
      assert items[..i] + [item] == items[..i + 1];
      if key !in merged {
        HoldsNew(lower, merged, order, items[..i], item);
        merged := merged[key := item];
        order := order + [key];
      } else {
        HoldsRepeated(lower, merged, order, items[..i], item);
        merged := merged[key := Combine(merged[key], item)];
      }
    }
    assert items[..|items|] == items;
    r := ReadOut(merged, order);
  }

  lemma NothingMerged(lower: Lower)
    ensures Merge(lower, []) == [] && Holds(lower, map[], [], [])
  {
  }

  /* ----- what a merge holds ----- */

  lemma AbsorbKeys(lower: Lower, merged: seq<Item>, item: Item)
    requires Distinct(Keys(lower, merged))
    ensures Keys(lower, Absorb(lower, merged, item)) ==
      if KeyOf(lower, item) in Keys(lower, merged) then Keys(lower, merged) else Keys(lower, merged) + [KeyOf(lower, item)]
  {
    hide KeyOf, Combine, Absorb, Keys;
    var keys, key := Keys(lower, merged), KeyOf(lower, item);
    if key in keys {
      var i :| 0 <= i < |keys| && keys[i] == key;
      AbsorbRepeated(lower, merged, item, i);
      KeyRemains(lower, merged, i, item);
    } else {
      AbsorbNew(lower, merged, item);
      KeysNext(lower, merged, item);
    }
  }

  lemma KeyRemains(lower: Lower, merged: seq<Item>, i: nat, item: Item)
    requires i < |merged|
    ensures Keys(lower, merged[i := Combine(merged[i], item)]) == Keys(lower, merged)
  {
    hide KeyOf, Combine;
    CombineKeepsKey(lower, merged[i], item);
  }

  /** The keys of a merge are the distinct keys of the items, in the order they first occur. */
  lemma {:induction false} MergedKeys(lower: Lower, items: seq<Item>)
    ensures Keys(lower, Merge(lower, items)) == Dedup(Keys(lower, items))
    ensures Distinct(Keys(lower, Merge(lower, items)))
  {
    hide KeyOf, Absorb;
    DedupDistinct(Keys(lower, items));
    if items != [] {
      var front, last := items[..|items| - 1], items[|items| - 1];
      MergedKeys(lower, front);
      AbsorbKeys(lower, Merge(lower, front), last);
      assert Keys(lower, items)[..|items| - 1] == Keys(lower, front);
    }
  }

  /** The texts are the same but for case and surrounding whitespace. */
  predicate Same(lower: Lower, a: string, b: string)
  {
    lower(Strip(a)) == lower(Strip(b))
  }

  /**
   * The items make the same claim in the same category about the same subject, baseline and
   * values of both; an absent text is an empty one, and within the claim whitespace does not matter.
   */
  predicate SameClaim(lower: Lower, a: Item, b: Item)
  {
    && Same(lower, a.category, b.category)
    && GapsAlike(lower(Strip(a.claim)), lower(Strip(b.claim)))
    && Same(lower, Given(a.subject), Given(b.subject))
    && Same(lower, Given(a.subjectValue), Given(b.subjectValue))
    && Same(lower, Given(a.baseline), Given(b.baseline))
    && Same(lower, Given(a.baselineValue), Given(b.baselineValue))
  }

  /** Items share a key exactly when all six fields agree. */
  lemma SameKeyIff(lower: Lower, a: Item, b: Item)
    ensures KeyOf(lower, a) == KeyOf(lower, b) <==> SameClaim(lower, a, b)
  {
    CollapsedAlikeIff(lower(Strip(a.claim)), lower(Strip(b.claim)));
  }

  /** One of the items makes the claim. */
  ghost predicate Claims(lower: Lower, items: seq<Item>, claim: Item)
  {
    exists k :: 0 <= k < |items| && SameClaim(lower, items[k], claim)
  }

  ghost predicate NoClaimTwice(lower: Lower, items: seq<Item>)
  {
    forall i, j :: 0 <= i < j < |items| ==> !SameClaim(lower, items[i], items[j])
  }

  /** Conflicting items stay apart, repeated ones do not, and none is lost. */
  ghost predicate KeepsClaims(lower: Lower, merged: seq<Item>, items: seq<Item>)
  {
    && (forall i :: 0 <= i < |items| ==> Claims(lower, merged, items[i]))
    && (forall k :: 0 <= k < |merged| ==> Claims(lower, items, merged[k]))
    && NoClaimTwice(lower, merged)
  }

  lemma KnownKeyIsClaimed(lower: Lower, items: seq<Item>, claim: Item)
    requires KeyOf(lower, claim) in Keys(lower, items)
    ensures Claims(lower, items, claim)
  {
    hide KeyOf, SameClaim;
    var keys := Keys(lower, items);
    var k :| 0 <= k < |keys| && keys[k] == KeyOf(lower, claim);
    SameKeyIff(lower, items[k], claim);
  }

  lemma DistinctKeysDiffer(lower: Lower, items: seq<Item>)
    requires Distinct(Keys(lower, items))
    ensures NoClaimTwice(lower, items)
  {
    hide KeyOf, SameClaim;
    var keys := Keys(lower, items);
    forall i, j | 0 <= i < j < |items| ensures !SameClaim(lower, items[i], items[j]) {
      assert keys[i] != keys[j];
      SameKeyIff(lower, items[i], items[j]);
    }
  }

  /**
   * Every input item makes the claim of some merged item and the other way round, and no two
   * merged items make the same: one that differs in any of the six fields is kept beside the rest.
   */
  lemma MergeKeepsClaims(lower: Lower, items: seq<Item>)
    ensures KeepsClaims(lower, Merge(lower, items), items)
  {
    hide KeyOf, Merge, Claims, NoClaimTwice;
    var merged := Merge(lower, items);
    MergedKeys(lower, items);
    DistinctKeysDiffer(lower, merged);
    forall i | 0 <= i < |items| ensures Claims(lower, merged, items[i]) {
      assert Keys(lower, items)[i] in Keys(lower, merged);
      KnownKeyIsClaimed(lower, merged, items[i]);
    }
    forall k | 0 <= k < |merged| ensures Claims(lower, items, merged[k]) {
      assert Keys(lower, merged)[k] in Keys(lower, items);
      KnownKeyIsClaimed(lower, items, merged[k]);
    }
  }

  /* ----- one merged item in terms of all its inputs ----- */

  function AllPages(items: seq<Item>): seq<int>
  {
    if items == [] then [] else AllPages(items[..|items| - 1]) + items[|items| - 1].pages
  }

  function AllConditions(items: seq<Item>): seq<string>
  {
    if items == [] then [] else AllConditions(items[..|items| - 1]) + items[|items| - 1].conditions
  }

  /** The first section that is given, else the last one. */
  function FirstSection(items: seq<Item>): Option<string>
    requires items != []
  {
    if |items| == 1 then items[0].section
    else Or(FirstSection(items[..|items| - 1]), items[|items| - 1].section)
  }

  function FirstExcerpt(items: seq<Item>): Option<string>
    requires items != []
  {
    if |items| == 1 then items[0].excerpt
    else Or(FirstExcerpt(items[..|items| - 1]), items[|items| - 1].excerpt)
  }

  ghost predicate IsGiven(text: Option<string>)
  {
    text.Some? && text.value != ""
  }

  /** The section of a group is that of its first item that has one. */
  lemma {:induction false} FirstSectionGiven(items: seq<Item>, k: nat)
    requires k < |items| && IsGiven(items[k].section) && forall j :: 0 <= j < k ==> !IsGiven(items[j].section)
    ensures FirstSection(items) == items[k].section
  {
    if k < |items| - 1 {
      FirstSectionGiven(items[..|items| - 1], k);
    } else if k > 0 {
      NoSectionGiven(items[..k]);
    }
  }

  lemma {:induction false} NoSectionGiven(items: seq<Item>)
    requires items != [] && forall j :: 0 <= j < |items| ==> !IsGiven(items[j].section)
    ensures !IsGiven(FirstSection(items))
  {
    if |items| > 1 {
      NoSectionGiven(items[..|items| - 1]);
    }
  }

  /** So is its excerpt. */
  lemma {:induction false} FirstExcerptGiven(items: seq<Item>, k: nat)
    requires k < |items| && IsGiven(items[k].excerpt) && forall j :: 0 <= j < k ==> !IsGiven(items[j].excerpt)
    ensures FirstExcerpt(items) == items[k].excerpt
  {
    if k < |items| - 1 {
      FirstExcerptGiven(items[..|items| - 1], k);
    } else if k > 0 {
      NoExcerptGiven(items[..k]);
    }
  }

  lemma {:induction false} NoExcerptGiven(items: seq<Item>)
    requires items != [] && forall j :: 0 <= j < |items| ==> !IsGiven(items[j].excerpt)
    ensures !IsGiven(FirstExcerpt(items))
  {
    if |items| > 1 {
      NoExcerptGiven(items[..|items| - 1]);
    }
  }

  /** What a group of repeated items is merged into; a lone item is left as it is. */
  function Combined(group: seq<Item>): Item
    requires group != []
  {
    if |group| == 1 then group[0]
    else group[0].(pages := SortedUnique(AllPages(group)),
                   conditions := Dedup(AllConditions(group)),
                   section := FirstSection(group),
                   excerpt := FirstExcerpt(group))
  }

  lemma SortedUniqueAgain(a: seq<int>, b: seq<int>)
    ensures SortedUnique(SortedUnique(a) + b) == SortedUnique(a + b)
  {
    SortedUniqueProperties(a);
    SortedUniqueProperties(a + b);
    SortedUniqueProperties(SortedUnique(a) + b);
    SortedExtensional(SortedUnique(SortedUnique(a) + b), SortedUnique(a + b));
  }

  lemma {:induction false} DedupAgain(a: seq<string>, b: seq<string>)
    ensures Dedup(Dedup(a) + b) == Dedup(a + b)
  {
    if b == [] {
      assert a + b == a && Dedup(a) + b == Dedup(a);
      DedupDistinct(a);
      DedupIdentity(Dedup(a));
    } else {
      var front := b[..|b| - 1];
      DedupAgain(a, front);
      assert (a + b)[..|a + b| - 1] == a + front;
      assert (Dedup(a) + b)[..|Dedup(a) + b| - 1] == Dedup(a) + front;
    }
  }

  lemma LoneItem(item: Item)
    ensures AllPages([item]) == item.pages && AllConditions([item]) == item.conditions
  {
    assert [item][..0] == [];
    assert AllPages([]) == [] && AllConditions([]) == [];
  }

  lemma CombinedNext(group: seq<Item>, item: Item)
    requires group != []
    ensures Combined(group + [item]) == Combine(Combined(group), item)
  {
    hide SortedUnique, Dedup;
    var more := group + [item];
    assert more[..|more| - 1] == group;
    assert AllPages(more) == AllPages(group) + item.pages;
    assert AllConditions(more) == AllConditions(group) + item.conditions;
    assert more[0] == group[0];
    assert Combined(more).section == Or(FirstSection(group), item.section);
    assert Combined(more).excerpt == Or(FirstExcerpt(group), item.excerpt);
    if |group| == 1 {
      LoneItem(group[0]);
      assert group == [group[0]];
    } else {
      SortedUniqueAgain(AllPages(group), item.pages);
      DedupAgain(AllConditions(group), item.conditions);
    }
  }

  /** The item is the combination of exactly the items that share its key. */
  predicate Represents(lower: Lower, item: Item, items: seq<Item>)
  {
    var group := WithKey(lower, items, KeyOf(lower, item));
    group != [] && item == Combined(group)
  }

  lemma KeysNext(lower: Lower, items: seq<Item>, item: Item)
    ensures Keys(lower, items + [item]) == Keys(lower, items) + [KeyOf(lower, item)]
  {
  }

  lemma {:induction false} WithKeyAbsent(lower: Lower, items: seq<Item>, key: Key)
    ensures WithKey(lower, items, key) == [] <==> key !in Keys(lower, items)
  {
    hide KeyOf, Keys;
    if items != [] {
      var front, last := items[..|items| - 1], items[|items| - 1];
      WithKeyAbsent(lower, front, key);
      assert items == front + [last];
      KeysNext(lower, front, last);
    }
  }

  lemma WithKeyNext(lower: Lower, items: seq<Item>, item: Item, key: Key)
    ensures WithKey(lower, items + [item], key) ==
      WithKey(lower, items, key) + if KeyOf(lower, item) == key then [item] else []
  {
    assert (items + [item])[..|items|] == items;
  }

  lemma RepresentsNext(lower: Lower, merged: Item, items: seq<Item>, item: Item)
    requires Represents(lower, merged, items)
    ensures
      if KeyOf(lower, merged) == KeyOf(lower, item) then Represents(lower, Combine(merged, item), items + [item])
      else Represents(lower, merged, items + [item])
  {
    hide KeyOf, Combine, Combined, WithKey;
    var group := WithKey(lower, items, KeyOf(lower, merged));
    WithKeyNext(lower, items, item, KeyOf(lower, merged));
    assert group + [] == group;
    CombineKeepsKey(lower, merged, item);
    CombinedNext(group, item);
  }

  lemma RepresentsNew(lower: Lower, items: seq<Item>, item: Item)
    requires KeyOf(lower, item) !in Keys(lower, items)
    ensures Represents(lower, item, items + [item])
  {
    hide KeyOf, WithKey;
    WithKeyNext(lower, items, item, KeyOf(lower, item));
    WithKeyAbsent(lower, items, KeyOf(lower, item));
    assert [] + [item] == [item];
  }

  ghost predicate AllRepresent(lower: Lower, merged: seq<Item>, items: seq<Item>)
  {
    forall i :: 0 <= i < |merged| ==> Represents(lower, merged[i], items)
  }

  lemma AbsorbRepresents(lower: Lower, merged: seq<Item>, items: seq<Item>, item: Item)
    requires AllRepresent(lower, merged, items) && Keys(lower, merged) == Dedup(Keys(lower, items))
    requires Distinct(Keys(lower, merged))
    ensures AllRepresent(lower, Absorb(lower, merged, item), items + [item])
  {
    hide KeyOf, Combine, Represents, Absorb;
    var keys, key := Keys(lower, merged), KeyOf(lower, item);
    forall i | 0 <= i < |merged|
      ensures
        if KeyOf(lower, merged[i]) == key then Represents(lower, Combine(merged[i], item), items + [item])
        else Represents(lower, merged[i], items + [item])
    {
      RepresentsNext(lower, merged[i], items, item);
    }
    if key in keys {
      var r :| 0 <= r < |keys| && keys[r] == key;
      AbsorbRepeated(lower, merged, item, r);
      assert forall i :: 0 <= i < |keys| && i != r ==> keys[i] != key;
    } else {
      AbsorbNew(lower, merged, item);
      RepresentsNew(lower, items, item);
    }
  }

  /** Merging keeps what every input says: pages, conditions and the first section and excerpt of each key. */
  lemma {:induction false} MergedByGroup(lower: Lower, items: seq<Item>)
    ensures forall i :: 0 <= i < |Merge(lower, items)| ==> Represents(lower, Merge(lower, items)[i], items)
  {
    hide KeyOf, Represents, Absorb;
    if items != [] {
      var front, last := items[..|items| - 1], items[|items| - 1];
      MergedByGroup(lower, front);
      MergedKeys(lower, front);
      AbsorbRepresents(lower, Merge(lower, front), front, last);
      assert items == front + [last];
    }
  }

  lemma {:induction false} AllPagesMembers(items: seq<Item>, page: int)
    ensures page in AllPages(items) <==> exists item <- items :: page in item.pages
  {
    if items != [] {
      var front, last := items[..|items| - 1], items[|items| - 1];
      AllPagesMembers(front, page);
      assert items == front + [last];
    }
  }

  lemma {:induction false} WithKeyMembers(lower: Lower, items: seq<Item>, key: Key, item: Item)
    ensures item in WithKey(lower, items, key) <==> item in items && KeyOf(lower, item) == key
  {
    hide KeyOf;
    if items != [] {
      WithKeyMembers(lower, items[..|items| - 1], key, item);
      assert items == items[..|items| - 1] + [items[|items| - 1]];
    }
  }

  /** The pages of a merged item are the union of the pages of the items with its key. */
  lemma MergedPagesAreTheUnion(lower: Lower, items: seq<Item>, i: nat, page: int)
    requires i < |Merge(lower, items)|
    ensures
      var merged := Merge(lower, items)[i];
      page in merged.pages <==>
      exists item <- items :: KeyOf(lower, item) == KeyOf(lower, merged) && page in item.pages
  {
    hide KeyOf, Merge, SortedUnique;
    var merged := Merge(lower, items)[i];
    var group := WithKey(lower, items, KeyOf(lower, merged));
    MergedByGroup(lower, items);
    AllPagesMembers(group, page);
    SortedUniqueProperties(AllPages(group));
    assert Represents(lower, merged, items);
    if |group| == 1 {
      LoneItem(group[0]);
      assert group == [group[0]];
    }
    forall item ensures item in group <==> item in items && KeyOf(lower, item) == KeyOf(lower, merged) {
      WithKeyMembers(lower, items, KeyOf(lower, merged), item);
    }
  }

  /* ----- merging again ----- */

  lemma {:induction false} MergeOfDistinct(lower: Lower, items: seq<Item>)
    requires Distinct(Keys(lower, items))
    ensures Merge(lower, items) == items
  {
    hide KeyOf, Absorb, Keys, Merge;
    if items == [] {
      NothingMerged(lower);
    } else {
      var front, last := items[..|items| - 1], items[|items| - 1];
      var keys := Keys(lower, items);
      assert Keys(lower, front) == keys[..|front|];
      MergeOfDistinct(lower, front);
      forall a | 0 <= a < |front| ensures KeyOf(lower, front[a]) != KeyOf(lower, last) {
        assert keys[a] != keys[|front|];
      }
      AbsorbNew(lower, front, last);
      MergeNext(lower, front, last);
      assert items == front + [last];
    }
  }

  /** Merged evidence is left alone by a second merge. */
  lemma MergeIdempotent(lower: Lower, items: seq<Item>)
    ensures Merge(lower, Merge(lower, items)) == Merge(lower, items)
  {
    MergedKeys(lower, items);
    MergeOfDistinct(lower, Merge(lower, items));
  }

  /** Evidence may be merged as it arrives: merging what is merged with more equals merging all at once. */
  lemma {:induction false} MergeIncrementally(lower: Lower, first: seq<Item>, more: seq<Item>)
    ensures Merge(lower, Merge(lower, first) + more) == Merge(lower, first + more)
  {
    hide Absorb;
    var merged := Merge(lower, first);
    if more == [] {
      MergeIdempotent(lower, first);
      assert merged + more == merged && first + more == first;
    } else {
      var front := more[..|more| - 1];
      MergeIncrementally(lower, first, front);
      assert (first + more)[..|first + more| - 1] == first + front;
      assert (merged + more)[..|merged + more| - 1] == merged + front;
    }
  }

  /* ----- group_by_domain ----- */

  const DOMAIN_BY_CATEGORY: map<string, string> := map[
    "problem" := "problem",
    "motivation" := "problem",
    "goal" := "problem",
    "non_goal" := "problem",
    "assumption" := "problem",
    "prior_work_limitation" := "problem",
    "contribution" := "problem",
    "design_component" := "design",
    "process" := "design",
    "mechanism" := "design",
    "implementation_detail" := "design",
    "evaluation_setup" := "evaluation",
    "evaluation_result" := "evaluation",
    "ablation" := "evaluation",
    "limitation" := "discussion",
    "tradeoff" := "discussion",
    "threat_to_validity" := "discussion",
    "conclusion" := "discussion",
    "related_work_distinction" := "discussion"
  ]

  function DomainOf(lower: Lower, item: Item): string
  {
    var category := lower(Strip(item.category));
    if category in DOMAIN_BY_CATEGORY then DOMAIN_BY_CATEGORY[category] else "discussion"
  }

  const PROBLEM_CATEGORIES :=
    {"problem", "motivation", "goal", "non_goal", "assumption", "prior_work_limitation", "contribution"}
  const DESIGN_CATEGORIES := {"design_component", "process", "mechanism", "implementation_detail"}
  const EVALUATION_CATEGORIES := {"evaluation_setup", "evaluation_result", "ablation"}

  /** Three domains have their categories, and everything else is discussion. */
  lemma DomainsOfCategories(lower: Lower, item: Item)
    ensures
      var category := lower(Strip(item.category));
      DomainOf(lower, item) ==
        if category in PROBLEM_CATEGORIES then "problem"
        else if category in DESIGN_CATEGORIES then "design"
        else if category in EVALUATION_CATEGORIES then "evaluation"
        else "discussion"
  {
  }

  function Domains(lower: Lower, items: seq<Item>): (r: seq<string>)
    ensures |r| == |items|
    ensures forall i :: 0 <= i < |items| ==> r[i] == DomainOf(lower, items[i])
  {
    if items == [] then [] else [DomainOf(lower, items[0])] + Domains(lower, items[1..])
  }

  function InDomain(lower: Lower, items: seq<Item>, domain: string): seq<Item>
  {
    if items == [] then []
    else
      var last := items[|items| - 1];
      InDomain(lower, items[..|items| - 1], domain) + if DomainOf(lower, last) == domain then [last] else []
  }

  /** The dictionary holds each domain's items, and its order the domains as they first occur. */
  ghost predicate GroupsHold(lower: Lower, groups: map<string, seq<Item>>, order: seq<string>, items: seq<Item>)
  {
    && order == Dedup(Domains(lower, items))
    && (forall domain :: domain in groups <==> domain in order)
    && (forall domain <- groups.Keys :: groups[domain] == InDomain(lower, items, domain))
  }

  lemma DomainsNext(lower: Lower, items: seq<Item>, item: Item)
    ensures Domains(lower, items + [item]) == Domains(lower, items) + [DomainOf(lower, item)]
  {
  }

  lemma {:induction false} OtherDomain(lower: Lower, items: seq<Item>, domain: string)
    ensures domain !in Domains(lower, items) ==> InDomain(lower, items, domain) == []
  {
    hide DomainOf, Domains;
    if items != [] {
      var front, last := items[..|items| - 1], items[|items| - 1];
      assert items == front + [last];
      DomainsNext(lower, front, last);
      OtherDomain(lower, front, domain);
    }
  }

  lemma InDomainNext(lower: Lower, items: seq<Item>, item: Item, domain: string)
    ensures InDomain(lower, items + [item], domain) ==
      InDomain(lower, items, domain) + if DomainOf(lower, item) == domain then [item] else []
  {
    assert (items + [item])[..|items|] == items;
  }

  lemma GroupsHoldNext(
    lower: Lower, groups: map<string, seq<Item>>, order: seq<string>, groups': map<string, seq<Item>>,
    order': seq<string>, items: seq<Item>, item: Item)
    requires GroupsHold(lower, groups, order, items)
    requires
      var domain := DomainOf(lower, item);
      && groups' == groups[domain := (if domain in groups then groups[domain] else []) + [item]]
      && order' == if domain in groups then order else order + [domain]
    ensures GroupsHold(lower, groups', order', items + [item])
  {
    hide DomainOf, InDomain;
    var domain := DomainOf(lower, item);
    assert order' == Dedup(Domains(lower, items + [item])) by {
      assert Domains(lower, items + [item])[..|items|] == Domains(lower, items);
    }
    OtherDomain(lower, items, domain);
    forall d <- groups'.Keys ensures groups'[d] == InDomain(lower, items + [item], d) {
      InDomainNext(lower, items, item, d);
      assert InDomain(lower, items, d) + [] == InDomain(lower, items, d);
    }
  }

  /** `group_by_domain`; `order` lists the domains as the dictionary does. */
  method GroupByDomain(lower: Lower, items: seq<Item>) returns (groups: map<string, seq<Item>>, order: seq<string>)
    ensures GroupsHold(lower, groups, order, items)
  {
    hide DomainOf, InDomain;
    groups, order := map[], [];
    assert items[..0] == [];
    for i := 0 to |items|
      invariant GroupsHold(lower, groups, order, items[..i])
    {
      var domain := DomainOf(lower, items[i]);
      ghost var groups', order' := groups, order;
      assert items[..i] + [items[i]] == items[..i + 1];
      if domain !in groups {
        groups := groups[domain := []];
        order := order + [domain];
      }
      groups := groups[domain := groups[domain] + [items[i]]];
      GroupsHoldNext(lower, groups', order', groups, order, items[..i], items[i]);
    }
    assert items[..|items|] == items;
  }

  function Grouped(lower: Lower, items: seq<Item>, order: seq<string>): seq<Item>
  {
    if order == [] then []
    else Grouped(lower, items, order[..|order| - 1]) + InDomain(lower, items, order[|order| - 1])
  }

  lemma {:induction false} GroupedNext(lower: Lower, items: seq<Item>, item: Item, order: seq<string>)
    requires Distinct(order)
    ensures multiset(Grouped(lower, items + [item], order)) ==
      multiset(Grouped(lower, items, order)) + if DomainOf(lower, item) in order then multiset{item} else multiset{}
  {
    hide DomainOf, InDomain;
    if order != [] {
      var front, last := order[..|order| - 1], order[|order| - 1];
      GroupedNext(lower, items, item, front);
      InDomainNext(lower, items, item, last);
      assert order == front + [last] && last !in front;
    }
  }

  /** Grouping by domain loses and repeats nothing. */
  lemma {:induction false} GroupsHoldEveryItemOnce(lower: Lower, items: seq<Item>, order: seq<string>)
    requires Distinct(order) && forall domain <- Domains(lower, items) :: domain in order
    ensures multiset(Grouped(lower, items, order)) == multiset(items)
  {
    hide DomainOf, Grouped, Domains;
    if items == [] {
      NothingGrouped(lower, order);
    } else {
      var front, last := items[..|items| - 1], items[|items| - 1];
      assert items == front + [last];
      DomainsNext(lower, front, last);
      GroupsHoldEveryItemOnce(lower, front, order);
      GroupedNext(lower, front, last, order);
    }
  }

  lemma {:induction false} NothingGrouped(lower: Lower, order: seq<string>)
    ensures Grouped(lower, [], order) == []
  {
    if order != [] {
      NothingGrouped(lower, order[..|order| - 1]);
    }
  }
}
