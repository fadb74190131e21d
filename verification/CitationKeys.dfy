/** Allocation of local citation keys by widening a digest until no other paper collides. */
module CitationKeys {
  import opened Seqs
  import opened Bibtex

  const KEY_MAX_LENGTH := 64

  /** A digest length that leaves room for the dash and one character of the base. */
  type DigestLength = n: nat | 0 < n < KEY_MAX_LENGTH - 1 witness 8

  const DIGEST_LENGTHS: seq<DigestLength> := [8, 12, 16, 24, 32, 40, 48]

  /**
   * What the allocator is built on: the readable base of a key, identifier normalisation,
   * lower-casing and the digest. None of them is assumed to be injective.
   */
  datatype Naming = Naming(
    base: Paper -> string,
    normalizeDoi: string -> string,
    normalizeArxivId: string -> string,
    lower: string -> string,
    digest: string -> string)

  predicate IsHex(c: char)
  {
    '0' <= c <= '9' || 'a' <= c <= 'f'
  }

  ghost predicate HexDigest(d: string)
  {
    |d| == 64 && forall k :: 0 <= k < 64 ==> IsHex(d[k])
  }

  /** Digests are 64 hex digits and bases contain nothing a key may not contain. */
  ghost predicate Sound(n: Naming)
  {
    && (forall s: string :: HexDigest(n.digest(s)))
    && (forall p: Paper :: forall k :: 0 <= k < |n.base(p)| ==> KeyChar(n.base(p)[k]))
  }

  function Identity(n: Naming, p: Paper): string
  {
    if Truthy(p.doi) then "doi:" + n.normalizeDoi(p.doi.value)
    else if Truthy(p.arxivId) then "arxiv:" + n.normalizeArxivId(p.arxivId.value)
    else "paper:" + n.lower(p.id)
  }

  /** The catalogue with the paper itself put in, by identifier. */
  function WithPaper(catalog: map<string, Paper>, p: Paper): map<string, Paper>
  {
    catalog[p.id := p]
  }

  /** The identity of a paper, qualified by its identifier when another paper shares it. */
  function EffectiveIdentity(n: Naming, papers: map<string, Paper>, id: string): string
    requires id in papers
  {
    var identity := Identity(n, papers[id]);
    if forall other <- papers.Keys :: other != id ==> Identity(n, papers[other]) != identity
    then identity
    else identity + "|paper:" + n.lower(id)
  }

  function Take(s: string, n: nat): (r: string)
    ensures r <= s && |r| <= n
  {
    if |s| <= n then s else s[..n]
  }

  /** `_format_citation_key`: as much of the base as fits, a dash and the first digits of the digest. */
  function FormatKey(n: Naming, p: Paper, identity: string, length: DigestLength): (r: string)
  {
    var digits := Take(n.digest(identity), length);
    Take(n.base(p), KEY_MAX_LENGTH - |digits| - 1) + "-" + digits
  }

  function KeyFor(n: Naming, papers: map<string, Paper>, id: string, length: DigestLength): (r: string)
    requires id in papers
  {
    FormatKey(n, papers[id], EffectiveIdentity(n, papers, id), length)
  }

  /** The key of this digest length is neither occupied nor the key of another paper at this length. */
  predicate Free(n: Naming, papers: map<string, Paper>, id: string, length: DigestLength, occupied: set<string>)
    requires id in papers
  {
    && KeyFor(n, papers, id, length) !in occupied
    && forall other <- papers.Keys :: other == id || KeyFor(n, papers, other, length) != KeyFor(n, papers, id, length)
  }

  /** The key allocated for a paper of the catalogue: at the first digest length that is free. */
  ghost predicate Allocated(n: Naming, papers: map<string, Paper>, id: string, occupied: set<string>, key: string)
    requires id in papers
  {
    exists i :: 0 <= i < |DIGEST_LENGTHS|
      && Free(n, papers, id, DIGEST_LENGTHS[i], occupied)
      && (forall j :: 0 <= j < i ==> !Free(n, papers, id, DIGEST_LENGTHS[j], occupied))
      && key == KeyFor(n, papers, id, DIGEST_LENGTHS[i])
  }

  /** `_citation_key`; None where the source raises. */
  method CitationKey(n: Naming, p: Paper, catalog: map<string, Paper>, occupied: set<string>)
    returns (key: Option<string>)
    ensures key.Some? ==> Allocated(n, WithPaper(catalog, p), p.id, occupied, key.value)
    ensures key.None? <==>
      forall i :: 0 <= i < |DIGEST_LENGTHS| ==> !Free(n, WithPaper(catalog, p), p.id, DIGEST_LENGTHS[i], occupied)
  {
    var papers := WithPaper(catalog, p);
    for i := 0 to |DIGEST_LENGTHS|
      invariant forall j :: 0 <= j < i ==> !Free(n, papers, p.id, DIGEST_LENGTHS[j], occupied)
    {
      if Free(n, papers, p.id, DIGEST_LENGTHS[i], occupied) {
        return Some(KeyFor(n, papers, p.id, DIGEST_LENGTHS[i]));
      }
    }
    return None;
  }

  /** A key ends in a dash followed by exactly its digest length of hex digits. */
  lemma KeyShape(n: Naming, papers: map<string, Paper>, id: string, length: DigestLength)
    requires Sound(n) && id in papers
    ensures
      var key := KeyFor(n, papers, id, length);
      && length < |key| <= KEY_MAX_LENGTH
      && key[|key| - length - 1] == '-'
      && key[..|key| - length - 1] <= n.base(papers[id])
      && (|key| < KEY_MAX_LENGTH ==> key[..|key| - length - 1] == n.base(papers[id]))
      && (forall k :: |key| - length <= k < |key| ==> IsHex(key[k]))
      && ValidKey(key)
  {
    hide EffectiveIdentity;
    var identity := EffectiveIdentity(n, papers, id);
    assert HexDigest(n.digest(identity));
    var base, digits := Take(n.base(papers[id]), KEY_MAX_LENGTH - length - 1), Take(n.digest(identity), length);
    assert forall k :: 0 <= k < |base| ==> base[k] == n.base(papers[id])[k];
    assert forall k :: 0 <= k < |digits| ==> digits[k] == n.digest(identity)[k];
    KeyPartsShape(base, digits);
  }

  lemma KeyPartsShape(base: string, digits: string)
    requires forall k :: 0 <= k < |base| ==> KeyChar(base[k])
    requires forall k :: 0 <= k < |digits| ==> IsHex(digits[k])
    ensures
      var key := base + "-" + digits;
      && key[|key| - |digits| - 1] == '-'
      && (forall k :: |key| - |digits| <= k < |key| ==> IsHex(key[k]))
      && ValidKey(key)
  {
    assert forall c :: IsHex(c) ==> KeyChar(c);
    assert KeyChar('-');
  }

  /** Papers that share an identity are told apart by their identifiers. */
  lemma SharedIdentityIsQualified(n: Naming, papers: map<string, Paper>, p: string, q: string)
    requires p in papers && q in papers && p != q && Identity(n, papers[p]) == Identity(n, papers[q])
    ensures EffectiveIdentity(n, papers, p) == EffectiveIdentity(n, papers, q) <==> n.lower(p) == n.lower(q)
  {
    var head := Identity(n, papers[p]) + "|paper:";
    assert (head + n.lower(p))[|head|..] == n.lower(p) && (head + n.lower(q))[|head|..] == n.lower(q);
  }

  lemma DigestsSeparateKeys(n: Naming, papers: map<string, Paper>, p: string, q: string, length: DigestLength)
    requires Sound(n) && p in papers && q in papers
    requires Take(n.digest(EffectiveIdentity(n, papers, p)), length) != Take(n.digest(EffectiveIdentity(n, papers, q)), length)
    ensures KeyFor(n, papers, p, length) != KeyFor(n, papers, q, length)
  {
    var a, b := EffectiveIdentity(n, papers, p), EffectiveIdentity(n, papers, q);
    assert HexDigest(n.digest(a)) && HexDigest(n.digest(b));
    hide EffectiveIdentity, Sound;
    KeyEndsInDigits(n, papers[p], a, length);
    KeyEndsInDigits(n, papers[q], b, length);
  }

  lemma KeyEndsInDigits(n: Naming, p: Paper, identity: string, length: DigestLength)
    requires HexDigest(n.digest(identity))
    ensures
      var key := FormatKey(n, p, identity, length);
      |key| >= length && key[|key| - length..] == Take(n.digest(identity), length)
  {
  }

  /**
   * A paper gets a key whenever, at some digest length, its digits differ from those of all other
   * papers and its key is not occupied - also when other papers share its DOI.
   */
  lemma KeyWhenDigestsDiffer(
    n: Naming, papers: map<string, Paper>, id: string, occupied: set<string>, length: DigestLength)
    requires Sound(n) && id in papers && KeyFor(n, papers, id, length) !in occupied
    requires forall other <- papers.Keys :: other != id ==>
      Take(n.digest(EffectiveIdentity(n, papers, other)), length) != Take(n.digest(EffectiveIdentity(n, papers, id)), length)
    ensures Free(n, papers, id, length, occupied)
  {
    hide EffectiveIdentity, Sound, KeyFor;
    forall other <- papers.Keys ensures other == id || KeyFor(n, papers, other, length) != KeyFor(n, papers, id, length) {
      if other != id {
        DigestsSeparateKeys(n, papers, other, id, length);
      }
    }
  }

  /** Keys of different digest lengths differ, whatever the papers. */
  lemma LengthsSeparateKeys(n: Naming, papers: map<string, Paper>, p: string, q: string, short: DigestLength, long: DigestLength)
    requires Sound(n) && p in papers && q in papers && short < long
    ensures KeyFor(n, papers, p, short) != KeyFor(n, papers, q, long)
  {
    KeyShape(n, papers, p, short);
    KeyShape(n, papers, q, long);
    var key := KeyFor(n, papers, p, short);
    assert key[|key| - short - 1] == '-' && !IsHex('-');
  }

  /**
   * Keys allocated to different papers of one catalogue are different, even when the papers
   * settle on different digest lengths and were shown different occupied keys.
   */
  lemma AllocatedKeysDiffer(
    n: Naming, papers: map<string, Paper>, p: string, q: string,
    occupiedP: set<string>, occupiedQ: set<string>, keyP: string, keyQ: string)
    requires Sound(n) && p in papers && q in papers && p != q
    requires Allocated(n, papers, p, occupiedP, keyP) && Allocated(n, papers, q, occupiedQ, keyQ)
    ensures keyP != keyQ
  {
    hide KeyFor, Sound;
    var i :| 0 <= i < |DIGEST_LENGTHS|
      && Free(n, papers, p, DIGEST_LENGTHS[i], occupiedP) && keyP == KeyFor(n, papers, p, DIGEST_LENGTHS[i]);
    var j :| 0 <= j < |DIGEST_LENGTHS|
      && Free(n, papers, q, DIGEST_LENGTHS[j], occupiedQ) && keyQ == KeyFor(n, papers, q, DIGEST_LENGTHS[j]);
    var lengthP, lengthQ := DIGEST_LENGTHS[i], DIGEST_LENGTHS[j];
    if lengthP < lengthQ {
      LengthsSeparateKeys(n, papers, p, q, lengthP, lengthQ);
    } else if lengthQ < lengthP {
      LengthsSeparateKeys(n, papers, q, p, lengthQ, lengthP);
    }
  }

  /** Allocated keys are unoccupied, at most 64 characters long and readable by the BibTeX key reader. */
  lemma AllocatedKeyIsUsable(n: Naming, papers: map<string, Paper>, id: string, occupied: set<string>, key: string)
    requires Sound(n) && id in papers && Allocated(n, papers, id, occupied, key)
    ensures key !in occupied && |key| <= KEY_MAX_LENGTH && ValidKey(key)
  {
    hide KeyFor, Sound;
    var i :| 0 <= i < |DIGEST_LENGTHS|
      && Free(n, papers, id, DIGEST_LENGTHS[i], occupied) && key == KeyFor(n, papers, id, DIGEST_LENGTHS[i]);
    KeyShape(n, papers, id, DIGEST_LENGTHS[i]);
  }

  /** A whole catalogue: whatever keys are allocated to its papers, no two are the same. */
  lemma CatalogueKeysInjective(n: Naming, papers: map<string, Paper>, occupied: set<string>, keys: map<string, string>)
    requires Sound(n) && keys.Keys <= papers.Keys
    requires forall id :: id in keys ==> Allocated(n, papers, id, occupied, keys[id])
    ensures forall p, q :: p in keys && q in keys && p != q ==> keys[p] != keys[q]
  {
    hide Allocated, Sound;
    forall p, q | p in keys && q in keys && p != q ensures keys[p] != keys[q] {
      AllocatedKeysDiffer(n, papers, p, q, occupied, occupied, keys[p], keys[q]);
    }
  }
}
