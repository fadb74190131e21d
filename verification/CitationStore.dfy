/**
 * The citation cache: one stored citation a paper, fetched by DOI or printed from local
 * metadata, shared with other sessions that edit metadata and cite other papers meanwhile.
 */
module CitationStore {
  import opened Seqs
  import opened Bibtex
  import opened CitationKeys

  const GENERATOR_VERSION := 2
  const MAX_CONTENT := 1_000_000
  const DAY := 86_400
  const FAILED_RETRY_DELAY := DAY
  const NOT_FOUND_RETRY_DELAY := 7 * DAY

  datatype Source = Doi | Arxiv | Local

  datatype RemoteStatus = Success | NotFound | LookupFailed | NotAttempted

  datatype LookupError = NotProvided | InvalidKey | ServiceError(reason: string)

  /** The outcome of the last DOI lookup; times are seconds. */
  datatype Remote = Remote(
    status: RemoteStatus,
    checkedAt: Option<int>,
    nextAttempt: Option<int>,
    lastError: Option<LookupError>)

  const NEVER := Remote(NotAttempted, None, None, None)

  datatype Row = Row(
    content: string,
    key: string,
    source: Source,
    authoritative: bool,
    identifier: Option<string>,
    fingerprint: string,
    generator: int,
    remote: Remote)

  datatype Lookup = Found(bibtex: string) | NoBibtex | Unavailable(reason: string)

  /** A question put to the DOI service: when it was put, and the answer. */
  datatype Asked = Asked(time: int, answer: Lookup)

  datatype UpsertError = ContentTooLong | KeyConflict | MissingPaper

  datatype Failure = PaperNotFound | NoUniqueKey | NotStored(reason: UpsertError)

  /** How a DOI lookup leaves the call: finished, to be started over, or with local metadata to print. */
  datatype Outcome = Done(result: Result<Citation, Failure>) | StartOver | PrintLocally(remote: Remote)

  datatype Citation = Citation(content: string, source: Source, cached: bool)

  predicate IsLocal(row: Row)
  {
    row.source != Doi
  }

  /** `_source_identifier`. */
  function SourceIdentifier(n: Naming, p: Paper): Option<string>
  {
    if Truthy(p.doi) then Some("doi:" + n.normalizeDoi(p.doi.value))
    else if Truthy(p.arxivId) then Some("arxiv:" + n.normalizeArxivId(p.arxivId.value))
    else None
  }

  function RowOf(rows: map<string, Row>, id: string): Option<Row>
  {
    if id in rows then Some(rows[id]) else None
  }

  predicate RetryDue(deadline: Option<int>, now: int)
  {
    deadline.None? || deadline.value <= now
  }

  /** The partial unique index: local rows have pairwise distinct keys. */
  predicate IndexHolds(rows: map<string, Row>)
  {
    forall a <- rows.Keys :: forall b <- rows.Keys ::
      IsLocal(rows[a]) && IsLocal(rows[b]) && rows[a].key == rows[b].key ==> a == b
  }

  /** Deadlines follow the last lookup by the delay of its outcome. */
  predicate DeadlineOk(remote: Remote)
  {
    match remote.status
    case LookupFailed => remote.checkedAt.Some? && remote.nextAttempt == Some(remote.checkedAt.value + FAILED_RETRY_DELAY)
    case NotFound => remote.checkedAt.Some? && remote.nextAttempt == Some(remote.checkedAt.value + NOT_FOUND_RETRY_DELAY)
    case Success => remote.checkedAt.Some? && remote.nextAttempt.None?
    case NotAttempted => remote.checkedAt.None? && remote.nextAttempt.None?
  }

  /** The stored key is the one the reader finds in the content; only DOI rows record a success. */
  predicate RowOk(row: Row)
  {
    && BibtexKey(row.content) == Some(row.key)
    && DeadlineOk(row.remote)
    && (IsLocal(row) ==> row.remote.status != Success)
    && (row.authoritative <==> row.source != Local)
  }

  predicate Sane(papers: map<string, Paper>, rows: map<string, Row>)
  {
    && rows.Keys <= papers.Keys
    && (forall id <- papers.Keys :: papers[id].id == id)
    && (forall id <- rows.Keys :: RowOk(rows[id]))
    && IndexHolds(rows)
  }

  lemma SaneRow(papers: map<string, Paper>, rows: map<string, Row>, id: string)
    requires Sane(papers, rows)
    ensures id in rows ==> id in papers && RowOk(rows[id])
    ensures id in papers ==> papers[id].id == id
  {
  }

  /** The paper has been there before and, if it is not edited to name another source, names the same one. */
  predicate PaperKept(n: Naming, sameSource: bool, id: string, papers: map<string, Paper>, papers': map<string, Paper>)
  {
    id in papers' ==>
      && id in papers
      && (sameSource ==>
            && SourceIdentifier(n, papers'[id]) == SourceIdentifier(n, papers[id])
            && Truthy(papers'[id].doi) == Truthy(papers[id].doi))
  }

  /** What other sessions leave of one paper and its row, unless they delete both. */
  predicate Undisturbed(
    n: Naming, sameSource: bool, id: string,
    papers: map<string, Paper>, rows: map<string, Row>, papers': map<string, Paper>, rows': map<string, Row>)
  {
    && PaperKept(n, sameSource, id, papers, papers')
    && (id in papers' ==> (id in rows' <==> id in rows) && (id in rows ==> rows'[id] == rows[id]))
  }

  /** A local row that stays local keeps its key. */
  predicate KeyKept(before: Row, after: Row)
  {
    IsLocal(before) && IsLocal(after) ==> after.key == before.key
  }

  /** A citation fetched from the DOI service for the identifier the paper has. */
  predicate FromSource(n: Naming, row: Row, paper: Paper)
  {
    row.source == Doi && row.identifier == SourceIdentifier(n, paper)
  }

  /**
   * What a call for a paper does to its stored row: a local key is kept, and a citation fetched
   * for the paper's present DOI is returned unchanged or, on refresh, replaced only by another.
   */
  predicate Settled(
    n: Naming, refresh: bool, sameSource: bool, paper: Paper, before: Row, after: Row, r: Result<Citation, Failure>)
  {
    && KeyKept(before, after)
    && (FromSource(n, before, paper) && !refresh ==> after == before && r == Ok(Citation(before.content, Doi, true)))
    && (FromSource(n, before, paper) && Truthy(paper.doi) && sameSource ==>
          FromSource(n, after, paper) && FetchedOrKept(before, after))
  }

  /** A fetched row is new only after a successful lookup; otherwise it has the citation it had. */
  predicate FetchedOrKept(before: Row, after: Row)
  {
    after.remote.status == Success || (after.content == before.content && after.key == before.key)
  }

  /** The row that was read is still there, or the paper has been deleted with it. */
  predicate StillStored(id: string, stored: Option<Row>, papers: map<string, Paper>, rows: map<string, Row>)
  {
    && (id in papers && stored.Some? ==> id in rows && rows[id] == stored.value)
    && (id in papers && stored.None? ==> id !in rows)
  }

  lemma StillStoredIfUndisturbed(
    n: Naming, sameSource: bool, id: string, stored: Option<Row>,
    papers: map<string, Paper>, rows: map<string, Row>, papers': map<string, Paper>, rows': map<string, Row>)
    requires StillStored(id, stored, papers, rows)
    ensures Undisturbed(n, sameSource, id, papers, rows, papers', rows') ==> StillStored(id, stored, papers', rows')
  {
  }

  /** The answer of a call shows the stored row. */
  predicate Matches(citation: Citation, row: Row)
  {
    citation.content == row.content && citation.source == row.source
  }

  /** The row holds the paper's metadata, printed under the row's key. */
  ghost predicate PrintedFor(n: Naming, fingerprint: Paper -> string, paper: Paper, row: Row)
  {
    && row.content == Entry(row.key, Fields(paper))
    && row.source == (if paper.arxivId.Some? then Arxiv else Local)
    && row.identifier == SourceIdentifier(n, paper)
    && row.fingerprint == fingerprint(paper)
  }

  /** The conditions under which the DOI service may be asked. */
  predicate LookupAllowed(n: Naming, refresh: bool, paper: Paper, row: Row, now: int)
  {
    refresh || row.identifier != SourceIdentifier(n, paper) || RetryDue(row.remote.nextAttempt, now)
  }

  /** The lookups of a call are noted behind the earlier ones, and there are no more than `most`. */
  predicate LookedUp(before: seq<Asked>, after: seq<Asked>, most: nat)
  {
    before <= after && |after| <= |before| + most
  }

  /** Every lookup made since was allowed when it was made. */
  predicate AllAllowed(n: Naming, refresh: bool, paper: Paper, row: Row, before: seq<Asked>, after: seq<Asked>)
  {
    forall k :: |before| <= k < |after| ==> LookupAllowed(n, refresh, paper, row, after[k].time)
  }

  /** After a failed lookup a day has to pass, and a week when there was no citation, unless the source has changed. */
  predicate RetriesWait(n: Naming, paper: Paper, row: Row, before: seq<Asked>, after: seq<Asked>)
  {
    row.identifier == SourceIdentifier(n, paper) && row.remote.checkedAt.Some? ==>
      forall k :: |before| <= k < |after| ==>
        && (row.remote.status == LookupFailed ==> after[k].time >= row.remote.checkedAt.value + 24 * 60 * 60)
        && (row.remote.status == NotFound ==> after[k].time >= row.remote.checkedAt.value + 7 * 24 * 60 * 60)
  }

  lemma AllowedRetriesWait(n: Naming, paper: Paper, row: Row, before: seq<Asked>, after: seq<Asked>)
    requires RowOk(row) && AllAllowed(n, false, paper, row, before, after)
    ensures RetriesWait(n, paper, row, before, after)
  {
    hide SourceIdentifier, BibtexKey;
  }

  /**
   * The DOI service has to be asked: the paper has a DOI, and there is no row, or a refresh is
   * wanted, or the row is of another DOI, or it is a local one that is due for another try.
   */
  predicate MustAsk(n: Naming, fingerprint: Paper -> string, paper: Paper, stored: Option<Row>, refresh: bool, now: int)
  {
    && paper.doi.Some?
    && (stored.Some? && !refresh ==>
          var row := stored.value;
          if row.source == Doi then row.identifier != SourceIdentifier(n, paper)
          else
            || row.remote.nextAttempt.None?
            || row.remote.nextAttempt.value <= now
            || (row.identifier != SourceIdentifier(n, paper)
                && (row.fingerprint != fingerprint(paper) || row.generator != GENERATOR_VERSION)))
  }

  /** Such a row is not returned as it is, now or later, and a lookup is allowed. */
  lemma MustAskStays(
    n: Naming, fingerprint: Paper -> string, paper: Paper, stored: Option<Row>, refresh: bool, now: int)
    ensures MustAsk(n, fingerprint, paper, stored, refresh, now) ==> paper.doi.Some?
    ensures MustAsk(n, fingerprint, paper, stored, refresh, now) && stored.Some? ==>
      && (forall later :: now <= later ==> LookupAllowed(n, refresh, paper, stored.value, later))
      && (refresh || !FromSource(n, stored.value, paper))
      && (|| refresh
          || !IsLocal(stored.value)
          || stored.value.fingerprint != fingerprint(paper)
          || stored.value.generator != GENERATOR_VERSION
          || (forall later :: now <= later ==> RetryDue(stored.value.remote.nextAttempt, later)))
  {
  }

  /** Papers name the same source exactly when they have the same DOI, or the same arXiv identifier and no DOI, or neither. */
  lemma SameSourceIff(n: Naming, a: Paper, b: Paper)
    ensures SourceIdentifier(n, a) == SourceIdentifier(n, b) <==>
      && Truthy(a.doi) == Truthy(b.doi)
      && if Truthy(a.doi) then n.normalizeDoi(a.doi.value) == n.normalizeDoi(b.doi.value)
         else
           && Truthy(a.arxivId) == Truthy(b.arxivId)
           && (Truthy(a.arxivId) ==> n.normalizeArxivId(a.arxivId.value) == n.normalizeArxivId(b.arxivId.value))
  {
    if Truthy(a.doi) && Truthy(b.doi) {
      PrefixKeeps("doi:", n.normalizeDoi(a.doi.value), n.normalizeDoi(b.doi.value));
    }
    if Truthy(a.arxivId) && Truthy(b.arxivId) {
      PrefixKeeps("arxiv:", n.normalizeArxivId(a.arxivId.value), n.normalizeArxivId(b.arxivId.value));
    }
    assert Truthy(a.doi) ==> SourceIdentifier(n, a).value[0] == 'd';
    assert Truthy(b.doi) ==> SourceIdentifier(n, b).value[0] == 'd';
    assert !Truthy(a.doi) && Truthy(a.arxivId) ==> SourceIdentifier(n, a).value[0] == 'a';
    assert !Truthy(b.doi) && Truthy(b.arxivId) ==> SourceIdentifier(n, b).value[0] == 'a';
  }

  lemma PrefixKeeps(prefix: string, a: string, b: string)
    ensures prefix + a == prefix + b <==> a == b
  {
    assert (prefix + a)[|prefix|..] == a && (prefix + b)[|prefix|..] == b;
  }

  /** The service has given a citation that has a key. */
  predicate Usable(answer: Lookup)
  {
    answer.Found? && BibtexKey(answer.bibtex).Some?
  }

  /**
   * What a successful call makes of an answer: a usable one is stored and returned, any other
   * leaves the citation that had been fetched, or the printed paper; the lookup is noted.
   */
  ghost predicate Heeded(
    n: Naming, fingerprint: Paper -> string, paper: Paper, asked: Asked, citation: Citation, row: Row)
  {
    && row.remote.checkedAt == Some(asked.time)
    && (row.remote.status == Success <==> Usable(asked.answer))
    && (row.remote.status == NotFound <==> asked.answer.NoBibtex?)
    && Matches(citation, row)
    && (Usable(asked.answer) ==> citation == Citation(asked.answer.bibtex, Doi, false))
    && (!Usable(asked.answer) && row.source == Doi ==> citation.cached)
    && (row.source != Doi ==> PrintedFor(n, fingerprint, paper, row))
  }

  /** The printed paper is what an answer without a usable citation leads to. */
  lemma PrintedIsHeeded(
    n: Naming, fingerprint: Paper -> string, paper: Paper, asked: Asked, citation: Citation, row: Row)
    requires PrintedFor(n, fingerprint, paper, row) && citation == Citation(row.content, row.source, false)
    requires !Usable(asked.answer) && row.remote.checkedAt == Some(asked.time) && row.remote.status != Success
    requires row.remote.status == NotFound <==> asked.answer.NoBibtex?
    ensures Heeded(n, fingerprint, paper, asked, citation, row)
  {
    hide Entry, Fields, SourceIdentifier;
  }

  /** Every row of a history keeps the key of the local row before it. */
  ghost predicate KeysKept(history: seq<Row>)
  {
    |history| >= 2 ==> KeysKept(history[..|history| - 1]) && KeyKept(history[|history| - 2], history[|history| - 1])
  }

  /** A paper's key never changes while its row stays local, however many calls are made. */
  lemma {:induction false} LocalKeyNeverChanges(history: seq<Row>, i: nat, j: nat)
    requires KeysKept(history) && i <= j < |history|
    requires forall k :: i <= k <= j ==> IsLocal(history[k])
    ensures history[i].key == history[j].key
    decreases |history|
  {
    if i < j {
      var front := history[..|history| - 1];
      if j < |history| - 1 {
        LocalKeyNeverChanges(front, i, j);
      } else {
        LocalKeyNeverChanges(front, i, j - 1);
        assert history[j - 1].key == history[j].key;
      }
    }
  }

  class CitationService {
    const naming: Naming
    const fingerprint: Paper -> string
    var papers: map<string, Paper>
    var rows: map<string, Row>
    var clock: int
    /** What the DOI service was asked. */
    var asked: seq<Asked>
    /** The papers as they were last listed for a new key. */
    ghost var listed: map<string, Paper>
    /** How often other sessions were seen to have edited the paper of the running call. */
    ghost var edits: nat

    ghost predicate Valid()
      reads this
    {
      Sane(papers, rows) && Sound(naming)
    }

    constructor (naming: Naming, fingerprint: Paper -> string, papers: map<string, Paper>)
      requires Sound(naming) && forall id :: id in papers ==> papers[id].id == id
      ensures Valid() && rows == map[]
    {
      this.naming, this.fingerprint, this.papers := naming, fingerprint, papers;
      rows, clock, asked, listed, edits := map[], 0, [], map[], 0;
    }

    method Now() returns (now: int)
      modifies this`clock
      ensures now == clock && old(clock) <= clock
    {
      var elapsed: int := *;
      if elapsed > 0 {
        clock := clock + elapsed;
      }
      return clock;
    }

    /**
     * Anything other sessions may do between two transactions of a call for paper `id`: edit,
     * add and delete papers and store citations of other papers. Only one call for a paper
     * runs at a time. With `sameSource`, the paper's own DOI or arXiv identifier is not edited.
     */
    method OtherSessions(id: string, sameSource: bool, ghost stored: Option<Row>)
      requires Valid() && StillStored(id, stored, papers, rows)
      modifies this`papers, this`rows, this`edits
      ensures Valid() && StillStored(id, stored, papers, rows) && PaperKept(naming, sameSource, id, old(papers), papers)
      ensures Undisturbed(naming, sameSource, id, old(papers), old(rows), papers, rows)
      ensures old(edits) <= edits
      ensures edits == old(edits) && id in papers ==> id in old(papers) && papers[id] == old(papers)[id]
    {
      var papers': map<string, Paper> := *;
      var rows': map<string, Row> := *;
      StillStoredIfUndisturbed(naming, sameSource, id, stored, papers, rows, papers', rows');
      if Sane(papers', rows') && Undisturbed(naming, sameSource, id, papers, rows, papers', rows') {
        if id in papers && id in papers' && papers'[id] != papers[id] {
          edits := edits + 1;
        }
        papers, rows := papers', rows';
      }
    }

    /** Another local row has this key. */
    predicate Taken(id: string, key: string)
      reads this
    {
      exists other <- rows.Keys :: other != id && IsLocal(rows[other]) && rows[other].key == key
    }

    /** While its row is stored, nobody else has the key of a local row. */
    lemma OwnKeyIsFree(id: string)
      requires Valid() && id in rows && IsLocal(rows[id])
      ensures !Taken(id, rows[id].key)
    {
    }

    /** `upsert_citation` under the table's constraints. */
    method Upsert(id: string, row: Row) returns (r: Result<Row, UpsertError>)
      requires Valid() && RowOk(row)
      modifies this`rows
      ensures Valid()
      ensures r.Ok? ==> id in papers && r.value == row && rows == old(rows)[id := row]
      ensures r.Err? ==> rows == old(rows)
      ensures r == Err(KeyConflict) <==> |row.content| <= MAX_CONTENT && IsLocal(row) && old(Taken(id, row.key))
      ensures r == Err(MissingPaper) ==> id !in papers
    {
      if |row.content| > MAX_CONTENT {
        return Err(ContentTooLong);
      }
      if IsLocal(row) && Taken(id, row.key) {
        return Err(KeyConflict);
      }
      if id !in papers {
        return Err(MissingPaper);
      }
      rows := rows[id := row];
      return Ok(row);
    }

    /** `list_local_citation_keys`. */
    function OccupiedKeys(id: string): set<string>
      reads this
    {
      set other | other in rows && other != id && IsLocal(rows[other]) :: rows[other].key
    }

    /** `list_papers`. */
    method ListPapers() returns (catalog: map<string, Paper>)
      modifies this`listed
      ensures catalog == listed == papers
    {
      listed := papers;
      return papers;
    }

    /** `_local_bibtex`: the given key, or a newly allocated one. */
    method LocalBibtex(paper: Paper, preserved: Option<string>, sameSource: bool, ghost stored: Option<Row>)
      returns (r: Result<string, Failure>)
      requires Valid() && (preserved.Some? ==> ValidKey(preserved.value))
      requires StillStored(paper.id, stored, papers, rows)
      modifies this`papers, this`rows, this`listed, this`edits
      ensures old(edits) <= edits
      ensures Valid() && StillStored(paper.id, stored, papers, rows) && PaperKept(naming, sameSource, paper.id, old(papers), papers)
      ensures r.Ok? ==>
        && BibtexKey(r.value).Some?
        && r.value == Entry(BibtexKey(r.value).value, Fields(paper))
        && (preserved.Some? ==> BibtexKey(r.value) == preserved)
        && (preserved.None? ==>
              && !Taken(paper.id, BibtexKey(r.value).value)
              && Allocated(naming, WithPaper(listed, paper), paper.id, OccupiedKeys(paper.id), BibtexKey(r.value).value))
      ensures r.Err? ==> preserved.None? && r.error == NoUniqueKey
    {
      OtherSessions(paper.id, sameSource, stored);
      var catalog := ListPapers();
      OtherSessions(paper.id, sameSource, stored);
      var occupied := OccupiedKeys(paper.id);
      var key := preserved;
      if key.None? {
        key := CitationKey(naming, paper, catalog, occupied);
        if key.None? {
          return Err(NoUniqueKey);
        }
        AllocatedKeyIsUsable(naming, WithPaper(catalog, paper), paper.id, occupied, key.value);
      }
      EntryKeyReadsBack(key.value, Fields(paper));
      return Ok(Entry(key.value, Fields(paper)));
    }

    /** The DOI service's answer, and the time the lookup began. */
    method CallLookup() returns (answer: Lookup, checkedAt: int)
      modifies this`clock, this`asked
      ensures old(clock) <= checkedAt <= clock && asked == old(asked) + [Asked(checkedAt, answer)]
    {
      checkedAt := Now();
      answer := *;
      asked := asked + [Asked(checkedAt, answer)];
      var _ := Now();
    }

    function LocalRow(paper: Paper, content: string, remote: Remote): Row
      requires BibtexKey(content).Some?
    {
      Row(content, BibtexKey(content).value, if paper.arxivId.Some? then Arxiv else Local, paper.arxivId.Some?,
          SourceIdentifier(naming, paper), fingerprint(paper), GENERATOR_VERSION,
          if paper.doi.Some? then remote else NEVER)
    }

    /** Print the paper, under the given key or a newly allocated one, and store the local row. */
    method PrintAndStore(paper: Paper, preserved: Option<string>, remote: Remote, sameSource: bool, ghost stored: Option<Row>)
      returns (r: Result<Row, Failure>)
      requires Valid() && DeadlineOk(remote) && (paper.doi.Some? ==> remote.status != Success)
      requires StillStored(paper.id, stored, papers, rows) && (stored.Some? ==> RowOk(stored.value))
      requires preserved.Some? ==> stored.Some? && IsLocal(stored.value) && stored.value.key == preserved.value
      modifies this`papers, this`rows, this`listed, this`edits
      ensures old(edits) <= edits
      ensures Valid() && PaperKept(naming, sameSource, paper.id, old(papers), papers)
      ensures r.Err? ==> StillStored(paper.id, stored, papers, rows)
      ensures r == Err(NotStored(KeyConflict)) && preserved.Some? ==> paper.id !in papers
      ensures r.Ok? ==>
        && paper.id in rows
        && rows[paper.id] == r.value
        && PrintedFor(naming, fingerprint, paper, r.value)
        && r.value.remote == (if paper.doi.Some? then remote else NEVER)
        && (preserved.Some? ==> r.value.key == preserved.value)
    {
      hide Entry, Fields, BibtexKey, Sane, Sound, SourceIdentifier;
      var content := LocalBibtex(paper, preserved, sameSource, stored);
      if content.Err? {
        return Err(content.error);
      }
      OtherSessions(paper.id, sameSource, stored);
      var row := LocalRow(paper, content.value, remote);
      var written := Upsert(paper.id, row);
      if preserved.Some? && paper.id in papers && written.Err? {
        // A key kept from the stored row is taken by nobody else while the paper exists.
        OwnKeyIsFree(paper.id);
      }
      return if written.Ok? then Ok(row) else Err(NotStored(written.error));
    }

    /**
     * The last steps of `_get_bibtex`: store the paper as a local row under the key it has, and
     * after a conflict once more under a new key. `stored` is the row read before, which nobody
     * else has changed since.
     */
    method StoreLocal(paper: Paper, stored: Option<Row>, remote: Remote, sameSource: bool)
      returns (r: Result<Citation, Failure>)
      requires Valid() && DeadlineOk(remote) && (paper.doi.Some? ==> remote.status != Success)
      requires StillStored(paper.id, stored, papers, rows) && (stored.Some? ==> RowOk(stored.value))
      modifies this`papers, this`rows, this`listed, this`edits
      ensures old(edits) <= edits
      ensures Valid() && PaperKept(naming, sameSource, paper.id, old(papers), papers)
      ensures r.Err? ==> StillStored(paper.id, stored, papers, rows)
      ensures r.Ok? ==>
        && paper.id in rows
        && r.value == Citation(rows[paper.id].content, rows[paper.id].source, false)
        && PrintedFor(naming, fingerprint, paper, rows[paper.id])
        && rows[paper.id].remote == (if paper.doi.Some? then remote else NEVER)
        && (stored.Some? ==> KeyKept(stored.value, rows[paper.id]))
    {
      hide Entry, Fields, BibtexKey, Sane, Sound, SourceIdentifier;
      var preserved := if stored.Some? && IsLocal(stored.value) then Some(stored.value.key) else None;
      var written := PrintAndStore(paper, preserved, remote, sameSource, stored);
      if written == Err(NotStored(KeyConflict)) {
        written := PrintAndStore(paper, None, remote, sameSource, stored);
        SaneRow(papers, rows, paper.id);
      }
      return if written.Ok? then Ok(Citation(written.value.content, written.value.source, false)) else Err(written.error);
    }

    /** The part of `_get_bibtex` that asks the DOI service, and stores what it answers. */
    method AskDoi(paper: Paper, stored: Option<Row>, retryOnChange: bool, sameSource: bool)
      returns (outcome: Outcome)
      requires Valid()
      requires StillStored(paper.id, stored, papers, rows) && (stored.Some? ==> RowOk(stored.value))
      modifies this
      ensures Valid() && old(clock) <= clock
      ensures |asked| == |old(asked)| + 1 && old(asked) <= asked && old(clock) <= asked[|old(asked)|].time <= clock
      ensures outcome.PrintLocally? ==>
        && !Usable(asked[|old(asked)|].answer)
        && edits == old(edits)
        && outcome.remote.checkedAt == Some(asked[|old(asked)|].time)
        && (outcome.remote.status == NotFound <==> asked[|old(asked)|].answer.NoBibtex?)
      ensures old(edits) <= edits
      ensures outcome.StartOver? && edits == old(edits) ==> paper.id in old(papers) && old(papers)[paper.id] != paper
      ensures PaperKept(naming, sameSource, paper.id, old(papers), papers)
      ensures outcome.Done? && outcome.result.Ok? ==>
        && paper.id in rows
        && Matches(outcome.result.value, rows[paper.id])
        && FromSource(naming, rows[paper.id], paper)
        && (rows[paper.id].remote.status != Success ==> stored.Some? && FromSource(naming, stored.value, paper))
        && (stored.Some? ==> FetchedOrKept(stored.value, rows[paper.id]))
        && Heeded(naming, fingerprint, paper, asked[|old(asked)|], outcome.result.value, rows[paper.id])
      ensures !(outcome.Done? && outcome.result.Ok?) ==>
        StillStored(paper.id, stored, papers, rows)
      ensures outcome.StartOver? ==>
        && retryOnChange
        && paper.id in papers
        && Undisturbed(naming, sameSource, paper.id, old(papers), old(rows), papers, rows)
      ensures outcome.PrintLocally? ==>
        && papers == old(papers)
        && rows == old(rows)
        && DeadlineOk(outcome.remote)
        && outcome.remote.status != Success
        && outcome.remote.nextAttempt.Some?
        && (stored.Some? ==> !FromSource(naming, stored.value, paper))
    {
      hide Entry, Fields, BibtexKey, Sane, Sound, SourceIdentifier, PrintedFor;
      var id, identifier := paper.id, SourceIdentifier(naming, paper);
      var answer, checkedAt := CallLookup();
      if answer.Found? && BibtexKey(answer.bibtex).Some? {
        OtherSessions(id, sameSource, stored);
        if id !in papers {
          return Done(Err(PaperNotFound));
        }
        if retryOnChange && fingerprint(papers[id]) != fingerprint(paper) {
          return StartOver;
        }
        OtherSessions(id, sameSource, stored);
        var found := Row(answer.bibtex, BibtexKey(answer.bibtex).value, Doi, true, identifier, fingerprint(paper),
                         GENERATOR_VERSION, Remote(Success, Some(checkedAt), None, None));
        var written := Upsert(id, found);
        return Done(if written.Ok? then Ok(Citation(found.content, Doi, false)) else Err(NotStored(written.error)));
      }
      var remote := Remote(
        if answer.NoBibtex? then NotFound else LookupFailed,
        Some(checkedAt),
        Some(checkedAt + if answer.NoBibtex? then NOT_FOUND_RETRY_DELAY else FAILED_RETRY_DELAY),
        Some(match answer
             case NoBibtex => NotProvided
             case Found(_) => InvalidKey
             case Unavailable(reason) => ServiceError(reason)));
      if stored.Some? && FromSource(naming, stored.value, paper) {
        OtherSessions(id, sameSource, stored);
        var kept := stored.value.(authoritative := true, fingerprint := fingerprint(paper),
                                  generator := GENERATOR_VERSION, remote := remote);
        var written := Upsert(id, kept);
        return Done(if written.Ok? then Ok(Citation(kept.content, Doi, true)) else Err(NotStored(written.error)));
      }
      return PrintLocally(remote);
    }

    /** The part of `_get_bibtex` after the cache has been passed over. */
    method Fetch(paper: Paper, stored: Option<Row>, refresh: bool, retryOnChange: bool, sameSource: bool)
      returns (outcome: Outcome)
      requires Valid()
      requires StillStored(paper.id, stored, papers, rows) && (stored.Some? ==> RowOk(stored.value))
      requires stored.Some? && FromSource(naming, stored.value, paper) ==> refresh
      modifies this
      ensures Valid() && old(clock) <= clock
      ensures PaperKept(naming, sameSource, paper.id, old(papers), papers)
      ensures !outcome.PrintLocally?
      ensures outcome.Done? && outcome.result.Ok? ==>
        && paper.id in rows
        && Matches(outcome.result.value, rows[paper.id])
        && (stored.Some? ==> KeyKept(stored.value, rows[paper.id]))
        && (stored.Some? && paper.doi.Some? && FromSource(naming, stored.value, paper) ==>
              FromSource(naming, rows[paper.id], paper) && FetchedOrKept(stored.value, rows[paper.id]))
      ensures outcome.Done? && outcome.result.Err? ==> StillStored(paper.id, stored, papers, rows)
      ensures outcome.StartOver? ==>
        && retryOnChange
        && paper.id in papers
        && Undisturbed(naming, sameSource, paper.id, old(papers), old(rows), papers, rows)
      ensures LookedUp(old(asked), asked, 1)
      ensures stored.Some? ==> AllAllowed(naming, refresh, paper, stored.value, old(asked), asked)
      ensures paper.doi.None? ==> asked == old(asked)
      ensures paper.doi.Some? && (stored.Some? ==> LookupAllowed(naming, refresh, paper, stored.value, old(clock))) ==>
        |asked| == |old(asked)| + 1
      ensures |asked| == |old(asked)| + 1 && outcome.Done? && outcome.result.Ok? ==>
        Heeded(naming, fingerprint, paper, asked[|old(asked)|], outcome.result.value, rows[paper.id])
      ensures asked == old(asked) && outcome.Done? && outcome.result.Ok? ==>
        PrintedFor(naming, fingerprint, paper, rows[paper.id])
      ensures old(edits) <= edits
      ensures outcome.StartOver? && edits == old(edits) ==> paper.id in old(papers) && old(papers)[paper.id] != paper
    {
      hide Entry, Fields, BibtexKey, Sane, Sound, SourceIdentifier, PrintedFor, Heeded;
      var remote := if stored.Some? then stored.value.remote else NEVER;
      var now := Now();
      if paper.doi.Some?
         && (|| refresh
             || stored.None?
             || stored.value.identifier != SourceIdentifier(naming, paper)
             || RetryDue(stored.value.remote.nextAttempt, now))
      {
        outcome := AskDoi(paper, stored, retryOnChange, sameSource);
        if !outcome.PrintLocally? {
          return;
        }
        remote := outcome.remote;
      }
      OtherSessions(paper.id, sameSource, stored);
      if paper.id !in papers {
        return Done(Err(PaperNotFound));
      }
      if retryOnChange && fingerprint(papers[paper.id]) != fingerprint(paper) {
        return StartOver;
      }
      ghost var noted := asked;
      var r := StoreLocal(paper, stored, remote, sameSource);
      if r.Ok? && |noted| == |old(asked)| + 1 {
        PrintedIsHeeded(naming, fingerprint, paper, noted[|old(asked)|], r.value, rows[paper.id]);
      }
      return Done(r);
    }

    /**
     * `_get_bibtex`. With `retryOnChange`, an edit of the paper seen before storing starts the
     * call over once.
     */
    method Attempt(id: string, refresh: bool, retryOnChange: bool, sameSource: bool)
      returns (r: Result<Citation, Failure>)
      requires Valid()
      modifies this
      ensures Valid() && old(clock) <= clock
      ensures r.Ok? ==> id in rows && Matches(r.value, rows[id])
      ensures PaperKept(naming, sameSource, id, old(papers), papers)
      ensures id !in old(papers) ==> r == Err(PaperNotFound)
      ensures id in old(rows) && id in papers ==> id in rows
      ensures id in old(rows) && id in rows ==>
        Settled(naming, refresh, sameSource, old(papers)[id], old(rows)[id], rows[id], r)
      ensures LookedUp(old(asked), asked, if retryOnChange then 2 else 1)
      ensures id in old(rows) && id in papers && sameSource ==>
        AllAllowed(naming, refresh, old(papers)[id], old(rows)[id], old(asked), asked)
      ensures id in old(papers)
              && MustAsk(naming, fingerprint, old(papers)[id], RowOf(old(rows), id), refresh, old(clock)) ==>
        |asked| > |old(asked)|
      ensures old(edits) <= edits
      ensures edits == old(edits) ==> LookedUp(old(asked), asked, 1)
      ensures edits == old(edits) && r.Ok? && |asked| > |old(asked)| && id in old(papers) ==>
        Heeded(naming, fingerprint, old(papers)[id], asked[|old(asked)|], r.value, rows[id])
      decreases retryOnChange
    {
      hide Entry, Fields, BibtexKey, Sane, Sound, SourceIdentifier, Heeded, PrintedFor, MustAsk, RetryDue;
      SaneRow(papers, rows, id);
      if id !in papers {
        return Err(PaperNotFound);
      }
      var paper := papers[id];
      MustAskStays(naming, fingerprint, paper, RowOf(rows, id), refresh, clock);
      OtherSessions(id, sameSource, RowOf(rows, id));
      SaneRow(papers, rows, id);
      var stored := RowOf(rows, id);
      if !refresh && stored.Some? {
        var cached := Cached(paper, stored.value);
        if cached {
          return Ok(Citation(stored.value.content, stored.value.source, true));
        }
      }
      var outcome := Fetch(paper, stored, refresh, retryOnChange, sameSource);
      SaneRow(papers, rows, id);
      if outcome.Done? {
        return outcome.result;
      }
      r := Attempt(id, refresh, false, sameSource);
    }

    /** Whether the stored row may be returned as it is, without a refresh. */
    method Cached(paper: Paper, row: Row) returns (cached: bool)
      modifies this`clock
      ensures old(clock) <= clock
      ensures cached <==>
        || FromSource(naming, row, paper)
        || (&& IsLocal(row)
            && row.fingerprint == fingerprint(paper)
            && row.generator == GENERATOR_VERSION
            && (paper.doi.None? || !RetryDue(row.remote.nextAttempt, clock)))
    {
      if FromSource(naming, row, paper) {
        return true;
      }
      if IsLocal(row) && row.fingerprint == fingerprint(paper) && row.generator == GENERATOR_VERSION {
        var now := Now();
        return paper.doi.None? || !RetryDue(row.remote.nextAttempt, now);
      }
      return false;
    }

    /**
     * Any number of calls for one paper, each with or without refresh, while other sessions go on.
     * `history` lists the paper's rows, from the one it starts with or the first one stored.
     */
    method Session(id: string, refreshes: seq<bool>, sameSource: bool) returns (ghost history: seq<Row>)
      requires Valid()
      modifies this
      ensures Valid() && PaperKept(naming, sameSource, id, old(papers), papers)
      ensures KeysKept(history)
      ensures id in old(rows) ==> history != [] && history[0] == old(rows)[id]
      ensures id in rows ==> history != [] && history[|history| - 1] == rows[id]
      ensures sameSource && id in old(rows) && id in rows && Truthy(old(papers)[id].doi)
              && FromSource(naming, old(rows)[id], old(papers)[id]) ==>
        FromSource(naming, rows[id], papers[id])
    {
      hide Entry, Fields, BibtexKey, Sane, Sound, SourceIdentifier, Heeded, PrintedFor, MustAsk, AllAllowed, LookedUp;
      SaneRow(papers, rows, id);
      history := if id in rows then [rows[id]] else [];
      for i := 0 to |refreshes|
        invariant Valid() && PaperKept(naming, sameSource, id, old(papers), papers)
        invariant KeysKept(history)
        invariant id in old(rows) ==> history != [] && history[0] == old(rows)[id]
        invariant id in rows ==> history != [] && history[|history| - 1] == rows[id]
        invariant id in papers && history != [] ==> id in rows
        invariant sameSource && id in old(rows) && id in rows && id in papers && Truthy(old(papers)[id].doi)
                  && FromSource(naming, old(rows)[id], old(papers)[id]) ==>
          FromSource(naming, rows[id], papers[id])
      {
        OtherSessions(id, sameSource, RowOf(rows, id));
        SaneRow(papers, rows, id);
        var _ := Attempt(id, refreshes[i], true, sameSource);
        SaneRow(papers, rows, id);
        if id in rows {
          history := history + [rows[id]];
        }
      }
      SaneRow(papers, rows, id);
    }
  }
}
