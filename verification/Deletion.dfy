/** Deleting a paper with its files: all or nothing, as long as staged files can be put back. */
module Deletion {
  import opened Seqs
  import opened Collections

  /** A path below the data directory, part by part. */
  type Path = seq<string>

  type Content = seq<int>

  /** The files below the data directory. */
  type Files = map<Path, Content>

  /* ----- what is to be removed ----- */

  /** The path lies under one of the given ones, or is one of them. */
  predicate Under(targets: set<Path>, path: Path)
  {
    exists target <- targets :: target <= path
  }

  function AsSet(paths: seq<Path>): set<Path>
  {
    set path <- paths
  }

  lemma PrefixesNest(a: Path, b: Path, path: Path)
    requires a <= path && b <= path
    ensures a <= b || b <= a
  {
    if |a| <= |b| {
      assert a == path[..|a|] && b == path[..|b|];
      assert a == b[..|a|];
    } else {
      assert a == path[..|a|] && b == path[..|b|];
      assert b == a[..|b|];
    }
  }

  ghost predicate NonNested(targets: set<Path>)
  {
    forall a <- targets :: forall b <- targets :: a <= b ==> a == b
  }

  /** No two of the paths are nested. */
  ghost predicate AllApart(paths: seq<Path>)
  {
    forall a <- paths :: forall b <- paths :: a == b || Apart(a, b)
  }

  /** `sorted(..., key=...)`: the paths by their number of parts. */
  method SortByLength(paths: set<Path>) returns (sorted: seq<Path>)
    ensures Distinct(sorted) && (forall path :: path in sorted <==> path in paths)
    ensures forall i, j :: 0 <= i < j < |sorted| ==> |sorted[i]| <= |sorted[j]|
  {
    sorted := [];
    var rest := paths;
    while rest != {}
      invariant rest <= paths && Distinct(sorted)
      invariant forall path :: path in sorted <==> path in paths && path !in rest
      invariant forall i, j :: 0 <= i < j < |sorted| ==> |sorted[i]| <= |sorted[j]|
      invariant forall i :: 0 <= i < |sorted| ==> forall path <- rest :: |sorted[i]| <= |path|
      decreases |rest|
    {
      var least := Shortest(rest);
      sorted := sorted + [least];
      rest := rest - {least};
    }
  }

  method Shortest(paths: set<Path>) returns (least: Path)
    requires paths != {}
    ensures least in paths && forall path <- paths :: |least| <= |path|
  {
    least :| least in paths;
    var others := paths - {least};
    while others != {}
      invariant others <= paths && least in paths
      invariant forall path <- paths - others :: |least| <= |path|
      decreases |others|
    {
      var path :| path in others;
      if |path| < |least| {
        least := path;
      }
      others := others - {path};
    }
  }

  /** The paths that have no other path above them. */
  function Outermost(paths: set<Path>): set<Path>
  {
    set path <- paths | forall other <- paths :: other <= path ==> other == path
  }

  /** `_paper_delete_targets` without the check: a path is dropped when an earlier, shorter one covers it. */
  method DeleteTargets(paths: set<Path>) returns (targets: seq<Path>)
    ensures Distinct(targets) && (forall path :: path in targets <==> path in Outermost(paths))
  {
    var unique := SortByLength(paths);
    targets := [];
    for i := 0 to |unique|
      invariant Distinct(targets)
      invariant forall path :: path in targets <==> path in unique[..i] && path in Outermost(paths)
    {
      assert unique[..i + 1] == unique[..i] + [unique[i]];
      if forall j :: 0 <= j < i ==> !(unique[j] <= unique[i]) {
        assert unique[i] in Outermost(paths) by {
          ShorterCover(unique, i, paths);
        }
        targets := targets + [unique[i]];
      } else {
        var j :| 0 <= j < i && unique[j] <= unique[i];
        assert unique[j] in paths && unique[j] != unique[i];
      }
    }
    assert unique[..|unique|] == unique;
  }

  lemma ShorterCover(unique: seq<Path>, i: nat, paths: set<Path>)
    requires i < |unique| && forall path :: path in unique <==> path in paths
    requires forall j, k :: 0 <= j < k < |unique| ==> |unique[j]| <= |unique[k]|
    requires forall j :: 0 <= j < i ==> !(unique[j] <= unique[i])
    ensures unique[i] in Outermost(paths)
  {
    forall other <- paths | other <= unique[i] ensures other == unique[i] {
      var j :| 0 <= j < |unique| && unique[j] == other;
      if j > i {
        assert |other| == |unique[i]|;
      }
    }
  }

  /** The targets are pairwise not nested and cover exactly what the paths cover. */
  lemma OutermostCovers(paths: set<Path>, path: Path)
    ensures NonNested(Outermost(paths))
    ensures Under(Outermost(paths), path) <==> Under(paths, path)
  {
    if Under(paths, path) {
      var start :| start in paths && start <= path;
      Climb(paths, path, start);
    }
  }

  lemma {:induction false} Climb(paths: set<Path>, path: Path, start: Path)
    requires start in paths && start <= path
    ensures Under(Outermost(paths), path)
    decreases |start|
  {
    if start !in Outermost(paths) {
      var above :| above in paths && above <= start && above != start;
      assert above <= path;
      Climb(paths, path, above);
    }
  }

  /* ----- moving files ----- */

  /** `os.replace` of a file or a directory: everything under `source` is found under `destination`. */
  function Moved(files: Files, source: Path, destination: Path): Files
  {
    (map path <- files | !(source <= path) :: files[path])
    + (map path <- Arrivals(files, source, destination) :: files[source + path[|destination|..]])
  }

  function Arrivals(files: Files, source: Path, destination: Path): (r: set<Path>)
    ensures forall path <- r :: destination <= path && source + path[|destination|..] in files
  {
    set path <- files | source <= path :: Relocated(path, source, destination)
  }

  function Relocated(path: Path, source: Path, destination: Path): (r: Path)
    requires source <= path
    ensures destination <= r && source + r[|destination|..] == path
  {
    destination + path[|source|..]
  }

  lemma MovedAt(files: Files, source: Path, destination: Path, path: Path)
    ensures
      var moved := Moved(files, source, destination);
      if destination <= path && source + path[|destination|..] in files then
        path in moved && moved[path] == files[source + path[|destination|..]]
      else if path in files && !(source <= path) then path in moved && moved[path] == files[path]
      else path !in moved
  {
    if destination <= path && source + path[|destination|..] in files {
      var origin := source + path[|destination|..];
      assert origin[|source|..] == path[|destination|..];
      assert path == destination + origin[|source|..];
      assert path == Relocated(origin, source, destination);
      assert path in Arrivals(files, source, destination);
    }
  }

  /** The files when those under the staged paths are in the trash, each at its own path there. */
  ghost predicate Staged(before: Files, staged: set<Path>, trash: Path, files: Files)
  {
    && (forall path <- before :: if Under(staged, path) then InTrash(before, trash, files, path) else InPlace(before, files, path))
    && (forall path <- files :: Origin(before, staged, trash, path))
  }

  predicate InPlace(before: Files, files: Files, path: Path)
    requires path in before
  {
    path in files && files[path] == before[path]
  }

  predicate InTrash(before: Files, trash: Path, files: Files, path: Path)
    requires path in before
  {
    trash + path in files && files[trash + path] == before[path]
  }

  /** Where a file that is there now has come from. */
  predicate Origin(before: Files, staged: set<Path>, trash: Path, path: Path)
  {
    || (path in before && !Under(staged, path))
    || (trash <= path && path[|trash|..] in before && Under(staged, path[|trash|..]))
  }

  /** The trash directory is new: nothing is under it, and it is not among the paths. */
  ghost predicate NewTrash(files: Files, trash: Path)
  {
    forall path <- files :: !(trash <= path)
  }

  lemma NothingStaged(before: Files, trash: Path, files: Files)
    ensures Staged(before, {}, trash, files) <==> files == before
  {
    if Staged(before, {}, trash, files) {
      forall path <- files ensures path in before {
        assert Origin(before, {}, trash, path);
      }
      forall path <- before ensures path in files && files[path] == before[path] {
        assert !Under({}, path);
      }
      assert files == before;
    }
  }

  lemma UnderMore(staged: set<Path>, target: Path, path: Path)
    ensures Under(staged + {target}, path) <==> Under(staged, path) || target <= path
  {
  }

  predicate Apart(a: Path, b: Path)
  {
    !(a <= b) && !(b <= a)
  }

  lemma ApartFiles(a: Path, b: Path, path: Path)
    requires Apart(a, b)
    ensures !(a <= path && b <= path)
  {
    if a <= path && b <= path {
      PrefixesNest(a, b, path);
    }
  }

  lemma SplitAt(a: Path, b: Path, path: Path)
    ensures a + b <= path <==> a <= path && b <= path[|a|..]
    ensures a + b <= path ==> path[|a + b|..] == path[|a|..][|b|..]
    ensures (a + path)[|a|..] == path
  {
    if a <= path {
      assert path == a + path[|a|..];
    }
    if a <= path && b <= path[|a|..] {
      assert path[..|a + b|] == a + path[|a|..][..|b|];
    }
    if a + b <= path {
      assert path[..|a|] == (a + b)[..|a|] == a;
      assert path[|a|..][..|b|] == (a + b)[|a|..] == b;
    }
  }

  lemma Rejoined(target: Path, path: Path)
    requires target <= path
    ensures target + path[|target|..] == path
  {
  }

  /** Staging one target more. */
  lemma StageOne(before: Files, staged: set<Path>, trash: Path, files: Files, target: Path)
    requires Staged(before, staged, trash, files) && NewTrash(before, trash) && Apart(target, trash)
    requires forall other <- staged :: Apart(other, target)
    ensures Staged(before, staged + {target}, trash, Moved(files, target, trash + target))
  {
    var moved := Moved(files, target, trash + target);
    forall path <- before
      ensures if Under(staged + {target}, path) then InTrash(before, trash, moved, path) else InPlace(before, moved, path)
    {
      StagedFile(before, staged, trash, files, target, path);
    }
    forall path <- moved ensures Origin(before, staged + {target}, trash, path) {
      StagedOrigin(before, staged, trash, files, target, path);
    }
  }

  lemma StagedFile(before: Files, staged: set<Path>, trash: Path, files: Files, target: Path, path: Path)
    requires Staged(before, staged, trash, files) && NewTrash(before, trash) && Apart(target, trash) && path in before
    requires forall other <- staged :: Apart(other, target)
    ensures
      var moved := Moved(files, target, trash + target);
      if Under(staged + {target}, path) then InTrash(before, trash, moved, path) else InPlace(before, moved, path)
  {
    hide Moved, Apart;
    UnderMore(staged, target, path);
    MovedAt(files, target, trash + target, path);
    MovedAt(files, target, trash + target, trash + path);
    SplitAt(trash, target, trash + path);
    SplitAt(trash, target, path);
    SplitAt(trash, [], path);
    ApartFiles(target, trash, trash + path);
    if target <= path {
      Rejoined(target, path);
      ApartFromAll(staged, target, path);
    }
  }

  lemma ApartFromAll(staged: set<Path>, target: Path, path: Path)
    requires target <= path && forall other <- staged :: Apart(other, target)
    ensures !Under(staged, path)
  {
    if other :| other in staged && other <= path {
      ApartFiles(other, target, path);
    }
  }

  lemma StagedOrigin(before: Files, staged: set<Path>, trash: Path, files: Files, target: Path, path: Path)
    requires Staged(before, staged, trash, files) && Apart(target, trash)
    requires path in Moved(files, target, trash + target)
    ensures Origin(before, staged + {target}, trash, path)
  {
    hide Moved, Apart;
    MovedAt(files, target, trash + target, path);
    UnderMore(staged, target, path);
    if trash <= path {
      UnderMore(staged, target, path[|trash|..]);
    }
    SplitAt(trash, target, path);
    if trash + target <= path && target + path[|trash + target|..] in files {
      var origin := path[|trash|..];
      Rejoined(target, origin);
      ApartFiles(target, trash, origin);
      assert Origin(before, staged, trash, origin);
    } else {
      assert Origin(before, staged, trash, path);
    }
  }

  /** Putting one staged target back. */
  lemma RestoreOne(before: Files, staged: set<Path>, trash: Path, files: Files, target: Path)
    requires Staged(before, staged, trash, files) && NewTrash(before, trash) && Apart(target, trash)
    requires target in staged && forall other <- staged :: other == target || Apart(other, target)
    ensures Staged(before, staged - {target}, trash, Moved(files, trash + target, target))
  {
    var moved := Moved(files, trash + target, target);
    forall path <- before
      ensures if Under(staged - {target}, path) then InTrash(before, trash, moved, path) else InPlace(before, moved, path)
    {
      RestoredFile(before, staged, trash, files, target, path);
    }
    forall path <- moved ensures Origin(before, staged - {target}, trash, path) {
      RestoredOrigin(before, staged, trash, files, target, path);
    }
  }

  lemma UnderLess(staged: set<Path>, target: Path, path: Path)
    requires target in staged && forall other <- staged :: other == target || Apart(other, target)
    ensures Under(staged - {target}, path) <==> Under(staged, path) && !(target <= path)
  {
    if target <= path {
      ApartFromAll(staged - {target}, target, path);
    } else if other :| other in staged && other <= path {
      assert other in staged - {target};
    }
  }

  lemma RestoredFile(before: Files, staged: set<Path>, trash: Path, files: Files, target: Path, path: Path)
    requires Staged(before, staged, trash, files) && NewTrash(before, trash) && Apart(target, trash) && path in before
    requires target in staged && forall other <- staged :: other == target || Apart(other, target)
    ensures
      var moved := Moved(files, trash + target, target);
      if Under(staged - {target}, path) then InTrash(before, trash, moved, path) else InPlace(before, moved, path)
  {
    hide Moved, Apart;
    UnderLess(staged, target, path);
    MovedAt(files, trash + target, target, path);
    MovedAt(files, trash + target, target, trash + path);
    SplitAt(trash, target, trash + path);
    SplitAt(trash, target, path);
    ApartFiles(target, trash, trash + path);
    if target <= path {
      Rejoined(target, path);
      ConcatAssoc(trash, target, path[|target|..]);
    }
  }

  lemma RestoredOrigin(before: Files, staged: set<Path>, trash: Path, files: Files, target: Path, path: Path)
    requires Staged(before, staged, trash, files) && NewTrash(before, trash) && Apart(target, trash)
    requires target in staged && forall other <- staged :: other == target || Apart(other, target)
    requires path in Moved(files, trash + target, target)
    ensures Origin(before, staged - {target}, trash, path)
  {
    hide Moved, Apart;
    MovedAt(files, trash + target, target, path);
    UnderLess(staged, target, path);
    if target <= path && trash + target + path[|target|..] in files {
      Rejoined(target, path);
      ConcatAssoc(trash, target, path[|target|..]);
      SplitAt(trash, [], path);
      assert Origin(before, staged, trash, trash + path);
    } else {
      assert Origin(before, staged, trash, path);
      SplitAt(trash, target, path);
      if trash <= path {
        UnderLess(staged, target, path[|trash|..]);
      }
    }
  }

  /** Wherever it is now, no file has been lost. */
  predicate NothingLost(before: Files, trash: Path, files: Files)
  {
    forall path <- before :: InPlace(before, files, path) || InTrash(before, trash, files, path)
  }

  lemma StagedLosesNothing(before: Files, staged: set<Path>, trash: Path, files: Files)
    requires Staged(before, staged, trash, files)
    ensures NothingLost(before, trash, files)
  {
  }

  /* ----- the catalogue ----- */

  type CollectionId = string

  datatype Artifact = Artifact(owner: PaperId, path: Path)

  /** The tables a deletion touches or looks at; `busy` papers and collections have active runs. */
  datatype Database = Database(
    papers: set<PaperId>,
    artifacts: map<nat, Artifact>,
    collections: map<CollectionId, Rows>,
    busyPapers: set<PaperId>,
    busyCollections: set<CollectionId>)

  type Orders = map<CollectionId, seq<PaperId>>

  ghost predicate AllShow(collections: map<CollectionId, Rows>, orders: Orders)
  {
    orders.Keys == collections.Keys && forall c <- collections.Keys :: Shows(collections[c], orders[c])
  }

  function PaperDirectory(id: PaperId): Path
  {
    ["papers", id]
  }

  /** The paths a paper owns: those of its artifacts, and its directory. */
  function OwnPaths(db: Database, id: PaperId): set<Path>
  {
    (set a <- db.artifacts | db.artifacts[a].owner == id :: db.artifacts[a].path) + {PaperDirectory(id)}
  }

  /** The file is in the paper's directory, or at or below the path of one of its artifacts. */
  predicate OwnFile(db: Database, id: PaperId, path: Path)
  {
    || ["papers", id] <= path
    || exists a <- db.artifacts :: db.artifacts[a].owner == id && db.artifacts[a].path <= path
  }

  lemma OwnFileIff(db: Database, id: PaperId, path: Path)
    ensures Under(OwnPaths(db, id), path) <==> OwnFile(db, id, path)
  {
    if Under(OwnPaths(db, id), path) {
      var target :| target in OwnPaths(db, id) && target <= path;
    }
    if ["papers", id] <= path {
      assert ["papers", id] in OwnPaths(db, id);
    }
    if a :| a in db.artifacts && db.artifacts[a].owner == id && db.artifacts[a].path <= path {
      assert db.artifacts[a].path in OwnPaths(db, id);
    }
  }

  /** A successful deletion takes exactly the paper's own files away. */
  lemma OwnFilesGo(db: Database, id: PaperId, files: Files, trash: Path, files': Files)
    requires FilesRemoved(files, OwnPaths(db, id), trash, files')
    ensures forall path <- files :: path in files' <==> !OwnFile(db, id, path)
  {
    hide OwnPaths, Under, OwnFile;
    forall path <- files ensures path in files' <==> !OwnFile(db, id, path) {
      OwnFileIff(db, id, path);
    }
  }

  /** An artifact of another paper lies under one of the paper's paths. */
  predicate Overlapping(db: Database, id: PaperId)
  {
    exists a <- db.artifacts :: db.artifacts[a].owner != id && Under(OwnPaths(db, id), db.artifacts[a].path)
  }

  lemma OverlappingIff(db: Database, id: PaperId)
    ensures Overlapping(db, id) <==>
      exists a <- db.artifacts :: db.artifacts[a].owner != id && OwnFile(db, id, db.artifacts[a].path)
  {
    hide OwnPaths, Under, OwnFile;
    forall a <- db.artifacts
      ensures Under(OwnPaths(db, id), db.artifacts[a].path) <==> OwnFile(db, id, db.artifacts[a].path)
    {
      OwnFileIff(db, id, db.artifacts[a].path);
    }
  }

  lemma BusyIff(db: Database, id: PaperId)
    ensures Busy(db, id) <==>
      id in db.busyPapers || exists c <- db.collections :: id in db.collections[c] && c in db.busyCollections
  {
  }

  predicate Busy(db: Database, id: PaperId)
  {
    id in db.busyPapers || exists c <- db.collections :: id in db.collections[c] && c in db.busyCollections
  }

  datatype DeleteError = PaperNotFound | PaperBusy | FilesOverlap | FilesStay | DatabaseFailed | RestoreFailed

  /** The paper is gone from every table, and the collections that had it have closed the gap. */
  ghost predicate PaperRemoved(db: Database, orders: Orders, id: PaperId, db': Database)
  {
    && db'.papers == db.papers - {id}
    && db'.artifacts == (map a <- db.artifacts | db.artifacts[a].owner != id :: db.artifacts[a])
    && GapsClosed(db.collections, orders, id, db'.collections)
  }

  /** Every collection shows what it showed, in that order, without the paper. */
  ghost predicate GapsClosed(
    collections: map<CollectionId, Rows>, orders: Orders, id: PaperId, collections': map<CollectionId, Rows>)
  {
    && collections'.Keys == collections.Keys && orders.Keys == collections.Keys
    && forall c <- collections.Keys :: GapClosed(collections[c], orders[c], id, collections'[c])
  }

  ghost predicate GapClosed(rows: Rows, order: seq<PaperId>, id: PaperId, rows': Rows)
  {
    if id in rows then Shows(rows', Without(order, id)) && DetailsKept(rows, rows') else rows' == rows
  }

  /** The orders that are left: those of the collections without the paper. */
  ghost function OrdersWithout(collections: map<CollectionId, Rows>, orders: Orders, id: PaperId): Orders
    requires orders.Keys == collections.Keys
  {
    map c <- orders :: if id in collections[c] then Without(orders[c], id) else orders[c]
  }

  /** Outside the trash, exactly the files under the paper's paths are gone. */
  ghost predicate FilesRemoved(files: Files, paths: set<Path>, trash: Path, files': Files)
  {
    && (forall path <- files :: if Under(paths, path) then path !in files' else InPlace(files, files', path))
    && (forall path <- files' :: trash <= path || path in files)
  }

  /** The first `n` targets are in the trash, as far as there is anything under them. */
  ghost predicate StagingHolds(before: Files, targets: seq<Path>, n: nat, staged: seq<Path>, trash: Path, files: Files)
    requires n <= |targets|
  {
    && Distinct(staged)
    && (forall target <- staged :: target in targets[..n] && Apart(target, trash))
    && Staged(before, AsSet(staged), trash, files)
    && (forall target <- targets[..n] :: target in staged || NoneUnder(before, target))
  }

  predicate NoneUnder(files: Files, target: Path)
  {
    forall path <- files :: !(target <= path)
  }

  lemma NoFilesThere(before: Files, staged: set<Path>, trash: Path, files: Files, target: Path)
    requires Staged(before, staged, trash, files) && (forall path <- files :: !(target <= path))
    requires forall other <- staged :: Apart(other, target)
    ensures forall path <- before :: !(target <= path)
  {
    forall path <- before ensures !(target <= path) {
      if target <= path {
        ApartFromAll(staged, target, path);
      }
    }
  }

  lemma StagingStarts(files: Files, targets: seq<Path>, trash: Path)
    ensures StagingHolds(files, targets, 0, [], trash, files)
  {
    NothingStaged(files, trash, files);
    assert AsSet([]) == {};
  }

  lemma StagingSoFar(before: Files, targets: seq<Path>, n: nat, staged: seq<Path>, trash: Path, files: Files)
    requires n <= |targets| && StagingHolds(before, targets, n, staged, trash, files) && AllApart(targets)
    ensures Distinct(staged) && AllApart(staged) && (forall target <- staged :: target in targets && Apart(target, trash))
    ensures Staged(before, AsSet(staged), trash, files)
  {
    hide Staged, Apart;
    assert forall target <- staged :: target in targets;
  }

  lemma StagedApart(before: Files, targets: seq<Path>, n: nat, staged: seq<Path>, trash: Path, files: Files)
    requires n < |targets| && Distinct(targets) && AllApart(targets) && StagingHolds(before, targets, n, staged, trash, files)
    ensures forall other <- staged :: Apart(other, targets[n])
    ensures targets[n] !in staged
  {
    hide Staged, Apart;
    assert targets[n] !in targets[..n] && targets[n] in targets;
    assert forall other <- staged :: other in targets && other != targets[n];
  }

  lemma StagingSkips(before: Files, targets: seq<Path>, n: nat, staged: seq<Path>, trash: Path, files: Files)
    requires n < |targets| && Distinct(targets) && AllApart(targets) && StagingHolds(before, targets, n, staged, trash, files)
    requires NoneUnder(files, targets[n])
    ensures StagingHolds(before, targets, n + 1, staged, trash, files)
  {
    StagedApart(before, targets, n, staged, trash, files);
    NoFilesThere(before, AsSet(staged), trash, files, targets[n]);
    hide Staged, Apart;
    assert targets[..n + 1] == targets[..n] + [targets[n]];
  }

  lemma StagingMoves(before: Files, targets: seq<Path>, n: nat, staged: seq<Path>, trash: Path, files: Files)
    requires n < |targets| && Distinct(targets) && AllApart(targets) && StagingHolds(before, targets, n, staged, trash, files)
    requires NewTrash(before, trash) && Apart(targets[n], trash)
    ensures
      StagingHolds(before, targets, n + 1, staged + [targets[n]], trash, Moved(files, targets[n], trash + targets[n]))
  {
    StagedApart(before, targets, n, staged, trash, files);
    StageOne(before, AsSet(staged), trash, files, targets[n]);
    hide Staged, Apart, Moved;
    assert AsSet(staged + [targets[n]]) == AsSet(staged) + {targets[n]};
    assert targets[..n + 1] == targets[..n] + [targets[n]];
  }

  /** Once all targets are staged, the staged ones cover every file that the targets cover. */
  lemma StagingCovers(before: Files, targets: seq<Path>, staged: seq<Path>, trash: Path, files: Files, path: Path)
    requires StagingHolds(before, targets, |targets|, staged, trash, files) && path in before
    ensures Under(AsSet(staged), path) <==> Under(AsSet(targets), path)
  {
    hide Staged;
    assert targets[..|targets|] == targets;
    if Under(AsSet(targets), path) {
      var target :| target in AsSet(targets) && target <= path;
      assert !NoneUnder(before, target) && target in targets[..|targets|];
      assert target in AsSet(staged);
    }
    if Under(AsSet(staged), path) {
      var target :| target in AsSet(staged) && target <= path;
      assert target in targets[..|targets|] && target in AsSet(targets);
    }
  }

  lemma GapsClosedShow(
    collections: map<CollectionId, Rows>, orders: Orders, id: PaperId, collections': map<CollectionId, Rows>)
    requires AllShow(collections, orders) && GapsClosed(collections, orders, id, collections')
    ensures orders.Keys == collections.Keys && AllShow(collections', OrdersWithout(collections, orders, id))
  {
    hide Shows, DetailsKept;
  }

  class Catalog {
    var db: Database
    var files: Files
    ghost var orders: Orders

    ghost predicate Valid()
      reads this
    {
      AllShow(db.collections, orders)
    }

    constructor (db: Database, files: Files, ghost orders: Orders)
      requires AllShow(db.collections, orders)
      ensures Valid() && this.db == db && this.files == files
    {
      this.db, this.files, this.orders := db, files, orders;
    }

    /** The memberships of the paper are deleted and each collection numbered again. */
    method RemoveFromCollections(id: PaperId) returns (collections: map<CollectionId, Rows>)
      requires Valid()
      ensures GapsClosed(db.collections, orders, id, collections)
    {
      hide Shows, DetailsKept;
      collections := db.collections;
      var rest := set c <- db.collections | id in db.collections[c];
      while rest != {}
        invariant rest <= db.collections.Keys && collections.Keys == db.collections.Keys
        invariant forall c <- db.collections.Keys ::
          if c in rest then id in db.collections[c] && collections[c] == db.collections[c]
          else GapClosed(db.collections[c], orders[c], id, collections[c])
        decreases |rest|
      {
        var c :| c in rest;
        var compacted := Compact(collections[c], id, orders[c]);
        collections := collections[c := compacted];
        rest := rest - {c};
      }
    }

    /** `_paper_delete_targets`; None when the paths overlap those of another paper. */
    method PaperDeleteTargets(id: PaperId) returns (r: Option<seq<Path>>)
      ensures r.None? <==> Overlapping(db, id)
      ensures r.Some? ==>
        && Distinct(r.value) && AllApart(r.value) && (forall target <- r.value :: target in OwnPaths(db, id))
        && forall path :: Under(AsSet(r.value), path) <==> Under(OwnPaths(db, id), path)
    {
      hide OwnPaths;
      var paths := OwnPaths(db, id);
      var targets := DeleteTargets(paths);
      assert AsSet(targets) == Outermost(paths);
      forall path ensures NonNested(Outermost(paths)) && (Under(Outermost(paths), path) <==> Under(paths, path)) {
        OutermostCovers(paths, path);
      }
      if exists a <- db.artifacts :: db.artifacts[a].owner != id && Under(AsSet(targets), db.artifacts[a].path) {
        return None;
      }
      return Some(targets);
    }

    /** The moving of the targets into the trash; stops at the first that cannot be moved. */
    method StageFiles(targets: seq<Path>, trash: Path) returns (staged: seq<Path>, ok: bool)
      requires Distinct(targets) && AllApart(targets) && NewTrash(files, trash)
      requires forall target <- targets :: !(trash <= target)
      modifies this`files
      ensures ok ==> StagingHolds(old(files), targets, |targets|, staged, trash, files)
      ensures Distinct(staged) && AllApart(staged) && (forall target <- staged :: target in targets && Apart(target, trash))
      ensures Staged(old(files), AsSet(staged), trash, files)
    {
      hide Staged, Moved, StagingHolds;
      ghost var before := files;
      staged := [];
      StagingStarts(files, targets, trash);
      for i := 0 to |targets|
        invariant StagingHolds(before, targets, i, staged, trash, files)
      {
        var target := targets[i];
        // A directory without files may or may not be there.
        var present: bool := *;
        if !present && forall path <- files :: !(target <= path) {
          StagingSkips(before, targets, i, staged, trash, files);
          continue;
        }
        var fails: bool := *;
        if fails || target <= trash {
          StagingSoFar(before, targets, i, staged, trash, files);
          return staged, false;
        }
        assert target in targets;
        StagingMoves(before, targets, i, staged, trash, files);
        files := Moved(files, target, trash + target);
        staged := staged + [target];
      }
      StagingSoFar(before, targets, |targets|, staged, trash, files);
      return staged, true;
    }

    /** `_restore_staged_files`, last staged first; what cannot be moved back stays in the trash. */
    method RestoreStagedFiles(staged: seq<Path>, ghost before: Files, trash: Path) returns (ok: bool)
      requires Distinct(staged) && AllApart(staged) && NewTrash(before, trash)
      requires forall target <- staged :: Apart(target, trash)
      requires Staged(before, AsSet(staged), trash, files)
      modifies this`files
      ensures ok ==> files == before
      ensures NothingLost(before, trash, files)
    {
      hide Staged, Moved;
      ok := true;
      ghost var left := AsSet(staged);
      for i := |staged| downto 0
        invariant left <= AsSet(staged)
        invariant forall target <- staged[..i] :: target in left
        invariant Staged(before, left, trash, files)
        invariant ok ==> left == AsSet(staged[..i])
      {
        var target := staged[i];
        assert staged[..i + 1] == staged[..i] + [target];
        assert target !in staged[..i];
        var fails: bool := *;
        if fails {
          ok := false;
        } else {
          assert target in staged && forall other <- left :: other in staged;
          RestoreOne(before, left, trash, files, target);
          files := Moved(files, trash + target, target);
          left := left - {target};
        }
      }
      StagedLosesNothing(before, left, trash, files);
      assert staged[..0] == [] && AsSet([]) == {};
      if ok {
        NothingStaged(before, trash, files);
      }
    }

    /** `shutil.rmtree(..., ignore_errors=True)`: any of the files in the trash go. */
    method RemoveTrash(trash: Path)
      modifies this`files
      ensures forall path <- old(files) :: !(trash <= path) ==> InPlace(old(files), files, path)
      ensures forall path <- files :: path in old(files) && files[path] == old(files)[path]
    {
      var rest: Files := *;
      if (forall path <- rest :: path in files && files[path] == rest[path])
         && (forall path <- files :: !(trash <= path) ==> path in rest)
      {
        files := rest;
      }
    }

    /** `delete_paper`; `trash` is the new directory the files are staged in. */
    method DeletePaper(id: PaperId, trash: Path) returns (error: Option<DeleteError>)
      requires Valid() && NewTrash(files, trash)
      requires forall path <- OwnPaths(db, id) :: !(trash <= path)
      modifies this
      ensures Valid()
      ensures error == Some(PaperNotFound) <==> id !in old(db).papers
      ensures error == Some(PaperBusy) <==>
        && id in old(db).papers
        && (id in old(db).busyPapers
            || exists c <- old(db).collections :: id in old(db).collections[c] && c in old(db).busyCollections)
      ensures error == Some(FilesOverlap) <==>
        && id in old(db).papers && !Busy(old(db), id)
        && exists a <- old(db).artifacts ::
             old(db).artifacts[a].owner != id && OwnFile(old(db), id, old(db).artifacts[a].path)
      ensures error.None? ==>
        && PaperRemoved(old(db), old(orders), id, db)
        && FilesRemoved(old(files), OwnPaths(old(db), id), trash, files)
        && forall path <- old(files) :: path in files <==> !OwnFile(old(db), id, path)
      ensures error.Some? ==> db == old(db) && orders == old(orders)
      ensures error.Some? && error != Some(RestoreFailed) ==> files == old(files)
      ensures error == Some(RestoreFailed) ==> NothingLost(old(files), trash, files)
    {
      hide Staged, StagingHolds, Moved, AllShow, GapsClosed, OrdersWithout, OwnPaths, OwnFile, Busy, Overlapping, NothingLost, AllApart;
      if id !in db.papers {
        return Some(PaperNotFound);
      }
      BusyIff(db, id);
      if Busy(db, id) {
        return Some(PaperBusy);
      }
      OverlappingIff(db, id);
      var targets := PaperDeleteTargets(id);
      if targets.None? {
        return Some(FilesOverlap);
      }
      ghost var before, paths := files, OwnPaths(db, id);
      var collections := RemoveFromCollections(id);
      var pending := db.(papers := db.papers - {id},
                         artifacts := map a <- db.artifacts | db.artifacts[a].owner != id :: db.artifacts[a],
                         collections := collections);
      var staged, ok := StageFiles(targets.value, trash);
      var committed: bool := *;
      if !ok || !committed {
        var restored := RestoreStagedFiles(staged, before, trash);
        return Some(if !restored then RestoreFailed else if !ok then FilesStay else DatabaseFailed);
      }
      GapsClosedShow(db.collections, orders, id, collections);
      orders := OrdersWithout(db.collections, orders, id);
      db := pending;
      forall path <- before ensures Under(paths, path) <==> Under(AsSet(staged), path) {
        StagingCovers(before, targets.value, staged, trash, files, path);
      }
      StagedMeansRemoved(before, paths, AsSet(staged), trash, files);
      RemoveTrash(trash);
      OwnFilesGo(old(db), id, before, trash, files);
      return None;
    }
  }

  lemma StagedMeansRemoved(before: Files, paths: set<Path>, staged: set<Path>, trash: Path, files: Files)
    requires Staged(before, staged, trash, files) && NewTrash(before, trash)
    requires forall path <- before :: Under(paths, path) <==> Under(staged, path)
    ensures FilesRemoved(before, paths, trash, files)
  {
    forall path <- files ensures (trash <= path || path in before) && (path in before ==> !Under(paths, path)) {
      assert Origin(before, staged, trash, path);
    }
  }

  /** A successful deletion leaves every file that another paper has as an artifact. */
  lemma OthersKeepTheirFiles(db: Database, id: PaperId, files: Files, trash: Path, files': Files, a: nat)
    requires !Overlapping(db, id) && FilesRemoved(files, OwnPaths(db, id), trash, files')
    requires a in db.artifacts && db.artifacts[a].owner != id && db.artifacts[a].path in files
    ensures InPlace(files, files', db.artifacts[a].path)
  {
  }
}
