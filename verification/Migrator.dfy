/**
 Schema migrations at startup: a fresh install takes the cumulative schema, an existing database the
 incrementals it lacks, each in one transaction with its ledger row. A startup may die before any of
 its transactions commits.
 */
module Migrator {
  import opened Ordering

  datatype Version = Version(major: nat, minor: nat, patch: nat)

  /** A file of the migration tree; its version is missing when its path is malformed. */
  datatype File = File(path: string, version: Option<Version>)

  datatype VersionedFile = VersionedFile(version: Version, path: string)

  const BASELINE_VERSION := Version(0, 1, 0)

  predicate Older(a: Version, b: Version) {
    a.major < b.major || (a.major == b.major && (a.minor < b.minor || (a.minor == b.minor && a.patch < b.patch)))
  }

  /** The first number that differs decides, and 0.1.0 is the baseline. */
  lemma VersionOrder(a: Version, b: Version)
    ensures a.major != b.major ==> (Older(a, b) <==> a.major < b.major)
    ensures a.major == b.major && a.minor != b.minor ==> (Older(a, b) <==> a.minor < b.minor)
    ensures a.major == b.major && a.minor == b.minor ==> (Older(a, b) <==> a.patch < b.patch)
    ensures BASELINE_VERSION.major == 0 && BASELINE_VERSION.minor == 1 && BASELINE_VERSION.patch == 0
  {
  }

  predicate FileBefore(a: VersionedFile, b: VersionedFile) {
    Older(a.version, b.version)
  }

  /**
   The database: which tables there are, the ledger in id order, and the incrementals whose effects
   its schema holds.
   */
  datatype Database = Database(schemaExists: bool, historyExists: bool, complete: bool, ledger: seq<Version>, contents: set<Version>)

  datatype Outcome = Started | BadTree | IncompleteBaseline | NoVersion | NewerDatabase | Died

  // ----- The migration tree -----

  function VersionsOf(files: seq<VersionedFile>): set<Version> {
    set f | f in files :: f.version
  }

  ghost predicate Ascending(versions: seq<Version>) {
    forall i, j | 0 <= i < j < |versions| :: Older(versions[i], versions[j])
  }

  ghost predicate AscendingFiles(files: seq<VersionedFile>) {
    forall i, j | 0 <= i < j < |files| :: Older(files[i].version, files[j].version)
  }

  function Parsed(tree: seq<File>): seq<VersionedFile>
    requires forall f | f in tree :: f.version.Some?
  {
    seq(|tree|, i requires 0 <= i < |tree| => VersionedFile(tree[i].version.value, tree[i].path))
  }

  /** Every path is well formed and no version is claimed twice. */
  ghost predicate Loads(tree: seq<File>) {
    && (forall f | f in tree :: f.version.Some?)
    && (forall i, j | 0 <= i < j < |tree| :: tree[i].version != tree[j].version)
  }

  /** getSortedVersionedFiles */
  method GetSortedVersionedFiles(tree: seq<File>) returns (files: Option<seq<VersionedFile>>)
    ensures files.Some? <==> Loads(tree)
    ensures files.Some? ==> multiset(files.value) == multiset(Parsed(tree)) && AscendingFiles(files.value)
  {
    var list: seq<VersionedFile> := [];
    for i := 0 to |tree|
      invariant forall j | 0 <= j < i :: tree[j].version.Some?
      invariant |list| == i && forall j | 0 <= j < i :: list[j] == VersionedFile(tree[j].version.value, tree[j].path)
    {
      if tree[i].version.None? {
        return None;
      }
      list := list + [VersionedFile(tree[i].version.value, tree[i].path)];
    }
    assert forall f | f in tree :: f.version.Some?;
    assert list == Parsed(tree);
    var sorted := SortFunc(list, FileBefore);
    var duplicate := ClaimsTwice(sorted);
    DuplicatesAnyOrder(list, sorted);
    if duplicate {
      return None;
    }
    files := Some(sorted);
  }

  ghost predicate DistinctVersions(files: seq<VersionedFile>) {
    forall i, j | 0 <= i < j < |files| :: files[i].version != files[j].version
  }

  method ClaimsTwice(files: seq<VersionedFile>) returns (duplicate: bool)
    ensures duplicate <==> !DistinctVersions(files)
  {
    var seen: set<Version> := {};
    for i := 0 to |files|
      invariant seen == VersionsOf(files[..i])
      invariant DistinctVersions(files[..i])
    {
      assert files[..i + 1] == files[..i] + [files[i]];
      assert forall j | 0 <= j < i :: files[..i][j].version in seen;
      if files[i].version in seen {
        var j :| 0 <= j < i && files[j].version == files[i].version;
        return true;
      }
      seen := seen + {files[i].version};
    }
    assert files[..|files|] == files;
    duplicate := false;
  }

  lemma DistinctAppend(rest: seq<VersionedFile>, last: VersionedFile)
    ensures DistinctVersions(rest + [last]) <==> DistinctVersions(rest) && last.version !in VersionsOf(rest)
    ensures VersionsOf(rest + [last]) == VersionsOf(rest) + {last.version}
  {
    var files := rest + [last];
    assert forall i | 0 <= i < |rest| :: files[i] == rest[i] && rest[i] in rest;
    assert files[|rest|] == last;
    if last.version in VersionsOf(rest) {
      var j :| 0 <= j < |rest| && rest[j].version == last.version;
      assert files[j].version == files[|rest|].version;
    } else if DistinctVersions(files) {
      assert forall i, j | 0 <= i < j < |rest| :: files[i].version != files[j].version;
    }
  }

  /** No version is claimed twice exactly when there are as many versions as files. */
  lemma {:induction false} DistinctByCount(files: seq<VersionedFile>)
    ensures DistinctVersions(files) <==> |VersionsOf(files)| == |files|
    ensures |VersionsOf(files)| <= |files|
  {
    if files != [] {
      var rest, last := files[..|files| - 1], files[|files| - 1];
      assert files == rest + [last];
      DistinctByCount(rest);
      DistinctAppend(rest, last);
    }
  }

  lemma DuplicatesAnyOrder(list: seq<VersionedFile>, sorted: seq<VersionedFile>)
    requires multiset(list) == multiset(sorted)
    ensures DistinctVersions(list) <==> DistinctVersions(sorted)
  {
    DistinctByCount(list);
    DistinctByCount(sorted);
    assert |list| == |multiset(list)| == |multiset(sorted)| == |sorted|;
    forall f ensures f in list <==> f in sorted {
      assert f in list <==> f in multiset(list);
    }
    assert VersionsOf(list) == VersionsOf(sorted);
  }

  // ----- The latest version -----

  /** The newest of the versions, or the baseline when none is newer. */
  ghost predicate IsLatest(versions: set<Version>, latest: Version) {
    && (latest == BASELINE_VERSION || latest in versions)
    && !Older(latest, BASELINE_VERSION)
    && forall v | v in versions :: !Older(latest, v)
  }

  function Latest(files: seq<VersionedFile>): Version {
    if files == [] then BASELINE_VERSION
    else
      var before, v := Latest(files[..|files| - 1]), files[|files| - 1].version;
      if Older(before, v) then v else before
  }

  /** computeLatestVersion */
  method ComputeLatestVersion(files: seq<VersionedFile>) returns (latest: Version)
    ensures latest == Latest(files)
  {
    latest := BASELINE_VERSION;
    for i := 0 to |files|
      invariant latest == Latest(files[..i])
    {
      assert files[..i + 1][..i] == files[..i];
      if Older(latest, files[i].version) {
        latest := files[i].version;
      }
    }
    assert files[..|files|] == files;
  }

  lemma {:induction false} LatestIsLatest(files: seq<VersionedFile>)
    ensures IsLatest(VersionsOf(files), Latest(files))
  {
    if files != [] {
      var rest, v := files[..|files| - 1], files[|files| - 1].version;
      LatestIsLatest(rest);
      assert files == rest + [files[|files| - 1]];
      assert VersionsOf(files) == VersionsOf(rest) + {v};
    }
  }

  // ----- One startup -----

  /** The cumulative schema holds everything the tree's incrementals do, and brings its own ledger. */
  function Installed(db: Database, files: seq<VersionedFile>): Database {
    Database(true, true, true, db.ledger + [Latest(files)], VersionsOf(files))
  }

  function Adopted(db: Database): Database {
    db.(historyExists := true, ledger := db.ledger + [BASELINE_VERSION])
  }

  function Migrated(db: Database, v: Version): Database {
    db.(ledger := db.ledger + [v], contents := db.contents + {v})
  }

  /** The incrementals newer than the recorded version, until the startup dies. */
  function ApplyPending(db: Database, files: seq<VersionedFile>, recorded: Version, commits: nat): (Database, Outcome)
    decreases |files|
  {
    if files == [] then (db, Started)
    else if !Older(recorded, files[0].version) then ApplyPending(db, files[1..], recorded, commits)
    else if commits == 0 || files[0].version in db.ledger then (db, Died)
    else ApplyPending(Migrated(db, files[0].version), files[1..], recorded, commits - 1)
  }

  /** A startup of which `commits` transactions commit before it dies, if it needs that many. */
  function StartupResult(db: Database, files: seq<VersionedFile>, commits: nat): (Database, Outcome) {
    if !db.schemaExists then
      if commits == 0 then (db, Died) else (Installed(db, files), Started)
    else if !db.historyExists && !db.complete then (db, IncompleteBaseline)
    else if !db.historyExists && commits == 0 then (db, Died)
    else
      var adopted := if db.historyExists then db else Adopted(db);
      var left := if db.historyExists then commits else commits - 1;
      if adopted.ledger == [] then (adopted, NoVersion)
      else
        var recorded := adopted.ledger[|adopted.ledger| - 1];
        if Older(Latest(files), recorded) then (adopted, NewerDatabase)
        else ApplyPending(adopted, files, recorded, left)
  }

  class Instance {
    var db: Database

    constructor (db: Database)
      ensures this.db == db
    {
      this.db := db;
    }

    /** executeMigration: the statement and its ledger row commit together or not at all. */
    method ExecuteMigration(version: Version, commits: nat) returns (ok: bool, left: nat)
      modifies this
      ensures ok <==> commits > 0 && version !in old(db).ledger
      ensures ok ==> db == Migrated(old(db), version) && left == commits - 1
      ensures !ok ==> db == old(db)
    {
      left := commits;
      if commits == 0 || version in db.ledger {
        return false, left;
      }
      db, left, ok := Migrated(db, version), commits - 1, true;
    }

    /** migrateSchemaFS */
    method MigrateSchema(tree: seq<File>, commits: nat) returns (outcome: Outcome, ghost files: seq<VersionedFile>)
      modifies this
      ensures outcome == BadTree <==> !Loads(tree)
      ensures outcome == BadTree ==> db == old(db)
      ensures outcome != BadTree ==> multiset(files) == multiset(Parsed(tree)) && AscendingFiles(files)
      ensures outcome != BadTree ==> (db, outcome) == StartupResult(old(db), files, commits)
    {
      var sorted := GetSortedVersionedFiles(tree);
      if sorted.None? {
        return BadTree, [];
      }
      files := sorted.value;
      NeverBad(db, sorted.value, commits);
      outcome := Migrate(sorted.value, commits);
    }

    method Migrate(files: seq<VersionedFile>, commits: nat) returns (outcome: Outcome)
      modifies this
      ensures (db, outcome) == StartupResult(old(db), files, commits)
    {
      var latest := ComputeLatestVersion(files);
      if !db.schemaExists {
        if commits == 0 {
          return Died;
        }
        db := Installed(db, files);
        return Started;
      }
      var left := commits;
      if !db.historyExists {
        if !db.complete {
          return IncompleteBaseline;
        }
        if commits == 0 {
          return Died;
        }
        db, left := Adopted(db), commits - 1;
      }
      if db.ledger == [] {
        return NoVersion;
      }
      var recorded := db.ledger[|db.ledger| - 1];
      if Older(latest, recorded) {
        return NewerDatabase;
      }
      outcome := RunPending(files, recorded, left);
    }

    method RunPending(files: seq<VersionedFile>, recorded: Version, commits: nat) returns (outcome: Outcome)
      modifies this
      ensures (db, outcome) == ApplyPending(old(db), files, recorded, commits)
    {
      ghost var before := db;
      var left := commits;
      for i := 0 to |files|
        invariant ApplyPending(db, files[i..], recorded, left) == ApplyPending(before, files, recorded, commits)
      {
        assert files[i..][1..] == files[i + 1..];
        if !Older(recorded, files[i].version) {
          continue;
        }
        var ok;
        ok, left := ExecuteMigration(files[i].version, left);
        if !ok {
          return Died;
        }
      }
      outcome := Started;
    }
  }

  lemma {:induction false} PendingNeverBad(db: Database, files: seq<VersionedFile>, recorded: Version, commits: nat)
    ensures ApplyPending(db, files, recorded, commits).1 == Started || ApplyPending(db, files, recorded, commits).1 == Died
    decreases |files|
  {
    if files != [] {
      PendingNeverBad(db, files[1..], recorded, commits);
      if commits > 0 { PendingNeverBad(Migrated(db, files[0].version), files[1..], recorded, commits - 1); }
    }
  }

  lemma NeverBad(db: Database, files: seq<VersionedFile>, commits: nat)
    ensures StartupResult(db, files, commits).1 != BadTree
  {
    if db.schemaExists && (db.historyExists || commits > 0) {
      var adopted := if db.historyExists then db else Adopted(db);
      if adopted.ledger != [] {
        PendingNeverBad(adopted, files, adopted.ledger[|adopted.ledger| - 1], if db.historyExists then commits else commits - 1);
      }
    }
  }
}
