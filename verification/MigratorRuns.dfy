/**
 A database over the life of the deployment: startups that may each die between transactions, with
 migration trees that only grow above the latest version of the tree before.
 */
module MigratorRuns {
  import opened Migrator

  function UpTo(versions: set<Version>, bound: Version): set<Version> {
    set v | v in versions && !Older(bound, v)
  }

  ghost function Recorded(db: Database): Version
    requires db.ledger != []
  {
    db.ledger[|db.ledger| - 1]
  }

  /**
   A database last started with the given tree: its ledger ascends and its schema holds exactly the
   incrementals up to the last recorded version. One without a ledger is fresh, or is the baseline.
   */
  ghost predicate Sound(db: Database, versions: set<Version>, latest: Version) {
    && IsLatest(versions, latest)
    && (!db.schemaExists ==> !db.historyExists)
    && (!db.historyExists ==> db.ledger == [] && (db.schemaExists ==> db.contents == UpTo(versions, BASELINE_VERSION)))
    && (db.historyExists ==> db.ledger != [] && InStep(db, versions, Recorded(db)) && !Older(latest, Recorded(db)))
  }

  ghost predicate InStep(db: Database, versions: set<Version>, recorded: Version) {
    && Ascending(db.ledger) && (forall i | 0 <= i < |db.ledger| :: !Older(recorded, db.ledger[i]))
    && db.contents == UpTo(versions, recorded)
  }

  /** New files carry versions newer than everything the old tree knew. */
  ghost predicate Extends(versions: set<Version>, latest: Version, next: set<Version>) {
    versions <= next && forall v | v in next && v !in versions :: Older(latest, v)
  }

  lemma LatestGrows(versions: set<Version>, latest: Version, next: set<Version>, nextLatest: Version)
    requires IsLatest(versions, latest) && IsLatest(next, nextLatest) && Extends(versions, latest, next)
    ensures !Older(nextLatest, latest)
  {
  }

  /** A longer tree does not change what the database is known to hold. */
  lemma SoundForNext(db: Database, versions: set<Version>, latest: Version, next: set<Version>, nextLatest: Version)
    requires Sound(db, versions, latest) && Extends(versions, latest, next) && IsLatest(next, nextLatest)
    ensures Sound(db, next, nextLatest)
  {
    LatestGrows(versions, latest, next, nextLatest);
  }

  lemma AppendAscends(ledger: seq<Version>, v: Version)
    requires Ascending(ledger) && (ledger != [] ==> Older(ledger[|ledger| - 1], v))
    ensures Ascending(ledger + [v])
    ensures v !in ledger
  {
    assert forall i | 0 <= i < |ledger| :: Older(ledger[i], v);
  }

  /** The loop in the middle: the next file to apply is the oldest one the schema lacks. */
  ghost predicate Between(db: Database, files: seq<VersionedFile>, n: nat, versions: set<Version>, recorded: Version, latest: Version) {
    && n <= |files| && AscendingFiles(files) && versions == VersionsOf(files) && IsLatest(versions, latest)
    && db.schemaExists && db.historyExists && db.ledger != []
    && InStep(db, versions, Recorded(db)) && !Older(latest, Recorded(db)) && !Older(Recorded(db), recorded)
    && (forall i | 0 <= i < n :: !Older(Recorded(db), files[i].version))
    && (forall i | n <= i < |files| && Older(recorded, files[i].version) :: Older(Recorded(db), files[i].version))
  }

  lemma NextPending(db: Database, files: seq<VersionedFile>, n: nat, versions: set<Version>, recorded: Version, latest: Version)
    requires Between(db, files, n, versions, recorded, latest) && n < |files|
    ensures !Older(recorded, files[n].version) ==> Between(db, files, n + 1, versions, recorded, latest)
    ensures Older(recorded, files[n].version) ==>
              files[n].version !in db.ledger && files[n].version !in db.contents &&
              Between(Migrated(db, files[n].version), files, n + 1, versions, recorded, latest)
  {
    var v := files[n].version;
    assert files[n] in files;
    if Older(recorded, v) {
      AppendAscends(db.ledger, v);
      var after := Migrated(db, v);
      forall w | w in versions ensures w in UpTo(versions, v) <==> w in UpTo(versions, Recorded(db)) || w == v {
        var i :| 0 <= i < |files| && files[i].version == w;
      }
      assert after.contents == UpTo(versions, v);
      assert Recorded(after) == v;
    }
  }

  /** Every incremental the loop applies is new to the schema, and a loop that ends has applied them all. */
  lemma {:induction false} PendingKeepsSound(db: Database, files: seq<VersionedFile>, n: nat, versions: set<Version>,
                                             recorded: Version, latest: Version, commits: nat)
    requires Between(db, files, n, versions, recorded, latest)
    ensures var (after, outcome) := ApplyPending(db, files[n..], recorded, commits);
            && Sound(after, versions, latest) && db.ledger <= after.ledger
            && (forall i | |db.ledger| <= i < |after.ledger| :: after.ledger[i] !in db.contents)
            && (outcome == Started ==> forall v | v in versions :: !Older(Recorded(after), v))
    decreases |files| - n
  {
    if n < |files| {
      NextPending(db, files, n, versions, recorded, latest);
      assert files[n..][1..] == files[n + 1..];
      var v := files[n].version;
      if !Older(recorded, v) {
        PendingKeepsSound(db, files, n + 1, versions, recorded, latest, commits);
      } else if commits > 0 {
        PendingKeepsSound(Migrated(db, v), files, n + 1, versions, recorded, latest, commits - 1);
      }
    }
  }

  /** The schema holds everything the tree knows, and the ledger says so. */
  ghost predicate UpToDate(db: Database, versions: set<Version>, latest: Version) {
    db.schemaExists && db.historyExists && db.ledger != [] && Recorded(db) == latest && db.contents == versions
  }

  lemma AdoptedIsSound(db: Database, versions: set<Version>, latest: Version)
    requires Sound(db, versions, latest) && db.schemaExists && !db.historyExists
    ensures Sound(Adopted(db), versions, latest) && Adopted(db).historyExists && Recorded(Adopted(db)) == BASELINE_VERSION
    ensures !Older(Recorded(Adopted(db)), BASELINE_VERSION)
  {
    assert [] + [BASELINE_VERSION] == [BASELINE_VERSION];
  }

  /** What one startup does to a database the tree is right for. */
  lemma StartupKeepsSound(db: Database, files: seq<VersionedFile>, commits: nat)
    requires AscendingFiles(files) && Sound(db, VersionsOf(files), Latest(files))
    requires db.historyExists ==> !Older(Recorded(db), BASELINE_VERSION)
    ensures var (after, outcome) := StartupResult(db, files, commits);
            && Sound(after, VersionsOf(files), Latest(files)) && db.ledger <= after.ledger
            && (after.historyExists ==> !Older(Recorded(after), BASELINE_VERSION))
            && (outcome == Started ==> UpToDate(after, VersionsOf(files), Latest(files)))
            && (outcome == Started || outcome == Died || (outcome == IncompleteBaseline && after == db && !db.complete))
  {
    LatestIsLatest(files);
    var versions, latest := VersionsOf(files), Latest(files);
    if !db.schemaExists {
      assert UpTo(versions, latest) == versions;
    } else if db.historyExists {
      RunningKeepsSound(db, files, commits);
    } else if db.complete && commits > 0 {
      AdoptedIsSound(db, versions, latest);
      RunningKeepsSound(Adopted(db), files, commits - 1);
    }
  }

  lemma RunningKeepsSound(db: Database, files: seq<VersionedFile>, commits: nat)
    requires AscendingFiles(files) && Sound(db, VersionsOf(files), Latest(files)) && db.schemaExists && db.historyExists
    requires !Older(Recorded(db), BASELINE_VERSION)
    ensures var (after, outcome) := ApplyPending(db, files, Recorded(db), commits);
            && Sound(after, VersionsOf(files), Latest(files)) && db.ledger <= after.ledger
            && after.schemaExists && after.historyExists && !Older(Recorded(after), BASELINE_VERSION)
            && (outcome == Started ==> UpToDate(after, VersionsOf(files), Latest(files)))
            && (outcome == Started || outcome == Died)
  {
    var versions, latest, recorded := VersionsOf(files), Latest(files), Recorded(db);
    assert Between(db, files, 0, versions, recorded, latest);
    assert files[0..] == files;
    PendingKeepsSound(db, files, 0, versions, recorded, latest, commits);
    PendingNeverBad(db, files, recorded, commits);
    PendingKeepsTables(db, files, recorded, commits);
    var (after, outcome) := ApplyPending(db, files, recorded, commits);
    assert after.ledger[|db.ledger| - 1] == recorded;
  }

  lemma {:induction false} PendingKeepsTables(db: Database, files: seq<VersionedFile>, recorded: Version, commits: nat)
    ensures ApplyPending(db, files, recorded, commits).0.schemaExists == db.schemaExists
    ensures ApplyPending(db, files, recorded, commits).0.historyExists == db.historyExists
    decreases |files|
  {
    if files != [] {
      PendingKeepsTables(db, files[1..], recorded, commits);
      if commits > 0 { PendingKeepsTables(Migrated(db, files[0].version), files[1..], recorded, commits - 1); }
    }
  }

  // ----- The life of a deployment -----

  datatype Start = Start(files: seq<VersionedFile>, commits: nat)

  function Lifetime(db: Database, starts: seq<Start>): Database {
    if starts == [] then db
    else
      var before, last := Lifetime(db, starts[..|starts| - 1]), starts[|starts| - 1];
      StartupResult(before, last.files, last.commits).0
  }

  /** Each build's tree grows above the latest version of the build before. */
  ghost predicate Growing(starts: seq<Start>) {
    && (forall i | 0 <= i < |starts| :: AscendingFiles(starts[i].files))
    && (forall i | 0 < i < |starts| ::
          Extends(VersionsOf(starts[i - 1].files), Latest(starts[i - 1].files), VersionsOf(starts[i].files)))
  }

  /** A database the framework may meet: none yet, or a schema that matches the baseline and has no ledger. */
  ghost predicate Initial(db: Database, versions: set<Version>) {
    && !db.historyExists && db.ledger == []
    && (db.schemaExists ==> db.contents == UpTo(versions, BASELINE_VERSION))
  }

  /**
   Main result: whatever startups die where, the ledger ascends with its ids and the schema holds
   exactly the incrementals up to the recorded version; a startup that succeeds leaves the database
   at the latest version with every incremental in it.
   */
  lemma {:induction false} LifetimeKeepsSound(db: Database, starts: seq<Start>)
    requires starts != [] && Growing(starts) && Initial(db, VersionsOf(starts[0].files))
    ensures var after, last := Lifetime(db, starts), starts[|starts| - 1];
            && Sound(after, VersionsOf(last.files), Latest(last.files))
            && (after.historyExists ==> !Older(Recorded(after), BASELINE_VERSION))
            && Ascending(after.ledger)
            && (StartupResult(Lifetime(db, starts[..|starts| - 1]), last.files, last.commits).1 == Started ==>
                  UpToDate(after, VersionsOf(last.files), Latest(last.files)))
  {
    var n := |starts| - 1;
    var rest, last := starts[..n], starts[n];
    LatestIsLatest(last.files);
    if n == 0 {
      assert Lifetime(db, rest) == db;
      StartupKeepsSound(db, last.files, last.commits);
    } else {
      var previous := rest[n - 1];
      LifetimeKeepsSound(db, rest);
      assert Extends(VersionsOf(previous.files), Latest(previous.files), VersionsOf(last.files));
      SoundForNext(Lifetime(db, rest), VersionsOf(previous.files), Latest(previous.files), VersionsOf(last.files), Latest(last.files));
      StartupKeepsSound(Lifetime(db, rest), last.files, last.commits);
    }
  }

  /** No version is recorded twice, so no incremental is applied twice. */
  lemma AppliedOnce(db: Database, starts: seq<Start>, i: nat, j: nat)
    requires starts != [] && Growing(starts) && Initial(db, VersionsOf(starts[0].files))
    requires i < j < |Lifetime(db, starts).ledger|
    ensures Lifetime(db, starts).ledger[i] != Lifetime(db, starts).ledger[j]
  {
    LifetimeKeepsSound(db, starts);
  }

  /** A file added below the recorded version is never applied: such a tree leaves the schema behind it. */
  lemma LateFileIsSkipped(db: Database, files: seq<VersionedFile>, commits: nat, late: Version)
    requires db.schemaExists && db.historyExists && db.ledger != []
    requires late !in db.contents && !Older(Recorded(db), late)
    ensures late !in StartupResult(db, files, commits).0.contents
  {
    PendingSkips(db, files, Recorded(db), commits, late);
  }

  lemma {:induction false} PendingSkips(db: Database, files: seq<VersionedFile>, recorded: Version, commits: nat, late: Version)
    requires late !in db.contents && !Older(recorded, late)
    ensures late !in ApplyPending(db, files, recorded, commits).0.contents
    decreases |files|
  {
    if files != [] {
      PendingSkips(db, files[1..], recorded, commits, late);
      if Older(recorded, files[0].version) && commits > 0 {
        PendingSkips(Migrated(db, files[0].version), files[1..], recorded, commits - 1, late);
      }
    }
  }
}
