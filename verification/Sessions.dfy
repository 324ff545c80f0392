/** Whole runs of core/vca/sqlite_userdb.cpp: any calls, in any order, failing wherever SQLite fails. */
module Sessions {
  import opened Wrappers
  import opened Paths
  import opened Fingerprints
  import opened SearchCaches
  import opened Tables
  import opened Index
  import opened UserDb

  datatype Call =
    | Create(dirs: set<Dir>)
    | AddRoot(dir: Dir)
    | RemoveRoot(dir: Dir)
    | Update(path: Dir, fingerprint: Fingerprint, words: seq<string>)
    | Remove(path: Dir)
    | Move(source: Dir, target: Dir)
    | Search(words: seq<string>)

  datatype Snapshot = Snapshot(tables: Tables, rootDirs: map<Dir, int>, filesId: int, wordsId: int, rootsId: int)

  datatype Record = Record(call: Call, before: Snapshot, outcome: Outcome, after: Snapshot, answer: seq<SearchResult>)

  ghost predicate CreateStep(s: Snapshot, s': Snapshot, r: Outcome, dirs: set<Dir>) {
    && s'.filesId == s.filesId && s'.wordsId == s.wordsId && r in {Done, IoError, CommitError}
    && ((r == IoError && s'.rootDirs == s.rootDirs && s'.rootsId == s.rootsId)
        || Filled(s'.rootDirs, dirs, s.rootsId, s'.rootsId))
    && (r == CommitError ==> s'.rootsId == s.rootsId + |dirs|)
    && (r == Done ==> s.rootsId <= s'.rootsId
                      && Rebuilt(s'.tables, s'.rootDirs, s.tables.words, dirs, s.rootsId, s'.rootsId))
  }

  ghost predicate AddRootStep(s: Snapshot, s': Snapshot, r: Outcome, dir: Dir) {
    && s'.filesId == s.filesId && s'.wordsId == s.wordsId && r != NoRoot
    && (dir in s.rootDirs ==> r == Done && s' == s)
    && (dir !in s.rootDirs ==>
          && (r == Done ==> InsertRoot(s.tables, s.rootsId, dir) == Some(s'.tables))
          && (r == CommitError ==> InsertRoot(s.tables, s.rootsId, dir).Some?)
          && (r == Constraint ==> InsertRoot(s.tables, s.rootsId, dir).None?)
          && s'.rootDirs == (if r in {Done, CommitError} then s.rootDirs[dir := s.rootsId] else s.rootDirs)
          && s'.rootsId == (if r in {Done, CommitError} then s.rootsId + 1 else s.rootsId))
  }

  ghost predicate RemoveRootStep(s: Snapshot, s': Snapshot, r: Outcome, dir: Dir) {
    && s'.filesId == s.filesId && s'.wordsId == s.wordsId && s'.rootsId == s.rootsId && r !in {NoRoot, Constraint}
    && (dir !in s.rootDirs ==> r == Done && s' == s)
    && (dir in s.rootDirs ==>
          && (r == Done ==> s'.tables == DeleteRoots(s.tables, RootsNamed(s.tables, dir)))
          && s'.rootDirs == (if r in {Done, CommitError} then s.rootDirs - {dir} else s.rootDirs))
  }

  ghost predicate UpdateStep(s: Snapshot, s': Snapshot, r: Outcome, path: Dir, fingerprint: Fingerprint,
                             words: seq<string>) {
    && s'.rootDirs == s.rootDirs && s'.rootsId == s.rootsId
    && s'.filesId == s.filesId + (if r in {Done, CommitError} then 1 else 0)
    && (r == NoRoot <==> Resolve(s.rootDirs, path).None?)
    && (r == NoRoot ==> s'.wordsId == s.wordsId)
    && Drawn(s.tables, words, s.wordsId, s'.wordsId)
    && (r == Constraint ==>
          Refused(s.tables, s.filesId, RowOf(s.rootDirs, path, fingerprint), s.wordsId, s'.wordsId))
    && var next := Indexing(s.tables, s.rootDirs, path, fingerprint, s.filesId, s.wordsId, words);
       (r == Done ==> next == Some((s'.tables, s'.wordsId))) && (r == Constraint ==> next.None?)
  }

  ghost predicate RemoveStep(s: Snapshot, s': Snapshot, r: Outcome, path: Dir) {
    && s' == s.(tables := s'.tables) && r != Constraint
    && (r == NoRoot <==> Resolve(s.rootDirs, path).None?)
    && (r == Done ==> s'.tables == DeleteFiles(s.tables, FilesNamed(s.tables, Resolve(s.rootDirs, path).value.0)))
  }

  ghost predicate MoveStep(s: Snapshot, s': Snapshot, r: Outcome, source: Dir, target: Dir) {
    && s' == s.(tables := s'.tables)
    && (r == NoRoot <==> Resolve(s.rootDirs, source).None? || Resolve(s.rootDirs, target).None?)
    && (r == Done ==> Moving(s.tables, s.rootDirs, source, target) == Some(s'.tables))
    && (r == Constraint ==> Moving(s.tables, s.rootDirs, source, target).None?)
  }

  /** What a call may do, failed or not. */
  ghost predicate Step(like: (string, string) -> bool, rec: Record) {
    var s, s', r := rec.before, rec.after, rec.outcome;
    && Integrity(s.tables) && Integrity(s'.tables)
    && (r != Done ==> s'.tables == s.tables)
    && match rec.call
       case Create(dirs) => CreateStep(s, s', r, dirs)
       case AddRoot(dir) => AddRootStep(s, s', r, dir)
       case RemoveRoot(dir) => RemoveRootStep(s, s', r, dir)
       case Update(path, fingerprint, words) => UpdateStep(s, s', r, path, fingerprint, words)
       case Remove(path) => RemoveStep(s, s', r, path)
       case Move(source, target) => MoveStep(s, s', r, source, target)
       case Search(words) =>
         r in {Done, IoError} && s' == s && (r == Done ==> IsAnswer(like, s.tables, words, rec.answer))
  }

  /** A log of calls that leads from one state to another, each from where the one before has ended. */
  ghost predicate Linked(step: Record -> bool, s: Snapshot, log: seq<Record>, s': Snapshot)
    decreases |log|
  {
    if log == [] then s' == s
    else
      var rec := log[|log| - 1];
      Linked(step, s, log[..|log| - 1], rec.before) && step(rec) && rec.after == s'
  }

  lemma {:induction false} LinkedOn(step: Record -> bool, s: Snapshot, log: seq<Record>, rec: Record)
    requires Linked(step, s, log, rec.before) && step(rec)
    ensures Linked(step, s, log + [rec], rec.after)
  {
    assert (log + [rec])[..|log|] == log;
  }

  lemma {:induction false} LinkedJoin(step: Record -> bool, s: Snapshot, log: seq<Record>, m: Snapshot,
                                      more: seq<Record>, s': Snapshot)
    requires Linked(step, s, log, m) && Linked(step, m, more, s')
    ensures Linked(step, s, log + more, s')
    decreases |more|
  {
    if more == [] {
      assert log + more == log;
    } else {
      LinkedJoin(step, s, log, m, more[..|more| - 1], more[|more| - 1].before);
      LinkedOn(step, s, log + more[..|more| - 1], more[|more| - 1]);
      assert log + more == log + more[..|more| - 1] + [more[|more| - 1]];
    }
  }

  lemma {:induction false} LinkedAt(step: Record -> bool, s: Snapshot, log: seq<Record>, s': Snapshot, k: nat)
    requires Linked(step, s, log, s') && k < |log|
    ensures step(log[k]) && Linked(step, s, log[..k], log[k].before)
    ensures log[k].after == if k + 1 < |log| then log[k + 1].before else s'
    ensures log[0].before == s
    decreases |log|
  {
    var first := log[..|log| - 1];
    if k < |log| - 1 {
      LinkedAt(step, s, first, log[|log| - 1].before, k);
      assert first[..k] == log[..k];
    } else if |log| > 1 {
      LinkedAt(step, s, first, log[|log| - 1].before, 0);
    }
  }

  lemma {:induction false} LinkedPrefix(step: Record -> bool, s: Snapshot, log: seq<Record>, s': Snapshot, k: nat)
    requires Linked(step, s, log, s') && k < |log|
    ensures Linked(step, s, log[..k + 1], log[k].after)
  {
    LinkedAt(step, s, log, s', k);
    LinkedOn(step, s, log[..k], log[k]);
    assert log[..k + 1] == log[..k] + [log[k]];
  }

  /** What every step keeps holds throughout. */
  lemma {:induction false} LinkedKeeps(step: Record -> bool, inv: Snapshot -> bool, s: Snapshot, log: seq<Record>,
                                       s': Snapshot, k: nat)
    requires Linked(step, s, log, s') && k < |log| && inv(s)
    requires forall j :: 0 <= j < |log| && inv(log[j].before) && step(log[j]) ==> inv(log[j].after)
    ensures step(log[k]) && inv(log[k].before) && inv(log[k].after)
    decreases k
  {
    LinkedAt(step, s, log, s', k);
    if k > 0 {
      LinkedKeeps(step, inv, s, log, s', k - 1);
      LinkedAt(step, s, log, s', k - 1);
    }
  }

  ghost function Steps(like: (string, string) -> bool): Record -> bool {
    rec => Step(like, rec)
  }

  ghost predicate Chain(like: (string, string) -> bool, s: Snapshot, log: seq<Record>, s': Snapshot) {
    Linked(Steps(like), s, log, s')
  }

  function Opened(initial: Tables): Snapshot {
    Snapshot(initial, map[], 0, 0, 0)
  }

  ghost function Last(initial: Tables, log: seq<Record>): Snapshot {
    if log == [] then Opened(initial) else log[|log| - 1].after
  }

  /** A log of the first |log| calls, begun with `initial` in the file. */
  ghost predicate Run(like: (string, string) -> bool, initial: Tables, calls: seq<Call>, log: seq<Record>) {
    && |log| <= |calls|
    && (forall k :: 0 <= k < |log| ==> log[k].call == calls[k])
    && Chain(like, Opened(initial), log, Last(initial, log))
  }

  lemma {:induction false} RunOn(like: (string, string) -> bool, initial: Tables, calls: seq<Call>, log: seq<Record>,
                                 rec: Record)
    requires Run(like, initial, calls, log) && |log| < |calls| && rec.call == calls[|log|]
    requires rec.before == Last(initial, log) && Step(like, rec)
    ensures Run(like, initial, calls, log + [rec]) && Last(initial, log + [rec]) == rec.after
  {
    LinkedOn(Steps(like), Opened(initial), log, rec);
  }

  function State(db: SqliteUserDb): Snapshot
    reads db
  {
    Snapshot(db.tables, db.rootDirs, db.filesId, db.wordsId, db.rootsId)
  }

  method PerformOnRoots(db: SqliteUserDb, call: Call) returns (rec: Record)
    requires db.Valid() && (call.Create? || call.AddRoot? || call.RemoveRoot?)
    modifies db, db.cache
    ensures db.Valid() && rec.call == call && rec.before == old(State(db)) && rec.after == State(db)
    ensures Step(db.like, rec) && db.Faults() == old(db.Faults()) + Broke(rec.outcome)
  {
    var before := State(db);
    var r := Done;
    match call {
      case Create(dirs) => r := db.Create(dirs);
      case AddRoot(dir) => r := db.AddRootDir(dir);
      case RemoveRoot(dir) => r := db.RemoveRootDir(dir);
    }
    rec := Record(call, before, r, State(db), []);
  }

  method PerformOnFiles(db: SqliteUserDb, call: Call) returns (rec: Record)
    requires db.Valid() && (call.Update? || call.Remove? || call.Move? || call.Search?)
    modifies db, db.cache
    ensures db.Valid() && rec.call == call && rec.before == old(State(db)) && rec.after == State(db)
    ensures Step(db.like, rec) && db.Faults() == old(db.Faults()) + Broke(rec.outcome)
  {
    var before := State(db);
    var r, answer := Done, [];
    match call {
      case Update(path, fingerprint, words) => r := db.UpdateFile(path, fingerprint, words);
      case Remove(path) => r := db.RemoveFile(path);
      case Move(source, target) => r := db.MoveFile(source, target);
      case Search(words) => r, answer := db.Search(words);
    }
    rec := Record(call, before, r, State(db), answer);
  }

  method Perform(db: SqliteUserDb, call: Call) returns (rec: Record)
    requires db.Valid()
    modifies db, db.cache
    ensures db.Valid() && rec.call == call && rec.before == old(State(db)) && rec.after == State(db)
    ensures Step(db.like, rec) && db.Faults() == old(db.Faults()) + Broke(rec.outcome)
  {
    if call.Create? || call.AddRoot? || call.RemoveRoot? {
      rec := PerformOnRoots(db, call);
    } else {
      rec := PerformOnFiles(db, call);
    }
  }

  /** How many calls of the log SQLite has broken off. */
  function FaultsOf(log: seq<Record>): nat
    decreases |log|
  {
    if log == [] then 0 else FaultsOf(log[..|log| - 1]) + Broke(log[|log| - 1].outcome)
  }

  lemma {:induction false} FaultsOn(log: seq<Record>, rec: Record)
    ensures FaultsOf(log + [rec]) == FaultsOf(log) + Broke(rec.outcome)
  {
    assert (log + [rec])[..|log|] == log;
  }

  lemma {:induction false} FaultsJoin(log: seq<Record>, more: seq<Record>)
    ensures FaultsOf(log + more) == FaultsOf(log) + FaultsOf(more)
    decreases |more|
  {
    if more == [] {
      assert log + more == log;
    } else {
      FaultsJoin(log, more[..|more| - 1]);
      assert (log + more)[..|log + more| - 1] == log + more[..|more| - 1];
    }
  }

  lemma {:induction false} FaultlessCalls(log: seq<Record>, k: nat)
    requires FaultsOf(log) == 0 && k < |log|
    ensures log[k].outcome in {Done, NoRoot, Constraint}
    decreases |log|
  {
    if k < |log| - 1 {
      FaultlessCalls(log[..|log| - 1], k);
      assert log[..|log| - 1][k] == log[k];
    } else {
      var o := log[k].outcome;
      assert Broke(o) == 0 && (o.Done? || o.NoRoot? || o.Constraint? || o.IoError? || o.CommitError?);
    }
  }

  /** Any run over any database: each call does what Step says, so that in every state the tables are consistent and
      every search that ends answers as if there were no cache. As many calls end with an error of SQLite as it has
      broken off statements. */
  method Session(initial: Tables, like: (string, string) -> bool, breaks: nat -> bool, calls: seq<Call>)
    returns (log: seq<Record>, statements: nat)
    requires Integrity(initial)
    ensures |log| == |calls| && Run(like, initial, calls, log)
    ensures FaultsOf(log) == Broken(breaks, statements)
    ensures NeverBreaks(breaks) ==> FaultsOf(log) == 0
  {
    var db := new SqliteUserDb(initial, like, breaks);
    log := [];
    for i := 0 to |calls|
      invariant db.Valid() && db.like == like && db.breaks == breaks && fresh(db) && fresh(db.cache)
      invariant db.Faults() == FaultsOf(log)
      invariant |log| == i && Run(like, initial, calls, log) && State(db) == Last(initial, log)
    {
      var rec := Perform(db, calls[i]);
      RunOn(like, initial, calls, log, rec);
      FaultsOn(log, rec);
      log := log + [rec];
    }
    statements := db.statements;
    assert db.Faults() == Broken(breaks, statements);
    if NeverBreaks(breaks) {
      NoneBroken(breaks, statements);
    }
  }
}
