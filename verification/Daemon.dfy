/** daemon/src: the scanner and the watcher, which reconcile themselves and the database with the configuration, and
    the life of the daemon. A command runs inside a task whose outcome nobody reads: when it throws, the next one
    follows. */
module Daemon {
  import opened Wrappers
  import opened Paths
  import opened Tables
  import opened UserConfigs
  import opened UserDb
  import opened Sessions
  import opened RootSteps
  import opened Reconciliation

  /** The log has the calls since the database was in state s and SQLite had broken off f statements: one for each call
      that ended with an error of SQLite. */
  ghost predicate Logged(db: SqliteUserDb, s: Snapshot, f: nat, log: seq<Record>)
    reads db
  {
    Chain(db.like, s, log, State(db)) && db.Faults() == f + FaultsOf(log)
  }

  /** FileScanner::Impl and FileWatcher::Impl: `workers` are the keys of their map. */
  class Observer {
    const db: SqliteUserDb
    var workers: set<Dir>

    constructor (db: SqliteUserDb)
      ensures this.db == db && workers == {}
    {
      this.db := db;
      workers := {};
    }

    /** user_config_changed, with the calls it makes on the database; an exception breaks it off after the call that
        throws. */
    method UserConfigChanged(config: set<Dir>, failing: set<Dir>) returns (log: seq<Record>)
      requires db.Valid()
      modifies this, db, db.cache
      ensures db.Valid() && Logged(db, old(State(db)), old(db.Faults()), log)
      ensures Follows(old(workers), config, log) && workers == WorkersOver(old(workers), log, failing)
    {
      var trash := EnumerateDirs(workers - config);
      var dirs := EnumerateDirs(config);
      log := DropTrash(trash, failing);
      var more := [];
      if AllDone(log) {
        ghost var kept, s := workers, State(db);
        KeptWorkers(old(workers), config, trash, log, failing);
        more := AddNew(dirs, config, failing);
        MissingSame(dirs, config, old(workers));
        LinkedJoin(Steps(db.like), old(State(db)), log, s, more, State(db));
        FaultsJoin(log, more);
        WorkersJoin(old(workers), log, more, failing);
      } else {
        assert log + more == log;
      }
      CarriedJoin(Removals(trash), log, Additions(Missing(dirs, old(workers))), more);
      log := log + more;
    }

    /** One call on the database, logged; s and w are the state and the workers the log begins with. */
    method DropWorker(dir: Dir, log: seq<Record>, ghost s: Snapshot, ghost f: nat, ghost w: set<Dir>,
                      ghost failing: set<Dir>)
      returns (rec: Record)
      requires db.Valid() && Logged(db, s, f, log) && workers == WorkersOver(w, log, failing)
      modifies this, db, db.cache
      ensures db.Valid() && Logged(db, s, f, log + [rec]) && workers == WorkersOver(w, log + [rec], failing)
      ensures rec.call == RemoveRoot(dir) && workers == old(workers) - {dir}
    {
      workers := workers - {dir};
      rec := Perform(db, RemoveRoot(dir));
      LinkedOn(Steps(db.like), s, log, rec);
      FaultsOn(log, rec);
      WorkersOn(w, log, rec, failing);
    }

    method StartWorker(dir: Dir, failing: set<Dir>, log: seq<Record>, ghost s: Snapshot, ghost f: nat,
                       ghost w: set<Dir>)
      returns (rec: Record)
      requires db.Valid() && Logged(db, s, f, log) && workers == WorkersOver(w, log, failing)
      modifies this, db, db.cache
      ensures db.Valid() && Logged(db, s, f, log + [rec]) && workers == WorkersOver(w, log + [rec], failing)
      ensures rec.call == AddRoot(dir) && old(workers) <= workers <= old(workers) + {dir}
    {
      rec := Perform(db, AddRoot(dir));
      if rec.outcome == Done && dir !in failing {
        workers := workers + {dir};
      }
      LinkedOn(Steps(db.like), s, log, rec);
      FaultsOn(log, rec);
      WorkersOn(w, log, rec, failing);
    }

    method DropTrash(trash: seq<Dir>, ghost failing: set<Dir>) returns (log: seq<Record>)
      requires db.Valid()
      modifies this, db, db.cache
      ensures db.Valid() && Logged(db, old(State(db)), old(db.Faults()), log)
      ensures Carried(Removals(trash), log) && workers == WorkersOver(old(workers), log, failing)
    {
      log := [];
      var ok := true;
      while |log| < |trash| && ok
        invariant db.Valid() && Logged(db, old(State(db)), old(db.Faults()), log)
        invariant Going(Removals(trash), log) && (ok <==> AllDone(log))
        invariant workers == WorkersOver(old(workers), log, failing)
        decreases |trash| - |log|
      {
        var rec := DropWorker(trash[|log|], log, old(State(db)), old(db.Faults()), old(workers), failing);
        GoingNext(Removals(trash), log, rec);
        ok := rec.outcome == Done;
        log := log + [rec];
      }
    }

    method AddNew(dirs: seq<Dir>, ghost config: set<Dir>, failing: set<Dir>) returns (log: seq<Record>)
      requires db.Valid() && Visits(dirs, config)
      modifies this, db, db.cache
      ensures db.Valid() && Logged(db, old(State(db)), old(db.Faults()), log)
      ensures Carried(Additions(Missing(dirs, old(workers))), log) && workers == WorkersOver(old(workers), log, failing)
    {
      log := [];
      var i := 0;
      while i < |dirs| && AllDone(log)
        invariant db.Valid() && Logged(db, old(State(db)), old(db.Faults()), log)
        invariant 0 <= i <= |dirs| && Adding(dirs[..i], old(workers), log, failing)
        decreases |dirs| - i
      {
        log := AddNext(dirs, config, i, failing, log, old(State(db)), old(db.Faults()), old(workers));
        i := i + 1;
      }
      AllAdding(dirs, old(workers), i, log);
    }

    /** The missing ones of the directories have been added in turn, up to the first call that failed. */
    predicate Adding(dirs: seq<Dir>, w: set<Dir>, log: seq<Record>, failing: set<Dir>)
      reads this`workers
    {
      && Going(Additions(Missing(dirs, w)), log) && (AllDone(log) ==> |log| == |Missing(dirs, w)|)
      && workers == WorkersOver(w, log, failing) && w <= workers <= w + Elements(dirs)
    }

    method AddNext(dirs: seq<Dir>, ghost config: set<Dir>, i: nat, failing: set<Dir>, log: seq<Record>,
                   ghost s: Snapshot, ghost f: nat, ghost w: set<Dir>)
      returns (longer: seq<Record>)
      requires db.Valid() && Logged(db, s, f, log) && Visits(dirs, config) && i < |dirs|
      requires Adding(dirs[..i], w, log, failing) && AllDone(log)
      modifies this, db, db.cache
      ensures db.Valid() && Logged(db, s, f, longer) && Adding(dirs[..i + 1], w, longer, failing)
    {
      MissingNext(dirs, config, w, i);
      longer := log;
      if dirs[i] !in workers {
        var rec := StartWorker(dirs[i], failing, log, s, f, w);
        AddedNext(dirs, config, w, i, log, rec);
        longer := log + [rec];
      }
    }
  }

  lemma {:induction false} AllAdding(dirs: seq<Dir>, workers: set<Dir>, i: nat, log: seq<Record>)
    requires i <= |dirs| && Going(Additions(Missing(dirs[..i], workers)), log)
    requires AllDone(log) ==> i == |dirs| && |log| == |Missing(dirs[..i], workers)|
    ensures Carried(Additions(Missing(dirs, workers)), log)
  {
    MissingPrefix(dirs, workers, i);
    assert i == |dirs| ==> dirs[..i] == dirs;
  }

  lemma MissingNext(dirs: seq<Dir>, config: set<Dir>, workers: set<Dir>, i: nat)
    requires Visits(dirs, config) && i < |dirs|
    ensures dirs[i] !in Elements(dirs[..i]) && Elements(dirs[..i + 1]) == Elements(dirs[..i]) + {dirs[i]}
    ensures Missing(dirs[..i + 1], workers)
            == Missing(dirs[..i], workers) + if dirs[i] in workers then [] else [dirs[i]]
  {
    NextElement(dirs, i);
    assert dirs[..i + 1][..i] == dirs[..i];
  }

  lemma {:induction false} AddedNext(dirs: seq<Dir>, config: set<Dir>, workers: set<Dir>, i: nat, log: seq<Record>,
                                     rec: Record)
    requires Visits(dirs, config) && i < |dirs| && dirs[i] !in workers && rec.call == AddRoot(dirs[i])
    requires Going(Additions(Missing(dirs[..i], workers)), log)
    requires AllDone(log) && |log| == |Missing(dirs[..i], workers)|
    ensures Going(Additions(Missing(dirs[..i + 1], workers)), log + [rec])
    ensures |log + [rec]| == |Missing(dirs[..i + 1], workers)| && (AllDone(log + [rec]) <==> rec.outcome == Done)
  {
    MissingNext(dirs, config, workers, i);
    GoingOn(Additions(Missing(dirs[..i], workers)), Additions(Missing(dirs[..i + 1], workers)), log, rec);
  }

  // ---- the state and its changes ----

  /** `notified` is the configuration the observers were last told of. */
  datatype Roots = Roots(config: set<Dir>, notified: set<Dir>, scanners: set<Dir>, watchers: set<Dir>, held: Held)

  /** Observers are told in the order of their addresses. */
  function TeamOf(s: Roots, scannerFirst: bool): Team {
    if scannerFirst then Team(s.scanners, s.watchers, s.held) else Team(s.watchers, s.scanners, s.held)
  }

  ghost predicate Round(s: Roots, s': Roots, scannerFails: set<Dir>, watcherFails: set<Dir>, scannerFirst: bool,
                        first: seq<Record>, second: seq<Record>) {
    && s'.config == s.config && s'.notified == s.config
    && Reconciles(TeamOf(s, scannerFirst), TeamOf(s', scannerFirst), s.config,
                  if scannerFirst then scannerFails else watcherFails,
                  if scannerFirst then watcherFails else scannerFails,
                  first, second)
  }

  datatype Event =
    | ConfigChanged(document: Document, present: set<Path>, scannerFails: set<Dir>, watcherFails: set<Dir>,
        scannerFirst: bool)
    | ConfigLost(documents: Dir, present: set<Path>)
    | FileCommand(call: Call)

  predicate IsFileCall(call: Call) {
    call.Update? || call.Remove? || call.Move? || call.Search?
  }

  /** A command and what it does: the calls of the one observer and of the other, or the call of a file command; and
      what the database and the daemon were before and are after it. */
  datatype Moment = Moment(event: Event, dbBefore: Snapshot, before: Roots, first: seq<Record>, second: seq<Record>,
                           dbAfter: Snapshot, after: Roots)

  /** Whatever fails in it, the command leaves this. */
  ghost predicate Does(m: Moment) {
    match m.event
    case ConfigChanged(document, present, scannerFails, watcherFails, scannerFirst) =>
      var read := m.before.(config := ReadRoots(m.before.config, document, present));
      if Readable(document) then Round(read, m.after, scannerFails, watcherFails, scannerFirst, m.first, m.second)
      else m.first == m.second == [] && m.after == read
    case ConfigLost(documents, present) =>
      m.first == m.second == [] && m.after == m.before.(config := Populated(m.before.config, documents, present))
    case FileCommand(call) =>
      |m.first| == 1 && m.first[0].call == call && m.second == [] && m.after == m.before
  }

  ghost predicate Handled(like: (string, string) -> bool, m: Moment) {
    && Does(m)
    && Numbering(m.dbBefore) && m.before.held == HeldBy(m.dbBefore)
    && Numbering(m.dbAfter) && m.after.held == HeldBy(m.dbAfter)
    && Chain(like, m.dbBefore, m.first + m.second, m.dbAfter) && NoCreate(m.first + m.second)
  }

  /** Holds in every state of the daemon, whatever has failed: a root that the map has lost, one of the observers
      has lost too; and the configuration last told of is un-nested. */
  ghost predicate Sound(s: Roots) {
    s.scanners * s.watchers <= s.held.known && Unnested(s.notified)
  }

  lemma HandledSound(m: Moment)
    requires Does(m) && Sound(m.before)
    ensures Sound(m.after)
  {
    match m.event
    case ConfigChanged(document, present, scannerFails, watcherFails, scannerFirst) =>
      if Readable(document) {
        var read := m.before.(config := ReadRoots(m.before.config, document, present));
        ReadIsUnnested(m.before.config, document, present);
        SharedKept(TeamOf(read, scannerFirst), TeamOf(m.after, scannerFirst), read.config,
                   if scannerFirst then scannerFails else watcherFails,
                   if scannerFirst then watcherFails else scannerFails,
                   m.first, m.second);
      }
    case _ =>
  }

  // ---- the daemon ----

  class Daemon {
    const config: UserConfig
    const db: SqliteUserDb
    const scanner: Observer
    const watcher: Observer
    ghost var notified: set<Dir>

    ghost predicate Valid()
      reads this, db, db.cache
    {
      db.Valid() && scanner.db == db && watcher.db == db && scanner != watcher
    }

    ghost predicate Running()
      reads this, db, db.cache
    {
      Valid() && Numbering(Sessions.State(db))
    }

    ghost function State(): Roots
      reads this, config, db, scanner, watcher
    {
      Roots(config.rootDirs, notified, scanner.workers, watcher.workers, HeldBy(Sessions.State(db)))
    }

    constructor (kept: Tables, like: (string, string) -> bool, breaks: nat -> bool)
      requires Integrity(kept)
      ensures Valid() && fresh(config) && fresh(db) && fresh(db.cache) && fresh(scanner) && fresh(watcher)
      ensures Sessions.State(db) == Opened(kept) && db.like == like && db.breaks == breaks && db.statements == 0
      ensures config.rootDirs == notified == scanner.workers == watcher.workers == {}
    {
      var db := new SqliteUserDb(kept, like, breaks);
      this.config := new UserConfig();
      this.db := db;
      this.scanner := new Observer(db);
      this.watcher := new Observer(db);
      this.notified := {};
    }

    /** Both observers, in either order; an exception in the first keeps the second from being told. */
    method Notify(scannerFails: set<Dir>, watcherFails: set<Dir>, scannerFirst: bool)
      returns (first: seq<Record>, second: seq<Record>)
      requires Running()
      modifies this, scanner, watcher, db, db.cache
      ensures Running() && Logged(db, old(Sessions.State(db)), old(db.Faults()), first + second)
      ensures NoCreate(first + second)
      ensures Round(old(State()), State(), scannerFails, watcherFails, scannerFirst, first, second)
    {
      notified := config.rootDirs;
      if scannerFirst {
        first, second := TellBoth(scanner, watcher, scannerFails, watcherFails);
      } else {
        first, second := TellBoth(watcher, scanner, watcherFails, scannerFails);
      }
    }

    method TellBoth(one: Observer, other: Observer, fails: set<Dir>, fails': set<Dir>)
      returns (first: seq<Record>, second: seq<Record>)
      requires Running() && one.db == db && other.db == db && one != other
      modifies one, other, db, db.cache
      ensures Running() && Logged(db, old(Sessions.State(db)), old(db.Faults()), first + second)
      ensures NoCreate(first + second)
      ensures Reconciles(Team(old(one.workers), old(other.workers), HeldBy(old(Sessions.State(db)))),
                         Team(one.workers, other.workers, HeldBy(Sessions.State(db))), config.rootDirs,
                         fails, fails', first, second)
    {
      ghost var s, w, w' := Sessions.State(db), one.workers, other.workers;
      first := one.UserConfigChanged(config.rootDirs, fails);
      ghost var mid := Sessions.State(db);
      second := [];
      if AllDone(first) {
        second := other.UserConfigChanged(config.rootDirs, fails');
      }
      PassesReconcile(db.like, s, first, mid, second, Sessions.State(db), w, w', config.rootDirs, fails, fails');
    }

    /** One command of the queue, to its end or to its exception. */
    method Handle(event: Event) returns (ghost m: Moment)
      requires Running() && (event.FileCommand? ==> IsFileCall(event.call))
      modifies this, config, scanner, watcher, db, db.cache
      ensures Running() && Handled(db.like, m) && m.event == event
      ensures db.Faults() == old(db.Faults()) + FaultsOf(m.first + m.second)
      ensures m.before == old(State()) && m.dbBefore == old(Sessions.State(db))
      ensures m.after == State() && m.dbAfter == Sessions.State(db)
    {
      ghost var s, d := State(), Sessions.State(db);
      var first, second := [], [];
      match event {
        case ConfigChanged(document, present, scannerFails, watcherFails, scannerFirst) =>
          var ok := config.Read(document, present);
          if ok {
            first, second := Notify(scannerFails, watcherFails, scannerFirst);
          }
        case ConfigLost(documents, present) =>
          var ok := config.Populate(documents, present);
        case FileCommand(call) =>
          first := PerformFile(call);
      }
      m := Moment(event, d, s, first, second, Sessions.State(db), State());
      assert first + [] == first;
    }

    method PerformOne(call: Call) returns (rec: Record)
      requires Valid()
      modifies db, db.cache
      ensures Valid() && Step(db.like, rec) && rec.call == call && Logged(db, rec.before, old(db.Faults()), [rec])
      ensures rec.before == old(Sessions.State(db)) && rec.after == Sessions.State(db)
    {
      rec := Perform(db, call);
      LinkedOn(Steps(db.like), rec.before, [], rec);
      FaultsOn([], rec);
      assert [] + [rec] == [rec];
    }

    method PerformFile(call: Call) returns (log: seq<Record>)
      requires Running() && IsFileCall(call)
      modifies db, db.cache
      ensures Running() && |log| == 1 && log[0].call == call && NoCreate(log)
      ensures Logged(db, old(Sessions.State(db)), old(db.Faults()), log)
      ensures HeldBy(Sessions.State(db)) == HeldBy(old(Sessions.State(db)))
    {
      var rec := PerformOne(call);
      HeldStep(db.like, rec);
      log := [rec];
    }

    /** main, up to the observers: the configuration is read, or populated when there is no file, and the database is
        created with its roots. An exception here ends the program. */
    method Start(file: Option<Document>, documents: Dir, present: set<Path>) returns (ok: bool, log: seq<Record>)
      requires Valid() && config.rootDirs == {} && notified == scanner.workers == watcher.workers == {}
      modifies config, db, db.cache
      ensures Valid() && Logged(db, old(Sessions.State(db)), old(db.Faults()), log)
      ensures var roots := FirstRoots(file, documents, present);
        if CanStart(file, documents, present) then |log| == 1 && log[0].call == Create(roots) else log == []
      ensures ok <==> CanStart(file, documents, present) && log[0].outcome == Done
      ensures ok ==> Running()
      ensures ok ==> var roots := FirstRoots(file, documents, present);
        State() == Roots(roots, {}, {}, {}, Held(roots, roots)) && Unnested(roots)
    {
      match file {
        case Some(document) =>
          ok := config.Read(document, present);
        case None =>
          ok := config.Populate(documents, present);
      }
      log := [];
      if ok {
        FirstRootsUnnested(file, documents, present);
        var rec := CreateDatabase();
        log := [rec];
        ok := rec.outcome == Done;
      }
    }

    method CreateDatabase() returns (rec: Record)
      requires Valid()
      modifies db, db.cache
      ensures Valid() && rec.call == Create(config.rootDirs)
      ensures Logged(db, old(Sessions.State(db)), old(db.Faults()), [rec])
      ensures rec.outcome == Done ==> Running() && HeldBy(Sessions.State(db)) == Held(config.rootDirs, config.rootDirs)
    {
      rec := PerformOne(Create(config.rootDirs));
      if rec.outcome == Done {
        CreatedHeld(db.like, rec);
      }
    }
  }

  predicate CanStart(file: Option<Document>, documents: Dir, present: set<Path>) {
    match file
    case Some(document) => Readable(document)
    case None => Path(true, documents) in present || Path(true, Parent(documents)) in present
  }

  /** The roots a daemon starts with. */
  ghost function FirstRoots(file: Option<Document>, documents: Dir, present: set<Path>): set<Dir> {
    match file
    case Some(document) => ReadRoots({}, document, present)
    case None => Populated({}, documents, present)
  }

  lemma FirstRootsUnnested(file: Option<Document>, documents: Dir, present: set<Path>)
    requires CanStart(file, documents, present)
    ensures Unnested(FirstRoots(file, documents, present))
  {
    if file.Some? {
      ReadIsUnnested({}, file.value, present);
    }
  }

  /** A pass, from the state of the database it begins with to the one it ends with. */
  lemma {:induction false} PassHeld(like: (string, string) -> bool, s: Snapshot, log: seq<Record>, s': Snapshot,
                                    workers: set<Dir>, config: set<Dir>, failing: set<Dir>)
    requires Chain(like, s, log, s') && Numbering(s) && Follows(workers, config, log)
    ensures Numbering(s') && NoCreate(log) && FeasibleLog(Progress(workers, HeldBy(s)), log, failing)
    ensures Over(Progress(workers, HeldBy(s)), log, failing) == Progress(WorkersOver(workers, log, failing), HeldBy(s'))
  {
    PlannedRootCalls(workers, config, log);
    OverHeld(like, s, log, s', workers, failing);
    OverWorkers(Progress(workers, HeldBy(s)), log, failing);
  }

  /** Two passes, one after the other. */
  lemma {:induction false} PassesReconcile(like: (string, string) -> bool, s: Snapshot, first: seq<Record>,
                                           mid: Snapshot, second: seq<Record>, s': Snapshot, w: set<Dir>, w': set<Dir>,
                                           config: set<Dir>, fails: set<Dir>, fails': set<Dir>)
    requires Chain(like, s, first, mid) && Chain(like, mid, second, s') && Numbering(s)
    requires Follows(w, config, first) && if AllDone(first) then Follows(w', config, second) else second == []
    ensures Numbering(s') && NoCreate(first + second) && Chain(like, s, first + second, s')
    ensures FaultsOf(first + second) == FaultsOf(first) + FaultsOf(second)
    ensures Reconciles(Team(w, w', HeldBy(s)),
                       Team(WorkersOver(w, first, fails), WorkersOver(w', second, fails'), HeldBy(s')),
                       config, fails, fails', first, second)
  {
    PassHeld(like, s, first, mid, w, config, fails);
    if AllDone(first) {
      PassHeld(like, mid, second, s', w', config, fails');
    }
    LinkedJoin(Steps(like), s, first, mid, second, s');
    FaultsJoin(first, second);
  }
}
