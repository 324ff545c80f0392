/** Runs of the database against the meaning of its tables: absolute path -> set of words. */
module Refinement {
  import opened Wrappers
  import opened Orders
  import opened Paths
  import opened Fingerprints
  import opened SearchCaches
  import opened Tables
  import opened Index
  import opened UserDb
  import opened Sessions

  // ---- health: table and map in step, counters ahead ----

  ghost predicate Healthy(s: Snapshot) {
    && Integrity(s.tables) && InSync(s.tables, s.rootDirs)
    && IdsBelow(s.tables, s.filesId, s.wordsId, s.rootsId)
  }

  /** The call did not leave the root map ahead of the rolled-back roots table. */
  predicate RootsKept(rec: Record) {
    && (rec.call.AddRoot? || rec.call.RemoveRoot? ==> rec.outcome != CommitError)
    && (rec.call.Create? ==> rec.outcome == Done)
  }

  lemma SyncedRoots(t: Tables, rootDirs: map<Dir, int>)
    requires InSync(t, rootDirs)
    ensures RootDirs(t) == rootDirs.Keys
  {
    forall d ensures d in RootDirs(t) <==> d in rootDirs {
      if d in rootDirs {
        var i := rootDirs[d];
        assert i in t.roots && t.roots[i] == d;
      }
      if d in RootDirs(t) {
        var i :| i in t.roots && t.roots[i] == d;
      }
    }
  }

  lemma ResolvedPlace(t: Tables, rootDirs: map<Dir, int>, p: Dir)
    requires InSync(t, rootDirs) && Resolve(rootDirs, p).Some?
    ensures var (rel, root) := Resolve(rootDirs, p).value;
            root in t.roots && IsAncestor(t.roots[root], p) && rel == Relative(p, t.roots[root]) && rel != []
  {
  }

  lemma RemoveKeepsSync(t: Tables, rootDirs: map<Dir, int>, dir: Dir)
    requires Integrity(t) && InSync(t, rootDirs) && dir in rootDirs
    ensures RootsNamed(t, dir) == {rootDirs[dir]}
    ensures InSync(DeleteRoots(t, RootsNamed(t, dir)), rootDirs - {dir})
  {
    forall i | i in RootsNamed(t, dir) ensures i == rootDirs[dir] {
      assert t.roots[i] == dir;
    }
    Singleton(RootsNamed(t, dir), rootDirs[dir]);
  }

  lemma IndexingKeepsIds(t: Tables, file: int, row: FileRow, next: int, rootsId: int, words: seq<string>)
    requires Integrity(t) && row.path != [] && IdsBelow(t, file, next, rootsId)
    requires IndexFile(t, file, row, next, words).Some?
    ensures var (t', next') := IndexFile(t, file, row, next, words).value;
            Integrity(t') && t'.roots == t.roots && IdsBelow(t', file + 1, next', rootsId)
  {
    var t1 := DeleteFiles(t, FilesAt(t, row.path, row.root));
    DeleteFilesEffect(t, FilesAt(t, row.path, row.root));
    InsertFileEffect(t1, file, row);
    IndexWordsEffect(InsertFile(t1, file, row).value, file, next, words);
  }

  /** With the root map in step, update_file is refused exactly when a counter hands out a taken id. */
  lemma IndexingSucceeds(t: Tables, rootDirs: map<Dir, int>, path: Dir, fingerprint: Fingerprint, file: int, next: int,
                         words: seq<string>)
    requires Integrity(t) && InSync(t, rootDirs) && Resolve(rootDirs, path).Some?
    ensures var (rel, root) := Resolve(rootDirs, path).value;
            Indexing(t, rootDirs, path, fingerprint, file, next, words).Some? <==>
              (file in t.files ==> file in FilesAt(t, rel, root)) && IdsFree(t.words, next, |Words(words) - Texts(t)|)
  {
    ResolvedPlace(t, rootDirs, path);
    var (rel, root) := Resolve(rootDirs, path).value;
    UpdateFileSucceeds(t, file, FileRow(root, rel, Serialize(fingerprint)), next, words);
  }

  /** After a restart create keeps the words but the counter is 0 again: as long as some kept word
      has id 0, a file with a word that is not kept is refused. */
  lemma RestartRefusesNewWords(t: Tables, rootDirs: map<Dir, int>, kept: map<int, string>, dirs: set<Dir>, to: int,
                               path: Dir, fingerprint: Fingerprint, file: int, words: seq<string>, word: string)
    requires Rebuilt(t, rootDirs, kept, dirs, 0, to) && Resolve(rootDirs, path).Some?
    requires 0 in kept && word in words && word !in kept.Values
    ensures Indexing(t, rootDirs, path, fingerprint, file, 0, words).None?
  {
    IndexingSucceeds(t, rootDirs, path, fingerprint, file, 0, words);
    assert word in Words(words) - Texts(t);
    assert |Words(words) - Texts(t)| > 0;
  }

  // ---- refusals after a restart ----

  /** The ids a counter has still to run into. */
  ghost function Taken(words: map<int, string>, counter: int): set<int> {
    set i | i in words && i >= counter
  }

  /** The call was refused because the word counter handed out an id already in use. */
  ghost predicate WordRefused(rec: Record) {
    rec.call.Update? && rec.outcome == Constraint && rec.after.wordsId != rec.before.wordsId
  }

  lemma DrawnTaken(w: map<int, string>, from: int, to: int)
    requires from <= to && forall k :: from <= k < to - 1 ==> k !in w
    ensures Taken(w, to) == Taken(w, from) - if from < to then {to - 1} else {}
  {
  }

  lemma AddedTaken(w: map<int, string>, w': map<int, string>, from: int, to: int)
    requires from <= to && (forall i :: i in w' <==> i in w || from <= i < to) && forall i :: from <= i < to ==> i !in w
    ensures Taken(w', to) == Taken(w, from)
  {
  }

  lemma IndexFileIds(t: Tables, file: int, row: FileRow, next: int, words: seq<string>)
    requires Integrity(t) && row.path != [] && IndexFile(t, file, row, next, words).Some?
    ensures var (t', to) := IndexFile(t, file, row, next, words).value;
            && next <= to
            && (forall i :: i in t'.words <==> i in t.words || next <= i < to)
            && (forall i :: next <= i < to ==> i !in t.words)
  {
    var t1 := DeleteFiles(t, FilesAt(t, row.path, row.root));
    DeleteFilesEffect(t, FilesAt(t, row.path, row.root));
    InsertFileEffect(t1, file, row);
    IndexWordsIds(InsertFile(t1, file, row).value, file, next, words);
  }

  lemma UpdateTaken(like: (string, string) -> bool, rec: Record)
    requires rec.call.Update? && rec.outcome == Done && Step(like, rec)
    ensures Taken(rec.after.tables.words, rec.after.wordsId) == Taken(rec.before.tables.words, rec.before.wordsId)
  {
    var s, c := rec.before, rec.call;
    var (rel, root) := Resolve(s.rootDirs, c.path).value;
    IndexFileIds(s.tables, s.filesId, FileRow(root, rel, Serialize(c.fingerprint)), s.wordsId, c.words);
    AddedTaken(s.tables.words, rec.after.tables.words, s.wordsId, rec.after.wordsId);
  }

  lemma RefusedTaken(s: Snapshot, s': Snapshot, r: Outcome, path: Dir, fingerprint: Fingerprint, words: seq<string>)
    requires UpdateStep(s, s', r, path, fingerprint, words) && s'.tables == s.tables
    ensures var before, after := Taken(s.tables.words, s.wordsId), Taken(s'.tables.words, s'.wordsId);
            && after <= before
            && (r == Constraint && s'.wordsId != s.wordsId
                ==> s'.wordsId - 1 in before && after == before - {s'.wordsId - 1})
  {
    DrawnTaken(s.tables.words, s.wordsId, s'.wordsId);
  }

  lemma OthersTakeNone(like: (string, string) -> bool, rec: Record)
    requires !rec.call.Update? && Step(like, rec)
    ensures rec.after.tables.words == rec.before.tables.words && rec.after.wordsId == rec.before.wordsId
  {
  }

  /** No call puts an id in the way of the word counter, and a refusal takes exactly one out of it. */
  lemma TakenStep(like: (string, string) -> bool, rec: Record)
    requires Step(like, rec)
    ensures var before := Taken(rec.before.tables.words, rec.before.wordsId);
            var after := Taken(rec.after.tables.words, rec.after.wordsId);
            && after <= before
            && (WordRefused(rec) ==> rec.after.wordsId - 1 in before && after == before - {rec.after.wordsId - 1})
  {
    if !rec.call.Update? {
      OthersTakeNone(like, rec);
    } else if rec.outcome == Done {
      UpdateTaken(like, rec);
    } else {
      RefusedTaken(rec.before, rec.after, rec.outcome, rec.call.path, rec.call.fingerprint, rec.call.words);
    }
  }

  ghost function WordRefusals(log: seq<Record>): nat
    decreases |log|
  {
    if log == [] then 0 else WordRefusals(log[..|log| - 1]) + if WordRefused(log[|log| - 1]) then 1 else 0
  }

  lemma {:induction false} RefusalsFrom(like: (string, string) -> bool, s: Snapshot, log: seq<Record>, s': Snapshot)
    requires Chain(like, s, log, s')
    ensures WordRefusals(log) + |Taken(s'.tables.words, s'.wordsId)| <= |Taken(s.tables.words, s.wordsId)|
    decreases |log|
  {
    if log != [] {
      var rec := log[|log| - 1];
      RefusalsFrom(like, s, log[..|log| - 1], rec.before);
      TakenStep(like, rec);
      Smaller(Taken(s'.tables.words, s'.wordsId), Taken(rec.before.tables.words, rec.before.wordsId));
    }
  }

  /** In a whole session no more updates are refused by a word id than there were words kept. */
  lemma {:induction false} RefusalsBounded(like: (string, string) -> bool, initial: Tables, calls: seq<Call>,
                                           log: seq<Record>)
    requires Run(like, initial, calls, log)
    ensures WordRefusals(log) <= |initial.words|
  {
    RefusalsFrom(like, Opened(initial), log, Last(initial, log));
    Smaller(Taken(initial.words, 0), initial.words.Keys);
  }

  /** When the kept words have the ids below n, every update with a new word that SQLite does not break off is refused,
      and moves the counter on by one, until the counter is n: then none is refused any more. */
  lemma RefusedUntil(like: (string, string) -> bool, rec: Record, n: int)
    requires rec.call.Update? && Step(like, rec) && rec.outcome in {Done, Constraint}
    requires InSync(rec.before.tables, rec.before.rootDirs) && rec.before.filesId !in rec.before.tables.files
    requires 0 <= rec.before.wordsId <= n && forall i :: i in rec.before.tables.words <==> 0 <= i < n
    requires Words(rec.call.words) - Texts(rec.before.tables) != {}
    ensures rec.outcome == Constraint <==> rec.before.wordsId < n
    ensures rec.outcome == Constraint ==> rec.after.wordsId == rec.before.wordsId + 1
  {
    var s, c := rec.before, rec.call;
    ResolvedPlace(s.tables, s.rootDirs, c.path);
    if rec.outcome == Constraint {
      RowAccepted(s.tables, s.filesId, RowOf(s.rootDirs, c.path, c.fingerprint));
      RefusedAtTaken(s.tables.words, n, s.wordsId, rec.after.wordsId);
    } else {
      IndexingSucceeds(s.tables, s.rootDirs, c.path, c.fingerprint, s.filesId, s.wordsId, c.words);
      FreeIsBeyond(s.tables.words, n, s.wordsId, Words(c.words) - Texts(s.tables));
    }
  }

  lemma RefusedAtTaken(w: map<int, string>, n: int, from: int, to: int)
    requires (forall i :: i in w <==> 0 <= i < n) && 0 <= from < to && to - 1 in w
    requires forall k :: from <= k < to - 1 ==> k !in w
    ensures from < n && to == from + 1
  {
    assert from == to - 1 || from !in w;
  }

  lemma FreeIsBeyond(w: map<int, string>, n: int, from: int, added: set<string>)
    requires (forall i :: i in w <==> 0 <= i < n) && 0 <= from && added != {} && IdsFree(w, from, |added|)
    ensures from >= n
  {
    assert from !in w;
  }

  lemma RowAccepted(t: Tables, file: int, row: FileRow)
    requires file !in t.files && row.root in t.roots
    ensures !RowRefused(t, file, row)
  {
  }

  lemma HealthyCreate(like: (string, string) -> bool, rec: Record)
    requires rec.call.Create? && Healthy(rec.before) && Step(like, rec) && RootsKept(rec)
    ensures Healthy(rec.after) && rec.outcome != Constraint
  {
  }

  lemma HealthyRoots(like: (string, string) -> bool, rec: Record)
    requires rec.call.AddRoot? || rec.call.RemoveRoot?
    requires Healthy(rec.before) && Step(like, rec) && RootsKept(rec)
    ensures Healthy(rec.after) && rec.outcome != Constraint
  {
    var s := rec.before;
    if rec.call.AddRoot? {
      if rec.call.dir !in s.rootDirs {
        InsertKeepsSync(s.tables, s.rootDirs, s.rootsId, rec.call.dir);
      }
    } else if rec.call.dir in s.rootDirs {
      RemoveKeepsSync(s.tables, s.rootDirs, rec.call.dir);
    }
  }

  lemma BelowHigher(t: Tables, filesId: int, wordsId: int, rootsId: int, filesId': int, wordsId': int)
    requires IdsBelow(t, filesId, wordsId, rootsId) && filesId <= filesId' && wordsId <= wordsId'
    ensures IdsBelow(t, filesId', wordsId', rootsId)
  {
  }

  lemma HealthyUpdate(like: (string, string) -> bool, rec: Record)
    requires rec.call.Update? && Healthy(rec.before) && Step(like, rec)
    ensures Healthy(rec.after) && rec.outcome != Constraint
  {
    var s, s', c := rec.before, rec.after, rec.call;
    if rec.outcome != NoRoot {
      ResolvedPlace(s.tables, s.rootDirs, c.path);
      IndexingSucceeds(s.tables, s.rootDirs, c.path, c.fingerprint, s.filesId, s.wordsId, c.words);
      var (rel, root) := Resolve(s.rootDirs, c.path).value;
      IndexingKeepsIds(
        s.tables, s.filesId, FileRow(root, rel, Serialize(c.fingerprint)), s.wordsId, s.rootsId, c.words);
    }
    if rec.outcome != Done {
      BelowHigher(s.tables, s.filesId, s.wordsId, s.rootsId, s'.filesId, s'.wordsId);
    }
  }

  lemma HealthyFiles(like: (string, string) -> bool, rec: Record)
    requires rec.call.Remove? || rec.call.Move? || rec.call.Search?
    requires Healthy(rec.before) && Step(like, rec)
    ensures Healthy(rec.after) && rec.outcome != Constraint
  {
    var s, c := rec.before, rec.call;
    if c.Move? && rec.outcome != NoRoot {
      ResolvedPlace(s.tables, s.rootDirs, c.source);
      ResolvedPlace(s.tables, s.rootDirs, c.target);
    }
  }

  lemma HealthyStep(like: (string, string) -> bool, rec: Record)
    requires Healthy(rec.before) && Step(like, rec) && RootsKept(rec)
    ensures Healthy(rec.after) && rec.outcome != Constraint
  {
    match rec.call {
      case Create(_) => HealthyCreate(like, rec);
      case AddRoot(_) => HealthyRoots(like, rec);
      case RemoveRoot(_) => HealthyRoots(like, rec);
      case Update(_, _, _) => HealthyUpdate(like, rec);
      case Remove(_) => HealthyFiles(like, rec);
      case Move(_, _) => HealthyFiles(like, rec);
      case Search(_) => HealthyFiles(like, rec);
    }
  }

  /** From empty tables, as long as no root change is rolled back: in every state of every run the
      roots table and the root map agree, each counter exceeds every id in use, and so no constraint
      ever refuses a call. */
  lemma {:induction false} HealthyRun(like: (string, string) -> bool, calls: seq<Call>, log: seq<Record>, k: nat)
    requires Run(like, Tables(map[], map[], map[], []), calls, log) && k < |log|
    requires forall j :: 0 <= j < |log| ==> RootsKept(log[j])
    ensures Step(like, log[k]) && Healthy(log[k].before) && Healthy(log[k].after) && log[k].outcome != Constraint
  {
    var empty := Tables(map[], map[], map[], []);
    forall j | 0 <= j < |log| && Healthy(log[j].before) && Step(like, log[j]) ensures Healthy(log[j].after) {
      HealthyStep(like, log[j]);
    }
    LinkedKeeps(Steps(like), Healthy, Opened(empty), log, Last(empty, log), k);
    HealthyStep(like, log[k]);
  }

  /** The call finds a root for each path it is about. */
  ghost predicate Rooted(rec: Record) {
    match rec.call
    case Update(path, _, _) => Resolve(rec.before.rootDirs, path).Some?
    case Remove(path) => Resolve(rec.before.rootDirs, path).Some?
    case Move(source, target) =>
      Resolve(rec.before.rootDirs, source).Some? && Resolve(rec.before.rootDirs, target).Some?
    case _ => true
  }

  lemma OutcomeRooted(like: (string, string) -> bool, rec: Record)
    requires Step(like, rec) && rec.outcome in {Done, NoRoot}
    ensures rec.outcome == Done <==> Rooted(rec)
  {
  }

  /** While SQLite breaks off nothing, the calls of a run from empty tables fail only for want of a root. */
  lemma {:induction false} FaultlessRun(like: (string, string) -> bool, calls: seq<Call>, log: seq<Record>, k: nat)
    requires Run(like, Tables(map[], map[], map[], []), calls, log) && k < |log| && FaultsOf(log) == 0
    ensures Healthy(log[k].after) && log[k].outcome == if Rooted(log[k]) then Done else NoRoot
    ensures Unnested(log[k].before.rootDirs.Keys) && Rooted(log[k]) ==> Means(like, log[k])
  {
    var empty := Tables(map[], map[], map[], []);
    forall j | 0 <= j < |log| ensures RootsKept(log[j]) {
      FaultlessCalls(log, j);
      LinkedAt(Steps(like), Opened(empty), log, Last(empty, log), j);
    }
    HealthyRun(like, calls, log, k);
    FaultlessCalls(log, k);
    OutcomeRooted(like, log[k]);
    if Unnested(log[k].before.rootDirs.Keys) {
      CallMeans(like, log[k]);
    }
  }

  /** A root change keeps table and map in step exactly when its commit does not fail. */
  lemma SyncExact(like: (string, string) -> bool, rec: Record)
    requires rec.call.AddRoot? || rec.call.RemoveRoot?
    requires Healthy(rec.before) && Step(like, rec)
    ensures InSync(rec.after.tables, rec.after.rootDirs) <==> rec.outcome != CommitError
  {
    if rec.outcome != CommitError {
      HealthyRoots(like, rec);
    } else if rec.call.AddRoot? {
      var d := rec.call.dir;
      assert d in rec.after.rootDirs && rec.after.rootDirs[d] == rec.before.rootsId;
      assert rec.before.rootsId !in rec.after.tables.roots;
    } else {
      var i := rec.before.rootDirs[rec.call.dir];
      assert i in rec.after.tables.roots && rec.after.tables.roots[i] !in rec.after.rootDirs;
    }
  }

  // ---- meaning ----

  /** No root holds the relative path, except at the given places. */
  ghost predicate HeldOnlyAt(roots: set<Dir>, docs: map<Dir, set<string>>, rel: Dir, places: set<Dir>) {
    forall d :: d in roots && Join(d, rel) !in places ==> Join(d, rel) !in docs
  }

  lemma NamedIsHeld(t: Tables, rel: Dir, places: set<Dir>)
    requires UnnestedRoots(t) && rel != []
    ensures (forall f :: f in FilesNamed(t, rel) ==> PathOf(t, f) in places)
            <==> HeldOnlyAt(RootDirs(t), Docs(t), rel, places)
  {
    if d :| d in RootDirs(t) && Join(d, rel) !in places && Join(d, rel) in Docs(t) {
      var p := Join(d, rel);
      IndexedAt(t, p);
      var f :| At(t, p, f);
      SplitPlace(t, f, d, rel);
      assert f in FilesNamed(t, rel);
    } else {
      forall f | f in FilesNamed(t, rel) ensures PathOf(t, f) in places {
        var d := t.roots[t.files[f].root];
        assert d in RootDirs(t) && PathOf(t, f) == Join(d, rel) && At(t, Join(d, rel), f);
        IndexedAt(t, Join(d, rel));
      }
    }
  }

  lemma OnlyHereIsHeld(t: Tables, rel: Dir, source: Dir, target: Dir)
    requires UnnestedRoots(t) && rel != []
    ensures OnlyHere(t, rel, source, target) <==> HeldOnlyAt(RootDirs(t), Docs(t), rel, {source, target})
  {
    NamedIsHeld(t, rel, {source, target});
  }

  lemma SplitPlace(t: Tables, f: int, d: Dir, rel: Dir)
    requires UnnestedRoots(t) && At(t, Join(d, rel), f) && d in RootDirs(t) && rel != []
    ensures t.roots[t.files[f].root] == d && t.files[f].path == rel
  {
    var p, e := Join(d, rel), t.roots[t.files[f].root];
    assert e in RootDirs(t);
    RootUnique(RootDirs(t), p, d);
    assert e == d && p[|d|..] == rel && p[|d|..] == t.files[f].path;
  }

  /** The relative path a path is filed under. */
  function RelOf(rootDirs: map<Dir, int>, p: Dir): Dir {
    match Resolve(rootDirs, p)
    case Some((rel, _)) => rel
    case None => []
  }

  /** What a completed call means, in terms of the roots and the documents alone. */
  ghost predicate Means(like: (string, string) -> bool, rec: Record) {
    var d, d', rootDirs := Docs(rec.before.tables), Docs(rec.after.tables), rec.before.rootDirs;
    match rec.call
    case Create(_) => d' == map[]
    case AddRoot(_) => d' == d
    case RemoveRoot(dir) => d' == if dir in rootDirs then map p | p in d && !IsAncestor(dir, p) :: d[p] else d
    case Update(path, _, words) => d' == d[path := Words(words)]
    case Remove(path) =>
      d' == d - {path} <==> HeldOnlyAt(rootDirs.Keys, d, RelOf(rootDirs, path), {path})
    case Move(source, target) =>
      d' == Moved(d, source, target) <==>
        && HeldOnlyAt(rootDirs.Keys, d, RelOf(rootDirs, source), {source, target})
        && (source in d && target in d && source != target ==> d[target] <= d[source])
    case Search(words) =>
      && d' == d && Ascending(ResultLess, rec.answer)
      && forall x :: x in rec.answer <==> x in set p | p in d && DocHit(like, d[p], words) :: Result(p)
  }

  lemma MeansRoots(like: (string, string) -> bool, rec: Record)
    requires rec.call.Create? || rec.call.AddRoot? || rec.call.RemoveRoot?
    requires InSync(rec.before.tables, rec.before.rootDirs) && Unnested(rec.before.rootDirs.Keys)
    requires Step(like, rec) && rec.outcome == Done
    ensures Means(like, rec)
  {
    var s := rec.before;
    SyncedRoots(s.tables, s.rootDirs);
    match rec.call {
      case Create(_) =>
        NoDocs(rec.after.tables);
      case AddRoot(dir) =>
        if dir !in s.rootDirs {
          AddRootRefines(s.tables, s.rootsId, dir);
        }
      case RemoveRoot(dir) =>
        if dir in s.rootDirs {
          RemoveKeepsSync(s.tables, s.rootDirs, dir);
          RemoveRootRefines(s.tables, s.rootDirs[dir]);
        }
    }
  }

  lemma NoDocs(t: Tables)
    requires t.files == map[]
    ensures Docs(t) == map[]
  {
    forall p ensures p !in Docs(t) {
      IndexedAt(t, p);
    }
  }

  lemma MeansUpdate(like: (string, string) -> bool, rec: Record)
    requires rec.call.Update?
    requires InSync(rec.before.tables, rec.before.rootDirs) && Unnested(rec.before.rootDirs.Keys)
    requires Step(like, rec) && rec.outcome == Done
    ensures Means(like, rec)
  {
    var s, c := rec.before, rec.call;
    SyncedRoots(s.tables, s.rootDirs);
    ResolvedPlace(s.tables, s.rootDirs, c.path);
    var (rel, root) := Resolve(s.rootDirs, c.path).value;
    UpdateFileRefines(s.tables, c.path, s.filesId, FileRow(root, rel, Serialize(c.fingerprint)), s.wordsId, c.words);
  }

  /** The one row at the path then has the fingerprint of the call; every other row is an old one. */
  lemma UpdateStores(like: (string, string) -> bool, rec: Record)
    requires rec.call.Update? && Step(like, rec) && rec.outcome == Done
    requires InSync(rec.before.tables, rec.before.rootDirs) && Unnested(rec.before.rootDirs.Keys)
    ensures var t, t', f := rec.before.tables, rec.after.tables, rec.before.filesId;
            && At(t', rec.call.path, f) && t'.files[f].fingerprint == Serialize(rec.call.fingerprint)
            && (forall g :: At(t', rec.call.path, g) ==> g == f)
            && (forall g :: g in t'.files && g != f ==> g in t.files && t'.files[g] == t.files[g])
  {
    var s, c := rec.before, rec.call;
    SyncedRoots(s.tables, s.rootDirs);
    ResolvedPlace(s.tables, s.rootDirs, c.path);
    var (rel, root) := Resolve(s.rootDirs, c.path).value;
    UpdateFileRow(s.tables, c.path, s.filesId, FileRow(root, rel, Serialize(c.fingerprint)), s.wordsId, c.words);
  }

  lemma MeansRemove(like: (string, string) -> bool, rec: Record)
    requires rec.call.Remove?
    requires InSync(rec.before.tables, rec.before.rootDirs) && Unnested(rec.before.rootDirs.Keys)
    requires Step(like, rec) && rec.outcome == Done
    ensures Means(like, rec)
  {
    var s, path := rec.before, rec.call.path;
    SyncedRoots(s.tables, s.rootDirs);
    ResolvedPlace(s.tables, s.rootDirs, path);
    var (rel, root) := Resolve(s.rootDirs, path).value;
    RemoveFileRefines(s.tables, path, root);
    NamedIsHeld(s.tables, rel, {path});
    forall f | f in FilesNamed(s.tables, rel)
      ensures PathOf(s.tables, f) in {path} <==> s.tables.files[f].root == root {
      PlaceOf(s.tables, path, root, f);
    }
  }

  lemma MeansMove(like: (string, string) -> bool, rec: Record)
    requires rec.call.Move?
    requires InSync(rec.before.tables, rec.before.rootDirs) && Unnested(rec.before.rootDirs.Keys)
    requires Step(like, rec) && rec.outcome == Done
    ensures Means(like, rec)
  {
    var s, c := rec.before, rec.call;
    SyncedRoots(s.tables, s.rootDirs);
    ResolvedPlace(s.tables, s.rootDirs, c.source);
    ResolvedPlace(s.tables, s.rootDirs, c.target);
    var (rel, sourceRoot) := Resolve(s.rootDirs, c.source).value;
    MoveFileRefines(s.tables, c.source, sourceRoot, c.target, Resolve(s.rootDirs, c.target).value.1);
    OnlyHereIsHeld(s.tables, rel, c.source, c.target);
  }

  lemma MeansSearch(like: (string, string) -> bool, rec: Record)
    requires rec.call.Search? && Step(like, rec) && rec.outcome == Done
    ensures Means(like, rec)
  {
    SearchMeaning(like, rec.before.tables, rec.call.words);
  }

  /** Every call made while the roots are un-nested, and in memory as in the table, does to the documents what it means,
      remove_file and move_file exactly under the stated conditions; and a failed one does nothing. */
  lemma CallMeans(like: (string, string) -> bool, rec: Record)
    requires Step(like, rec) && InSync(rec.before.tables, rec.before.rootDirs) && Unnested(rec.before.rootDirs.Keys)
    ensures rec.outcome == Done ==> Means(like, rec)
    ensures rec.outcome != Done ==> Docs(rec.after.tables) == Docs(rec.before.tables)
  {
    if rec.outcome == Done {
      match rec.call {
        case Create(_) => MeansRoots(like, rec);
        case AddRoot(_) => MeansRoots(like, rec);
        case RemoveRoot(_) => MeansRoots(like, rec);
        case Update(_, _, _) => MeansUpdate(like, rec);
        case Remove(_) => MeansRemove(like, rec);
        case Move(_, _) => MeansMove(like, rec);
        case Search(_) => MeansSearch(like, rec);
      }
    }
  }

  /** So it is throughout a run from empty tables, as long as no root change is rolled back. */
  lemma {:induction false} RunRefines(like: (string, string) -> bool, calls: seq<Call>, log: seq<Record>, k: nat)
    requires Run(like, Tables(map[], map[], map[], []), calls, log) && k < |log|
    requires forall j :: 0 <= j < |log| ==> RootsKept(log[j])
    requires Unnested(log[k].before.rootDirs.Keys)
    ensures log[k].outcome == Done ==> Means(like, log[k])
    ensures log[k].outcome != Done ==> Docs(log[k].after.tables) == Docs(log[k].before.tables)
  {
    HealthyRun(like, calls, log, k);
    CallMeans(like, log[k]);
  }
}
