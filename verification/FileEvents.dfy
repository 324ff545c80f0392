/** daemon/src/file_watcher.cpp: the command pushed for a file event, and whether the index agrees with the disk
    about the paths of the event when the command is done. */
module FileEvents {
  import opened Wrappers
  import opened Paths
  import opened Fingerprints
  import opened Tables
  import opened Index
  import opened UserDb
  import opened Sessions
  import opened Refinement

  datatype Action = Add | Modified | Delete | Renamed

  /** Watcher::handleFileAction; `isFile` is what the disk says when the event is handled. */
  function Pushed(action: Action, path: Dir, oldPath: Dir, isFile: Dir -> bool, fingerprint: Fingerprint,
                  words: seq<string>): Option<Call> {
    match action
    case Add => if isFile(path) then Some(Update(path, fingerprint, words)) else None
    case Modified => if isFile(path) then Some(Update(path, fingerprint, words)) else None
    case Delete => if isFile(path) then Some(Remove(path)) else None
    case Renamed =>
      if !isFile(oldPath) then Some(Remove(oldPath))
      else if isFile(path) then Some(Move(oldPath, path))
      else None
  }

  /** The database before and after the command pushed for an event, if there is one; `rec` is its call. */
  ghost predicate Carries(like: (string, string) -> bool, pushed: Option<Call>, before: Snapshot, rec: Option<Record>,
                          after: Snapshot) {
    && InSync(before.tables, before.rootDirs) && Unnested(before.rootDirs.Keys)
    && match pushed
       case None => rec.None? && after == before
       case Some(call) =>
         rec.Some? && rec.value.call == call && rec.value.before == before && rec.value.after == after
         && Step(like, rec.value)
  }

  ghost predicate InStep(s: Snapshot, p: Dir, isFile: Dir -> bool) {
    p in Docs(s.tables) <==> isFile(p)
  }

  predicate Succeeds(rec: Option<Record>) {
    rec.Some? && rec.value.outcome == Done
  }

  // ---- what the calls leave of single paths ----

  lemma Unchanged(like: (string, string) -> bool, pushed: Option<Call>, before: Snapshot, rec: Option<Record>,
                  after: Snapshot)
    requires Carries(like, pushed, before, rec, after) && !Succeeds(rec)
    ensures Docs(after.tables) == Docs(before.tables)
  {
  }

  /** remove_file takes away exactly the paths with that relative path under their own root. */
  lemma RemovedPaths(like: (string, string) -> bool, rec: Record, p: Dir)
    requires rec.call.Remove? && Step(like, rec) && rec.outcome == Done
    requires InSync(rec.before.tables, rec.before.rootDirs) && Unnested(rec.before.rootDirs.Keys)
    ensures p in Docs(rec.after.tables) <==>
      p in Docs(rec.before.tables) && RelOf(rec.before.rootDirs, p) != RelOf(rec.before.rootDirs, rec.call.path)
  {
    var t, named := rec.before.tables, FilesNamed(rec.before.tables, RelOf(rec.before.rootDirs, rec.call.path));
    DeleteFilesEffect(t, named);
    IndexedAt(t, p);
    IndexedAt(rec.after.tables, p);
    forall f | At(t, p, f) ensures t.files[f].path == RelOf(rec.before.rootDirs, p) {
      FiledUnder(rec.before, p, f);
    }
  }

  /** A row is under the root its path resolves to. */
  lemma FiledUnder(s: Snapshot, p: Dir, f: int)
    requires Integrity(s.tables) && InSync(s.tables, s.rootDirs) && Unnested(s.rootDirs.Keys) && At(s.tables, p, f)
    ensures Resolve(s.rootDirs, p).Some? && s.tables.files[f].path == RelOf(s.rootDirs, p)
  {
    var d := s.tables.roots[s.tables.files[f].root];
    assert d in s.rootDirs && IsAncestor(d, p);
    RootUnique(s.rootDirs.Keys, p, d);
  }

  /** move_file takes the rows with the old relative path, under every root, to the new path. */
  lemma MovedPaths(like: (string, string) -> bool, rec: Record, p: Dir)
    requires rec.call.Move? && Step(like, rec) && rec.outcome == Done
    requires InSync(rec.before.tables, rec.before.rootDirs) && Unnested(rec.before.rootDirs.Keys)
    ensures p in Docs(rec.after.tables) && p != rec.call.target <==>
      p in Docs(rec.before.tables) && p != rec.call.target &&
      RelOf(rec.before.rootDirs, p) != RelOf(rec.before.rootDirs, rec.call.source)
    ensures rec.call.source in Docs(rec.before.tables) ==> rec.call.target in Docs(rec.after.tables)
    ensures rec.call.target in Docs(rec.before.tables) ==> rec.call.target in Docs(rec.after.tables)
  {
    var s, c := rec.before, rec.call;
    var t, t' := s.tables, rec.after.tables;
    ResolvedPlace(t, s.rootDirs, c.source);
    ResolvedPlace(t, s.rootDirs, c.target);
    var from, to := Resolve(s.rootDirs, c.source).value, Resolve(s.rootDirs, c.target).value;
    MoveFilesEffect(t, from.0, to.1, to.0);
    assert Join(t.roots[to.1], to.0) == c.target;
    IndexedAt(t, p);
    IndexedAt(t', p);
    forall f | At(t, p, f) ensures t.files[f].path == RelOf(s.rootDirs, p) {
      FiledUnder(s, p, f);
    }
    TargetAfterMove(t, t', c.source, c.target, from.0, s);
  }

  lemma TargetAfterMove(t: Tables, t': Tables, source: Dir, target: Dir, rel: Dir, s: Snapshot)
    requires t == s.tables && Integrity(t) && InSync(t, s.rootDirs) && Unnested(s.rootDirs.Keys)
    requires rel == RelOf(s.rootDirs, source)
    requires forall p, f :: At(t', p, f) <==> if f in FilesNamed(t, rel) then p == target else At(t, p, f)
    ensures source in Docs(t) || target in Docs(t) ==> target in Docs(t')
  {
    IndexedAt(t', target);
    if source in Docs(t) {
      IndexedAt(t, source);
      var f :| At(t, source, f);
      FiledUnder(s, source, f);
      assert At(t', target, f);
    }
    if target in Docs(t) {
      IndexedAt(t, target);
      var f :| At(t, target, f);
      assert At(t', target, f);
    }
  }

  // ---- what the calls leave of all documents ----

  /** Both lie under a root, and their paths relative to these are the same. */
  ghost predicate SameRelative(roots: set<Dir>, p: Dir, q: Dir) {
    exists d, e :: d in roots && e in roots && IsAncestor(d, p) && IsAncestor(e, q) && p[|d|..] == q[|e|..]
  }

  ghost predicate Below(roots: set<Dir>, p: Dir) {
    exists d :: d in roots && IsAncestor(d, p)
  }

  lemma ResolvedBelow(rootDirs: map<Dir, int>, p: Dir)
    ensures Resolve(rootDirs, p).Some? <==> Below(rootDirs.Keys, p)
  {
  }

  lemma RelSame(rootDirs: map<Dir, int>, p: Dir, q: Dir)
    requires Unnested(rootDirs.Keys) && Resolve(rootDirs, p).Some? && Resolve(rootDirs, q).Some?
    ensures SameRelative(rootDirs.Keys, p, q) <==> RelOf(rootDirs, p) == RelOf(rootDirs, q)
  {
    var a, b := Outermost(rootDirs.Keys, p).value, Outermost(rootDirs.Keys, q).value;
    forall d | d in rootDirs && IsAncestor(d, p) ensures d == a {
      RootUnique(rootDirs.Keys, p, d);
    }
    forall e | e in rootDirs && IsAncestor(e, q) ensures e == b {
      RootUnique(rootDirs.Keys, q, e);
    }
    if RelOf(rootDirs, p) == RelOf(rootDirs, q) {
      assert p[|a|..] == q[|b|..];
    }
  }

  /** Which rows have the relative path of q. */
  lemma NamedRows(s: Snapshot, p: Dir, q: Dir, f: int)
    requires Integrity(s.tables) && InSync(s.tables, s.rootDirs) && Unnested(s.rootDirs.Keys) && At(s.tables, p, f)
    requires Resolve(s.rootDirs, q).Some?
    ensures f in FilesNamed(s.tables, RelOf(s.rootDirs, q)) <==> SameRelative(s.rootDirs.Keys, p, q)
  {
    FiledUnder(s, p, f);
    RelSame(s.rootDirs, p, q);
  }

  lemma RemovedRows(s: Snapshot, q: Dir)
    requires Integrity(s.tables) && InSync(s.tables, s.rootDirs) && Unnested(s.rootDirs.Keys)
    requires Resolve(s.rootDirs, q).Some?
    ensures var d, roots := Docs(s.tables), s.rootDirs.Keys;
            Docs(DeleteFiles(s.tables, FilesNamed(s.tables, RelOf(s.rootDirs, q)))) ==
            map p | p in d && !SameRelative(roots, p, q) :: d[p]
  {
    var named, paths := FilesNamed(s.tables, RelOf(s.rootDirs, q)), Named(s.rootDirs.Keys, Docs(s.tables), q);
    forall p, f | At(s.tables, p, f) ensures f in named <==> p in paths {
      NamedPath(s, p, q, f);
    }
    DeletePlaces(s.tables, named, paths);
    WithoutNamed(s.rootDirs.Keys, Docs(s.tables), q);
  }

  /** The documents with the relative path of q. */
  ghost function Named(roots: set<Dir>, d: map<Dir, set<string>>, q: Dir): set<Dir> {
    set p | p in d && SameRelative(roots, p, q)
  }

  lemma WithoutNamed(roots: set<Dir>, d: map<Dir, set<string>>, q: Dir)
    ensures d - Named(roots, d, q) == map p | p in d && !SameRelative(roots, p, q) :: d[p]
  {
  }

  lemma NamedPath(s: Snapshot, p: Dir, q: Dir, f: int)
    requires Integrity(s.tables) && InSync(s.tables, s.rootDirs) && Unnested(s.rootDirs.Keys) && At(s.tables, p, f)
    requires Resolve(s.rootDirs, q).Some?
    ensures f in FilesNamed(s.tables, RelOf(s.rootDirs, q)) <==> p in Named(s.rootDirs.Keys, Docs(s.tables), q)
  {
    NamedRows(s, p, q, f);
    IndexedAt(s.tables, p);
  }

  /** remove_file takes away the documents with that relative path under any root, and leaves the others as they are. */
  lemma RemovedExact(like: (string, string) -> bool, rec: Record)
    requires rec.call.Remove? && Step(like, rec) && rec.outcome == Done
    requires InSync(rec.before.tables, rec.before.rootDirs) && Unnested(rec.before.rootDirs.Keys)
    ensures var d, roots := Docs(rec.before.tables), rec.before.rootDirs.Keys;
            Docs(rec.after.tables) == map p | p in d && !SameRelative(roots, p, rec.call.path) :: d[p]
  {
    RemovedRows(rec.before, rec.call.path);
  }

  /** What a move leaves: the target has its words and those of all documents with the relative path of the source,
      which are there no more; any other document is as it was. */
  ghost predicate Gathers(d: map<Dir, set<string>>, d': map<Dir, set<string>>, roots: set<Dir>, source: Dir,
                          target: Dir) {
    var sources := set q | q in d && (q == target || SameRelative(roots, q, source));
    && (forall p :: p != target ==> (p in d' <==> p in d && !SameRelative(roots, p, source)))
    && (forall p :: p != target && p in d' ==> d'[p] == d[p])
    && (target in d' <==> sources != {})
    && (target in d' ==> forall w :: w in d'[target] <==> exists q :: q in sources && w in d[q])
  }

  lemma MovedExact(like: (string, string) -> bool, rec: Record)
    requires rec.call.Move? && Step(like, rec) && rec.outcome == Done
    requires InSync(rec.before.tables, rec.before.rootDirs) && Unnested(rec.before.rootDirs.Keys)
    ensures Gathers(Docs(rec.before.tables), Docs(rec.after.tables), rec.before.rootDirs.Keys, rec.call.source,
                    rec.call.target)
  {
    RowsAfterMove(rec.before, rec.call.source, rec.call.target);
    GathersRows(rec.before, rec.after.tables, rec.call.source, rec.call.target);
  }

  lemma RowsAfterMove(s: Snapshot, source: Dir, target: Dir)
    requires Integrity(s.tables) && InSync(s.tables, s.rootDirs) && Unnested(s.rootDirs.Keys)
    requires Resolve(s.rootDirs, source).Some? && Resolve(s.rootDirs, target).Some?
    ensures var t' := Moving(s.tables, s.rootDirs, source, target);
            t'.Some? && RowsMoved(s, t'.value, source, target)
  {
    ResolvedPlace(s.tables, s.rootDirs, source);
    ResolvedPlace(s.tables, s.rootDirs, target);
    var from, to := Resolve(s.rootDirs, source).value, Resolve(s.rootDirs, target).value;
    MoveFilesEffect(s.tables, from.0, to.1, to.0);
    assert Join(s.tables.roots[to.1], to.0) == target;
  }

  /** What is known of the rows. */
  ghost predicate RowsMoved(s: Snapshot, t': Tables, source: Dir, target: Dir) {
    && Integrity(s.tables) && InSync(s.tables, s.rootDirs) && Unnested(s.rootDirs.Keys)
    && Resolve(s.rootDirs, source).Some? && Tags(t') == Tags(s.tables)
    && forall p, f :: At(t', p, f) <==>
         if f in FilesNamed(s.tables, RelOf(s.rootDirs, source)) then p == target else At(s.tables, p, f)
  }

  lemma GathersRows(s: Snapshot, t': Tables, source: Dir, target: Dir)
    requires RowsMoved(s, t', source, target)
    ensures Gathers(Docs(s.tables), Docs(t'), s.rootDirs.Keys, source, target)
  {
    var d, roots := Docs(s.tables), s.rootDirs.Keys;
    var sources := set q | q in d && (q == target || SameRelative(roots, q, source));
    forall p | p != target
      ensures p in Docs(t') <==> p in d && !SameRelative(roots, p, source)
      ensures p in Docs(t') ==> Docs(t')[p] == d[p]
    {
      StaysOrGoes(s, t', source, target, p);
    }
    forall q, f | At(s.tables, q, f) ensures At(t', target, f) <==> q in sources {
      IndexedAt(s.tables, q);
      NamedRows(s, q, source, f);
      OnePath(s.tables, q, target, f);
    }
    forall f | At(t', target, f) ensures exists q :: At(s.tables, q, f) {
      assert f in FilesNamed(s.tables, RelOf(s.rootDirs, source)) || At(s.tables, target, f);
      assert At(s.tables, PathOf(s.tables, f), f);
    }
    GatheredTarget(s.tables, t', target, sources);
  }

  lemma OnePath(t: Tables, p: Dir, q: Dir, f: int)
    requires At(t, p, f)
    ensures At(t, q, f) <==> p == q
  {
  }

  lemma StaysOrGoes(s: Snapshot, t': Tables, source: Dir, target: Dir, p: Dir)
    requires RowsMoved(s, t', source, target) && p != target
    ensures p in Docs(t') <==> p in Docs(s.tables) && !SameRelative(s.rootDirs.Keys, p, source)
    ensures p in Docs(t') ==> Docs(t')[p] == Docs(s.tables)[p]
  {
    IndexedAt(s.tables, p);
    IndexedAt(t', p);
    forall f | At(s.tables, p, f)
      ensures At(t', p, f) <==> !SameRelative(s.rootDirs.Keys, p, source)
    {
      NamedRows(s, p, source, f);
    }
    if p in Docs(t') {
      assert forall f :: At(t', p, f) <==> At(s.tables, p, f);
      assert WordsAt(t', p) == WordsAt(s.tables, p);
    }
  }

  /** The target takes over the rows of the sources. */
  lemma GatheredTarget(t: Tables, t': Tables, target: Dir, sources: set<Dir>)
    requires Tags(t') == Tags(t) && forall q, f :: At(t, q, f) ==> (At(t', target, f) <==> q in sources)
    requires forall f :: At(t', target, f) ==> exists q :: At(t, q, f)
    requires forall q :: q in sources ==> q in Docs(t)
    ensures target in Docs(t') <==> sources != {}
    ensures target in Docs(t') ==>
              forall w :: w in Docs(t')[target] <==> exists q :: q in sources && w in Docs(t)[q]
  {
    IndexedAt(t', target);
    if f :| At(t', target, f) {
      var q :| At(t, q, f);
      assert q in sources;
    }
    if q :| q in sources {
      IndexedAt(t, q);
      var f :| At(t, q, f);
    }
    forall w ensures w in WordsAt(t', target) <==> exists q :: q in sources && w in Docs(t)[q] {
      GatheredWord(t, t', target, sources, w);
    }
  }

  lemma GatheredWord(t: Tables, t': Tables, target: Dir, sources: set<Dir>, w: string)
    requires Tags(t') == Tags(t) && forall q, f :: At(t, q, f) ==> (At(t', target, f) <==> q in sources)
    requires forall f :: At(t', target, f) ==> exists q :: At(t, q, f)
    requires forall q :: q in sources ==> q in Docs(t)
    ensures w in WordsAt(t', target) <==> exists q :: q in sources && w in Docs(t)[q]
  {
    if w in WordsAt(t', target) {
      var tag :| tag in Tags(t') && At(t', target, tag.0) && tag.1 == w;
      var q :| At(t, q, tag.0);
      assert q in sources && w in WordsAt(t, q);
    }
    if q :| q in sources && w in Docs(t)[q] {
      var tag :| tag in Tags(t) && At(t, q, tag.0) && tag.1 == w;
      assert tag in Tags(t') && At(t', target, tag.0);
    }
  }

  // ---- the events ----

  /** After an Add or Modified event index and disk agree about the path if and only if it is a file and the command
      succeeded or it was indexed before, or it is no file and was not indexed. */
  lemma UpdateInStep(like: (string, string) -> bool, action: Action, path: Dir, oldPath: Dir, isFile: Dir -> bool,
                     fingerprint: Fingerprint, words: seq<string>, before: Snapshot, rec: Option<Record>,
                     after: Snapshot)
    requires action.Add? || action.Modified?
    requires Carries(like, Pushed(action, path, oldPath, isFile, fingerprint, words), before, rec, after)
    ensures InStep(after, path, isFile) <==> ((Succeeds(rec) || path in Docs(before.tables)) <==> isFile(path))
  {
    var pushed := Pushed(action, path, oldPath, isFile, fingerprint, words);
    if Succeeds(rec) {
      MeansUpdate(like, rec.value);
    } else {
      Unchanged(like, pushed, before, rec, after);
    }
  }

  /** A Delete event is about a file that is still there, or nothing happens: a path that is indexed and gone stays
      indexed, and a file that is there is removed from the index when the command succeeds. */
  lemma DeleteInStep(like: (string, string) -> bool, path: Dir, oldPath: Dir, isFile: Dir -> bool,
                     fingerprint: Fingerprint, words: seq<string>, before: Snapshot, rec: Option<Record>,
                     after: Snapshot)
    requires Carries(like, Pushed(Delete, path, oldPath, isFile, fingerprint, words), before, rec, after)
    ensures InStep(after, path, isFile) <==> !Succeeds(rec) && (path in Docs(before.tables) <==> isFile(path))
  {
    var pushed := Pushed(Delete, path, oldPath, isFile, fingerprint, words);
    if Succeeds(rec) {
      RemovedPaths(like, rec.value, path);
    } else {
      Unchanged(like, pushed, before, rec, after);
    }
  }

  /** After a Moved event they agree about both paths: when the old file is gone and the command succeeds, if and
      only if the new path is right already and does not have the relative path of the old one under another root; when
      the old file is still there, if and only if nothing was done and all was right before. A file that was truly
      renamed is never taken to its new path. */
  lemma RenameInStep(like: (string, string) -> bool, path: Dir, oldPath: Dir, isFile: Dir -> bool,
                     fingerprint: Fingerprint, words: seq<string>, before: Snapshot, rec: Option<Record>,
                     after: Snapshot)
    requires path != oldPath
    requires Carries(like, Pushed(Renamed, path, oldPath, isFile, fingerprint, words), before, rec, after)
    ensures InStep(after, path, isFile) && InStep(after, oldPath, isFile) <==>
      if Succeeds(rec) then
        !isFile(oldPath) &&
        (isFile(path)
         <==> path in Docs(before.tables) && RelOf(before.rootDirs, path) != RelOf(before.rootDirs, oldPath))
      else InStep(before, path, isFile) && InStep(before, oldPath, isFile)
  {
    var pushed := Pushed(Renamed, path, oldPath, isFile, fingerprint, words);
    if !Succeeds(rec) {
      Unchanged(like, pushed, before, rec, after);
    } else if isFile(oldPath) {
      MovedPaths(like, rec.value, oldPath);
    } else {
      RemovedPaths(like, rec.value, path);
      RemovedPaths(like, rec.value, oldPath);
    }
  }

  // ---- what an event leaves, when SQLite breaks off nothing ----

  /** Before and after the command of the event, if there is one; nothing of SQLite fails in it. */
  ghost predicate Happens(like: (string, string) -> bool, action: Action, path: Dir, oldPath: Dir, isFile: Dir -> bool,
                          fingerprint: Fingerprint, words: seq<string>, before: Snapshot, after: Snapshot) {
    && Healthy(before)
    && exists rec: Option<Record> ::
         && Carries(like, Pushed(action, path, oldPath, isFile, fingerprint, words), before, rec, after)
         && (rec.Some? ==> Broke(rec.value.outcome) == 0)
  }

  /** A file command on a healthy database then fails only for want of a root. */
  lemma EndsForRoots(like: (string, string) -> bool, rec: Record)
    requires Healthy(rec.before) && Step(like, rec) && Broke(rec.outcome) == 0
    requires rec.call.Update? || rec.call.Remove? || rec.call.Move?
    ensures rec.outcome == if Rooted(rec) then Done else NoRoot
  {
    HealthyStep(like, rec);
    var o := rec.outcome;
    assert o.Done? || o.NoRoot? || o.Constraint? || o.IoError? || o.CommitError?;
    OutcomeRooted(like, rec);
  }

  /** A file that was added or modified below a root is indexed with exactly its words; else nothing changes. */
  lemma AddedExact(like: (string, string) -> bool, action: Action, path: Dir, oldPath: Dir, isFile: Dir -> bool,
                   fingerprint: Fingerprint, words: seq<string>, before: Snapshot, after: Snapshot)
    requires (action.Add? || action.Modified?)
    requires Happens(like, action, path, oldPath, isFile, fingerprint, words, before, after)
    ensures Docs(after.tables) ==
            if isFile(path) && Below(before.rootDirs.Keys, path) then Docs(before.tables)[path := Words(words)]
            else Docs(before.tables)
  {
    var pushed := Pushed(action, path, oldPath, isFile, fingerprint, words);
    var rec :| Carries(like, pushed, before, rec, after) && (rec.Some? ==> Broke(rec.value.outcome) == 0);
    ResolvedBelow(before.rootDirs, path);
    if rec.Some? {
      EndsForRoots(like, rec.value);
      if rec.value.outcome == Done {
        MeansUpdate(like, rec.value);
      }
    }
  }

  /** A file that is there when its deletion is handled goes, with all others of its relative path; one that is gone
      stays indexed. */
  lemma DeletedExact(like: (string, string) -> bool, path: Dir, oldPath: Dir, isFile: Dir -> bool,
                     fingerprint: Fingerprint, words: seq<string>, before: Snapshot, after: Snapshot)
    requires Happens(like, Delete, path, oldPath, isFile, fingerprint, words, before, after)
    ensures var d, roots := Docs(before.tables), before.rootDirs.Keys;
            Docs(after.tables) == if isFile(path) then map p | p in d && !SameRelative(roots, p, path) :: d[p] else d
  {
    var pushed := Pushed(Delete, path, oldPath, isFile, fingerprint, words);
    var rec :| Carries(like, pushed, before, rec, after) && (rec.Some? ==> Broke(rec.value.outcome) == 0);
    if rec.Some? {
      RemoveEnds(like, rec.value);
    }
  }

  lemma RemoveEnds(like: (string, string) -> bool, rec: Record)
    requires rec.call.Remove? && Healthy(rec.before) && Unnested(rec.before.rootDirs.Keys) && Step(like, rec)
    requires Broke(rec.outcome) == 0
    ensures var d, roots := Docs(rec.before.tables), rec.before.rootDirs.Keys;
            Docs(rec.after.tables) == map p | p in d && !SameRelative(roots, p, rec.call.path) :: d[p]
  {
    EndsForRoots(like, rec);
    ResolvedBelow(rec.before.rootDirs, rec.call.path);
    if rec.outcome == Done {
      RemovedExact(like, rec);
    }
  }

  /** After a Moved event: when the old file is gone it goes from the index, with all others of its relative path; when
      it is still there and the new one is too, both below roots, the new one takes over the documents of that relative
      path; else nothing changes. */
  lemma RenamedExact(like: (string, string) -> bool, path: Dir, oldPath: Dir, isFile: Dir -> bool,
                     fingerprint: Fingerprint, words: seq<string>, before: Snapshot, after: Snapshot)
    requires Happens(like, Renamed, path, oldPath, isFile, fingerprint, words, before, after)
    ensures var d, d', roots := Docs(before.tables), Docs(after.tables), before.rootDirs.Keys;
            if !isFile(oldPath) then d' == map p | p in d && !SameRelative(roots, p, oldPath) :: d[p]
            else if isFile(path) && Below(roots, oldPath) && Below(roots, path) then
              Gathers(d, d', roots, oldPath, path)
            else d' == d
  {
    var pushed := Pushed(Renamed, path, oldPath, isFile, fingerprint, words);
    var rec :| Carries(like, pushed, before, rec, after) && (rec.Some? ==> Broke(rec.value.outcome) == 0);
    if !isFile(oldPath) {
      RemoveEnds(like, rec.value);
    } else if isFile(path) {
      MoveEnds(like, rec.value);
    }
  }

  lemma MoveEnds(like: (string, string) -> bool, rec: Record)
    requires rec.call.Move? && Healthy(rec.before) && Unnested(rec.before.rootDirs.Keys) && Step(like, rec)
    requires Broke(rec.outcome) == 0
    ensures var d, d', roots := Docs(rec.before.tables), Docs(rec.after.tables), rec.before.rootDirs.Keys;
            if Below(roots, rec.call.source) && Below(roots, rec.call.target) then
              Gathers(d, d', roots, rec.call.source, rec.call.target)
            else d' == d
  {
    EndsForRoots(like, rec);
    ResolvedBelow(rec.before.rootDirs, rec.call.source);
    ResolvedBelow(rec.before.rootDirs, rec.call.target);
    if rec.outcome == Done {
      MovedExact(like, rec);
    }
  }

  /** An event, and the command it pushes. */
  method OnEvent(db: SqliteUserDb, action: Action, path: Dir, oldPath: Dir, isFile: Dir -> bool,
                 fingerprint: Fingerprint, words: seq<string>)
    requires db.Valid() && Healthy(State(db)) && Unnested(db.rootDirs.Keys)
    modifies db, db.cache
    ensures db.Valid()
    ensures db.Faults() == old(db.Faults()) ==>
              Happens(db.like, action, path, oldPath, isFile, fingerprint, words, old(State(db)), State(db))
  {
    ghost var before, f := State(db), db.Faults();
    ghost var done: Option<Record> := None;
    var pushed := Pushed(action, path, oldPath, isFile, fingerprint, words);
    if pushed.Some? {
      var rec := Perform(db, pushed.value);
      done := Some(rec);
    }
    if db.Faults() == f {
      assert Carries(db.like, pushed, before, done, State(db));
    }
  }
}
