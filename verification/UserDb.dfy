/** core/vca/sqlite_userdb.cpp: SqliteUserDb. */
module UserDb {
  import opened Wrappers
  import opened Orders
  import opened Paths
  import opened Fingerprints
  import opened SearchCaches
  import opened Tables
  import opened Index

  /** How a call ends. Every outcome but Done is an exception in the program. SQLite may report an
      error of its own (IoError) at any statement, and at the commit (CommitError). */
  datatype Outcome = Done | NoRoot | Constraint | IoError | CommitError

  /** SQLite broke it off. */
  function Broke(r: Outcome): nat {
    if r in {IoError, CommitError} then 1 else 0
  }

  /** How many of the first n statements and commits SQLite breaks off. */
  function Broken(breaks: nat -> bool, n: nat): nat {
    if n == 0 then 0 else Broken(breaks, n - 1) + if breaks(n - 1) then 1 else 0
  }

  ghost predicate NeverBreaks(breaks: nat -> bool) {
    forall n: nat :: !breaks(n)
  }

  lemma {:induction false} NoneBroken(breaks: nat -> bool, n: nat)
    requires NeverBreaks(breaks)
    ensures Broken(breaks, n) == 0
  {
    if n > 0 {
      NoneBroken(breaks, n - 1);
    }
  }

  /** The roots table and the root map are inverse to each other. */
  ghost predicate InSync(t: Tables, rootDirs: map<Dir, int>) {
    && (forall d :: d in rootDirs ==> rootDirs[d] in t.roots && t.roots[rootDirs[d]] == d)
    && (forall i :: i in t.roots ==> t.roots[i] in rootDirs && rootDirs[t.roots[i]] == i)
  }

  /** Each counter exceeds every id in use. */
  ghost predicate IdsBelow(t: Tables, filesId: int, wordsId: int, rootsId: int) {
    && (forall i :: i in t.roots ==> i < rootsId)
    && (forall i :: i in t.files ==> i < filesId)
    && (forall i :: i in t.words ==> i < wordsId)
  }

  /** A database that create has emptied and given the roots `dirs`, with ids from..to. */
  ghost predicate Rebuilt(t: Tables, rootDirs: map<Dir, int>, words: map<int, string>, dirs: set<Dir>, from: int,
                          to: int) {
    && Integrity(t) && InSync(t, rootDirs) && rootDirs.Keys == dirs
    && (forall d :: d in dirs ==> from <= rootDirs[d] < to)
    && t.files == map[] && t.mappings == [] && t.words == words
  }

  /** The root map after a loop over the first roots: consecutive ids in the order of the loop. */
  function Numbered(dirs: seq<Dir>, from: int): map<Dir, int> {
    if dirs == [] then map[] else Numbered(dirs[..|dirs| - 1], from)[dirs[|dirs| - 1] := from + |dirs| - 1]
  }

  /** The map that create leaves when it breaks off in its loop, or at the end of it. */
  ghost predicate Filled(rootDirs: map<Dir, int>, dirs: set<Dir>, from: int, to: int) {
    exists s :: Visits(s, dirs) && from <= to <= from + |s| && rootDirs == Numbered(s[..to - from], from)
  }

  lemma FilledAt(s: seq<Dir>, dirs: set<Dir>, from: int, n: nat)
    requires Visits(s, dirs) && n <= |s|
    ensures Filled(Numbered(s[..n], from), dirs, from, from + n)
  {
    assert s[..from + n - from] == s[..n];
  }

  lemma LoopBegins(t: Tables, words: map<int, string>, s: seq<Dir>, from: int)
    requires Rebuilt(t, map[], words, {}, from, from)
    ensures Rebuilt(t, map[], words, Elements(s[..0]), from, from) && Numbered(s[..0], from) == map[]
  {
    assert Elements(s[..0]) == {};
  }

  /** The loop of create has ended before root n. */
  lemma LoopEnds(t: Tables, rootDirs: map<Dir, int>, words: map<int, string>, s: seq<Dir>, dirs: set<Dir>, n: nat,
                 from: int)
    requires Visits(s, dirs) && |s| == |dirs| && n <= |s| && rootDirs == Numbered(s[..n], from)
    ensures Filled(rootDirs, dirs, from, from + n)
    ensures n == |s| && Rebuilt(t, rootDirs, words, Elements(s[..n]), from, from + n)
            ==> Rebuilt(t, rootDirs, words, dirs, from, from + |dirs|)
  {
    FilledAt(s, dirs, from, n);
    AllElements(s, dirs);
  }

  lemma NumberedStep(s: seq<Dir>, from: int, n: nat)
    requires n < |s|
    ensures Numbered(s[..n + 1], from) == Numbered(s[..n], from)[s[n] := from + n]
  {
    assert s[..n + 1][..n] == s[..n];
  }

  lemma EmptyIsRebuilt(t: Tables, from: int)
    requires Integrity(t)
    ensures Rebuilt(DeleteRoots(t, t.roots.Keys), map[], t.words, {}, from, from)
  {
    AllRootsDeleted(t);
  }

  lemma RebuiltStep(t: Tables, rootDirs: map<Dir, int>, words: map<int, string>, dirs: set<Dir>, from: int, to: int,
                    dir: Dir)
    requires Rebuilt(t, rootDirs, words, dirs, from, to) && dir !in dirs && from <= to
    ensures var r := InsertRoot(t, to, dir);
            r.Some? && Rebuilt(r.value, rootDirs[dir := to], words, dirs + {dir}, from, to + 1)
  {
    assert to !in t.roots;
    InsertKeepsSync(t, rootDirs, to, dir);
  }

  lemma InsertKeepsSync(t: Tables, rootDirs: map<Dir, int>, id: int, dir: Dir)
    requires Integrity(t) && InSync(t, rootDirs) && dir !in rootDirs && id !in t.roots
    ensures var r := InsertRoot(t, id, dir);
            r.Some? && Integrity(r.value) && InSync(r.value, rootDirs[dir := id])
  {
  }

  /** The relative path and the root id a path is filed under. */
  function Resolve(rootDirs: map<Dir, int>, p: Dir): Option<(Dir, int)> {
    var d :- Outermost(rootDirs.Keys, p);
    Some((Relative(p, d), rootDirs[d]))
  }

  /** The row update_file writes for a path under some root. */
  function RowOf(rootDirs: map<Dir, int>, path: Dir, fingerprint: Fingerprint): FileRow
    requires Resolve(rootDirs, path).Some?
  {
    var (rel, root) := Resolve(rootDirs, path).value;
    FileRow(root, rel, Serialize(fingerprint))
  }

  /** update_file on the tables. */
  ghost function Indexing(t: Tables, rootDirs: map<Dir, int>, path: Dir, fingerprint: Fingerprint, file: int, next: int,
                          words: seq<string>): Option<(Tables, int)> {
    var (rel, root) :- Resolve(rootDirs, path);
    IndexFile(t, file, FileRow(root, rel, Serialize(fingerprint)), next, words)
  }

  /** The insertion of the file row is refused. */
  ghost predicate RowRefused(t: Tables, file: int, row: FileRow) {
    InsertFile(DeleteFiles(t, FilesAt(t, row.path, row.root)), file, row).None?
  }

  /** The two ways in which a constraint refuses update_file: at the file row, before the word counter moves; or at
      a word row, and then the id in use is the one below the counter. */
  ghost predicate Refused(t: Tables, file: int, row: FileRow, from: int, to: int) {
    (to == from && RowRefused(t, file, row)) || (to > from && to - 1 in t.words)
  }

  /** What an outcome of update_file's statements says of the tables. */
  ghost predicate RowIndexed(r: Outcome, t: Tables, file: int, row: FileRow, from: int, words: seq<string>, t': Tables,
                             to: int) {
    && Drawn(t, words, from, to)
    && (r == Done ==> Integrity(t') && IndexFile(t, file, row, from, words) == Some((t', to)))
    && (r == Constraint ==> IndexFile(t, file, row, from, words).None? && Refused(t, file, row, from, to))
  }

  lemma RowFails(r: Outcome, t: Tables, file: int, row: FileRow, from: int, words: seq<string>, t': Tables)
    requires r != Done && (r == Constraint ==> RowRefused(t, file, row))
    ensures RowIndexed(r, t, file, row, from, words, t', from)
  {
  }

  lemma RowThenWords(r: Outcome, t: Tables, t1: Tables, file: int, row: FileRow, from: int, words: seq<string>,
                     t': Tables, to: int)
    requires InsertFile(DeleteFiles(t, FilesAt(t, row.path, row.root)), file, row) == Some(t1) && t1.words == t.words
    requires r == Done ==> Integrity(t') && IndexWords(t1, file, from, words) == Some((t', to))
    requires r == Constraint ==> IndexWords(t1, file, from, words).None? && to > from && to - 1 in t1.words
    requires Drawn(t1, words, from, to)
    ensures RowIndexed(r, t, file, row, from, words, t', to)
  {
  }

  /** move_file on the tables. */
  ghost function Moving(t: Tables, rootDirs: map<Dir, int>, oldPath: Dir, path: Dir): Option<Tables> {
    var from :- Resolve(rootDirs, oldPath);
    var at :- Resolve(rootDirs, path);
    MoveFiles(t, from.0, at.1, at.0)
  }

  class SqliteUserDb {
    const like: (string, string) -> bool
    const breaks: nat -> bool
    const cache: SearchCache
    var tables: Tables
    var rootDirs: map<Dir, int>
    var filesId: int
    var wordsId: int
    var rootsId: int
    var statements: nat

    /** How many of the statements and commits so far SQLite has broken off. */
    ghost function Faults(): nat
      reads this`statements
    {
      Broken(breaks, statements)
    }

    /** Holds in every state, whatever failed before: the tables are consistent and every cached
        answer is the answer a fresh search would give now. */
    ghost predicate Valid()
      reads this, cache
    {
      && cache.Valid() && Integrity(tables)
      && forall n :: n in cache.entries ==> IsAnswer(like, tables, cache.entries[n].key, cache.entries[n].results)
    }

    /** Opens a database left by an earlier session; the counters start at 0 all the same. */
    constructor (tables: Tables, like: (string, string) -> bool, breaks: nat -> bool)
      requires Integrity(tables)
      ensures Valid() && fresh(cache) && this.tables == tables && this.like == like && this.breaks == breaks
      ensures rootDirs == map[] && filesId == wordsId == rootsId == statements == 0
    {
      this.tables, this.like, this.breaks := tables, like, breaks;
      rootDirs, filesId, wordsId, rootsId, statements := map[], 0, 0, 0, 0;
      cache := new SearchCache();
    }

    // ---- SQLite ----

    /** One more statement, or row, or commit; false if SQLite breaks it off. */
    method Proceed() returns (ok: bool)
      modifies `statements
      ensures Faults() == old(Faults()) + if ok then 0 else 1
    {
      ok := !breaks(statements);
      statements := statements + 1;
    }

    /** Runs one statement. */
    method Exec(stmt: Option<Tables>) returns (r: Outcome)
      modifies `tables, `statements
      ensures r in {Done, Constraint, IoError}
      ensures r == Done ==> stmt == Some(tables)
      ensures r == Constraint ==> stmt == None
      ensures r != Done ==> tables == old(tables)
      ensures Faults() == old(Faults()) + Broke(r)
    {
      var ok := Proceed();
      if !ok {
        return IoError;
      }
      match stmt
      case Some(t) =>
        tables := t;
        return Done;
      case None =>
        return Constraint;
    }

    method Commit() returns (r: Outcome)
      modifies `statements
      ensures r in {Done, CommitError}
      ensures Faults() == old(Faults()) + Broke(r)
    {
      var ok := Proceed();
      return if ok then Done else CommitError;
    }

    // ---- Impl ----

    /** Impl::relative: the first root, in map order, that is a parent of the path. */
    method RelativePath(p: Dir) returns (r: Option<(Dir, int)>)
      ensures r == Resolve(rootDirs, p)
    {
      var dirs := EnumerateDirs(rootDirs.Keys);
      for i := 0 to |dirs|
        invariant forall j :: 0 <= j < i ==> !IsAncestor(dirs[j], p)
      {
        assert dirs[i] in rootDirs;
        var above := IsParentOf(Path(true, dirs[i]), Path(true, p), []);
        if above {
          FirstIsOutermost(dirs, rootDirs.Keys, p, i);
          return Some((Relative(p, dirs[i]), rootDirs[dirs[i]]));
        }
      }
      return None;
    }

    /** Impl::add_root_dir */
    method InsertRootDir(dir: Dir) returns (r: Outcome)
      modifies `tables, `rootDirs, `rootsId, `statements
      ensures r in {Done, Constraint, IoError}
      ensures r == Done ==>
        && InsertRoot(old(tables), old(rootsId), dir) == Some(tables)
        && rootDirs == (if dir in old(rootDirs) then old(rootDirs) else old(rootDirs)[dir := old(rootsId)])
        && rootsId == old(rootsId) + 1
      ensures r == Constraint ==> InsertRoot(old(tables), old(rootsId), dir).None?
      ensures r != Done ==> tables == old(tables) && rootDirs == old(rootDirs) && rootsId == old(rootsId)
      ensures Faults() == old(Faults()) + Broke(r)
    {
      r := Exec(InsertRoot(tables, rootsId, dir));
      if r == Done {
        if dir !in rootDirs {
          rootDirs := rootDirs[dir := rootsId];
        }
        rootsId := rootsId + 1;
      }
    }

    // ---- roots ----

    /** create: replaces the roots; the cascade empties files and mappings, and the words stay. */
    method Create(dirs: set<Dir>) returns (r: Outcome)
      requires Valid()
      modifies this, cache
      ensures Valid() && r in {Done, IoError, CommitError}
      ensures filesId == old(filesId) && wordsId == old(wordsId)
      ensures r != Done ==> tables == old(tables)
      ensures (r == IoError && rootDirs == old(rootDirs) && rootsId == old(rootsId))
              || Filled(rootDirs, dirs, old(rootsId), rootsId)
      ensures r == CommitError ==> rootsId == old(rootsId) + |dirs|
      ensures r == Done ==> rootsId == old(rootsId) + |dirs|
                            && Rebuilt(tables, rootDirs, old(tables.words), dirs, old(rootsId), rootsId)
      ensures Faults() == old(Faults()) + Broke(r)
    {
      cache.Clear();
      r := CreateInside(dirs);
    }

    /** create's transaction, rolled back unless it commits. */
    method CreateInside(dirs: set<Dir>) returns (r: Outcome)
      requires Integrity(tables)
      modifies `tables, `rootDirs, `rootsId, `statements
      ensures Integrity(tables) && r in {Done, IoError, CommitError} && (r != Done ==> tables == old(tables))
      ensures (r == IoError && rootDirs == old(rootDirs) && rootsId == old(rootsId))
              || Filled(rootDirs, dirs, old(rootsId), rootsId)
      ensures r == CommitError ==> rootsId == old(rootsId) + |dirs|
      ensures r == Done ==> rootsId == old(rootsId) + |dirs|
                            && Rebuilt(tables, rootDirs, old(tables.words), dirs, old(rootsId), rootsId)
      ensures Faults() == old(Faults()) + Broke(r)
    {
      var saved := tables;
      r := Exec(Some(tables)); // CREATE TABLE IF NOT EXISTS
      if r == Done {
        r := ReplaceRoots(dirs);
      }
      if r == Done {
        r := Commit();
      }
      if r != Done {
        tables := saved;
      }
    }

    method ReplaceRoots(dirs: set<Dir>) returns (r: Outcome)
      requires Integrity(tables)
      modifies `tables, `rootDirs, `rootsId, `statements
      ensures r in {Done, IoError}
      ensures (r == IoError && rootDirs == old(rootDirs) && rootsId == old(rootsId))
              || Filled(rootDirs, dirs, old(rootsId), rootsId)
      ensures r == Done ==> rootsId == old(rootsId) + |dirs|
                            && Rebuilt(tables, rootDirs, old(tables.words), dirs, old(rootsId), rootsId)
      ensures Faults() == old(Faults()) + Broke(r)
    {
      r := EmptyRoots();
      if r == Done {
        r := RefillRoots(dirs);
      }
    }

    method RefillRoots(dirs: set<Dir>) returns (r: Outcome)
      requires Rebuilt(tables, map[], tables.words, {}, rootsId, rootsId)
      modifies `tables, `rootDirs, `rootsId, `statements
      ensures r in {Done, IoError} && Filled(rootDirs, dirs, old(rootsId), rootsId)
      ensures r == Done ==> rootsId == old(rootsId) + |dirs|
                            && Rebuilt(tables, rootDirs, old(tables.words), dirs, old(rootsId), rootsId)
      ensures Faults() == old(Faults()) + Broke(r)
    {
      rootDirs := map[];
      ghost var order, n;
      r, order, n := InsertRoots(dirs);
      LoopEnds(tables, rootDirs, old(tables.words), order, dirs, n, old(rootsId));
    }

    method EmptyRoots() returns (r: Outcome)
      requires Integrity(tables)
      modifies `tables, `statements
      ensures r in {Done, IoError}
      ensures r == Done ==> Rebuilt(tables, map[], old(tables.words), {}, rootsId, rootsId)
      ensures Faults() == old(Faults()) + Broke(r)
    {
      EmptyIsRebuilt(tables, rootsId);
      r := Exec(Some(DeleteRoots(tables, tables.roots.Keys)));
    }

    /** The loop of create, into empty tables: the roots of `order` before n are inserted. */
    method InsertRoots(dirs: set<Dir>) returns (r: Outcome, ghost order: seq<Dir>, ghost n: nat)
      requires rootDirs == map[] && Rebuilt(tables, map[], tables.words, {}, rootsId, rootsId)
      modifies `tables, `rootDirs, `rootsId, `statements
      ensures r in {Done, IoError} && Visits(order, dirs) && |order| == |dirs|
      ensures n <= |order| && InsertedFirst(order, n, old(rootsId))
      ensures r == Done ==> n == |order| && RebuiltFirst(order, n, old(tables.words), old(rootsId))
      ensures Faults() == old(Faults()) + Broke(r)
    {
      r := Done;
      var ascending := EnumerateDirs(dirs);
      LoopBegins(tables, tables.words, ascending, rootsId);
      var i := 0;
      while i < |ascending| && r == Done
        invariant 0 <= i <= |ascending| && r in {Done, IoError} && InsertedFirst(ascending, i, old(rootsId))
        invariant Faults() == old(Faults()) + Broke(r)
        invariant r == Done ==> RebuiltFirst(ascending, i, old(tables.words), old(rootsId))
        decreases |ascending| - i, r == Done
      {
        r := InsertNext(ascending, dirs, i, old(tables.words), old(rootsId));
        if r == Done {
          i := i + 1;
        }
      }
      order, n := ascending, i;
    }

    ghost predicate InsertedFirst(ascending: seq<Dir>, i: nat, from: int)
      requires i <= |ascending|
      reads this`rootsId, this`rootDirs
    {
      rootsId == from + i && rootDirs == Numbered(ascending[..i], from)
    }

    ghost predicate RebuiltFirst(ascending: seq<Dir>, i: nat, words: map<int, string>, from: int)
      requires i <= |ascending|
      reads this`tables, this`rootsId, this`rootDirs
    {
      Rebuilt(tables, rootDirs, words, Elements(ascending[..i]), from, rootsId)
    }

    method InsertNext(ascending: seq<Dir>, ghost dirs: set<Dir>, i: nat, ghost words: map<int, string>, ghost from: int)
      returns (r: Outcome)
      requires i < |ascending| && Visits(ascending, dirs)
      requires InsertedFirst(ascending, i, from) && RebuiltFirst(ascending, i, words, from)
      modifies `tables, `rootDirs, `rootsId, `statements
      ensures r in {Done, IoError}
      ensures r == Done ==> InsertedFirst(ascending, i + 1, from) && RebuiltFirst(ascending, i + 1, words, from)
      ensures r != Done ==> InsertedFirst(ascending, i, from)
      ensures Faults() == old(Faults()) + Broke(r)
    {
      NextElement(ascending, i);
      NumberedStep(ascending, from, i);
      RebuiltStep(tables, rootDirs, words, Elements(ascending[..i]), from, rootsId, ascending[i]);
      r := InsertRootDir(ascending[i]);
    }

    method AddRootDir(dir: Dir) returns (r: Outcome)
      requires Valid()
      modifies this, cache
      ensures Valid() && r != NoRoot && filesId == old(filesId) && wordsId == old(wordsId)
      ensures dir in old(rootDirs) ==>
                r == Done && tables == old(tables) && rootDirs == old(rootDirs) && rootsId == old(rootsId)
      ensures dir !in old(rootDirs) ==>
        && (r == Done ==> InsertRoot(old(tables), old(rootsId), dir) == Some(tables))
        && (r == CommitError ==> InsertRoot(old(tables), old(rootsId), dir).Some?)
        && (r == Constraint ==> InsertRoot(old(tables), old(rootsId), dir).None?)
        && (r != Done ==> tables == old(tables))
        && rootDirs == (if r in {Done, CommitError} then old(rootDirs)[dir := old(rootsId)] else old(rootDirs))
        && rootsId == (if r in {Done, CommitError} then old(rootsId) + 1 else old(rootsId))
      ensures Faults() == old(Faults()) + Broke(r)
    {
      if dir in rootDirs {
        return Done;
      }
      cache.Clear();
      var saved := tables;
      r := InsertRootDir(dir);
      if r != Done {
        return;
      }
      InsertRootIntegrity(saved, old(rootsId), dir);
      r := Commit();
      if r != Done {
        tables := saved;
      }
    }

    method RemoveRootDir(dir: Dir) returns (r: Outcome)
      requires Valid()
      modifies this, cache
      ensures Valid() && r !in {NoRoot, Constraint} && filesId == old(filesId) && wordsId == old(wordsId)
      ensures rootsId == old(rootsId)
      ensures dir !in old(rootDirs) ==> r == Done && tables == old(tables) && rootDirs == old(rootDirs)
      ensures dir in old(rootDirs) ==>
        && tables == (if r == Done then DeleteRoots(old(tables), RootsNamed(old(tables), dir)) else old(tables))
        && rootDirs == (if r in {Done, CommitError} then old(rootDirs) - {dir} else old(rootDirs))
      ensures Faults() == old(Faults()) + Broke(r)
    {
      if dir !in rootDirs {
        return Done;
      }
      cache.Clear();
      var saved := tables;
      DeleteRootsIntegrity(tables, RootsNamed(tables, dir));
      r := Exec(Some(DeleteRoots(tables, RootsNamed(tables, dir))));
      if r != Done {
        return;
      }
      rootDirs := rootDirs - {dir};
      r := Commit();
      if r != Done {
        tables := saved;
      }
    }

    // ---- files ----

    /** One pass of update_file's loop: the word's id, a new row if it has none, and the mapping. The
        counter moves on before the row is inserted, and no rollback takes it back. */
    method AddWord(word: string) returns (r: Outcome)
      requires Integrity(tables) && filesId in tables.files
      modifies `tables, `wordsId, `statements
      ensures r in {Done, Constraint, IoError}
      ensures r == Done ==> IndexWord(old(tables), filesId, old(wordsId), word) == Some((tables, wordsId))
      ensures r == Constraint ==> IndexWord(old(tables), filesId, old(wordsId), word).None?
      ensures r == Constraint ==> WordId(old(tables), word).None? && old(wordsId) in old(tables).words
      ensures wordsId == old(wordsId) + if WordId(old(tables), word).None? then 1 else 0
      ensures Faults() == old(Faults()) + Broke(r)
    {
      var id: int;
      if i :| i in tables.words && tables.words[i] == word {
        id := i;
        assert WordId(tables, word) == Some(i);
      } else {
        assert WordId(tables, word) == None;
        id := wordsId;
        wordsId := wordsId + 1;
        r := Exec(InsertWord(tables, id, word));
        if r != Done {
          return;
        }
      }
      r := Exec(InsertMapping(tables, Mapping(filesId, id)));
    }

    method UpdateFile(path: Dir, fingerprint: Fingerprint, words: seq<string>) returns (r: Outcome)
      requires Valid()
      modifies this, cache
      ensures Valid() && rootDirs == old(rootDirs) && rootsId == old(rootsId)
      ensures r == NoRoot <==> Resolve(rootDirs, path).None?
      ensures r != Done ==> tables == old(tables)
      ensures filesId == old(filesId) + if r in {Done, CommitError} then 1 else 0
      ensures Drawn(old(tables), words, old(wordsId), wordsId)
      ensures r == NoRoot ==> wordsId == old(wordsId)
      ensures r == Constraint ==>
                Refused(tables, old(filesId), RowOf(rootDirs, path, fingerprint), old(wordsId), wordsId)
      ensures r == Done ==>
                Indexing(old(tables), rootDirs, path, fingerprint, old(filesId), old(wordsId), words)
                == Some((tables, wordsId))
      ensures r == Constraint ==>
                Indexing(old(tables), rootDirs, path, fingerprint, old(filesId), old(wordsId), words).None?
      ensures Faults() == old(Faults()) + Broke(r)
    {
      cache.Clear();
      var at := RelativePath(path);
      if at.None? {
        return NoRoot;
      }
      var (rel, root) := at.value;
      r := Transact(FileRow(root, rel, Serialize(fingerprint)), words);
    }

    /** update_file's transaction, rolled back unless it commits. */
    method Transact(row: FileRow, words: seq<string>) returns (r: Outcome)
      requires Integrity(tables) && row.path != []
      modifies `tables, `filesId, `wordsId, `statements
      ensures Integrity(tables) && r != NoRoot && (r != Done ==> tables == old(tables))
      ensures filesId == old(filesId) + if r in {Done, CommitError} then 1 else 0
      ensures r == Done ==> IndexFile(old(tables), old(filesId), row, old(wordsId), words) == Some((tables, wordsId))
      ensures r == Constraint ==> IndexFile(old(tables), old(filesId), row, old(wordsId), words).None?
      ensures r == Constraint ==> Refused(old(tables), old(filesId), row, old(wordsId), wordsId)
      ensures Drawn(old(tables), words, old(wordsId), wordsId)
      ensures Faults() == old(Faults()) + Broke(r)
    {
      var saved := tables;
      r := IndexRow(row, words);
      if r == Done {
        filesId := filesId + 1;
        r := Commit();
      }
      if r != Done {
        tables := saved;
      }
    }

    /** The statements of update_file's transaction. */
    method IndexRow(row: FileRow, words: seq<string>) returns (r: Outcome)
      requires Integrity(tables) && row.path != []
      modifies `tables, `wordsId, `statements
      ensures r in {Done, Constraint, IoError} && Faults() == old(Faults()) + Broke(r)
      ensures RowIndexed(r, old(tables), filesId, row, old(wordsId), words, tables, wordsId)
    {
      ghost var t, next := tables, wordsId;
      r := WriteRow(row);
      if r == Done {
        r := AddRowWords(words, row, t);
      } else {
        RowFails(r, t, filesId, row, next, words, tables);
      }
    }

    /** The loop over the words of the row that has just been written to tables t. */
    method AddRowWords(words: seq<string>, ghost row: FileRow, ghost t: Tables) returns (r: Outcome)
      requires Integrity(tables) && filesId in tables.files && tables.words == t.words
      requires InsertFile(DeleteFiles(t, FilesAt(t, row.path, row.root)), filesId, row) == Some(tables)
      modifies `tables, `wordsId, `statements
      ensures r in {Done, Constraint, IoError} && Faults() == old(Faults()) + Broke(r)
      ensures RowIndexed(r, t, filesId, row, old(wordsId), words, tables, wordsId)
    {
      ghost var t1, next := tables, wordsId;
      r := AddWords(words);
      RowThenWords(r, t, t1, filesId, row, next, words, tables, wordsId);
    }

    method WriteRow(row: FileRow) returns (r: Outcome)
      requires Integrity(tables) && row.path != []
      modifies `tables, `statements
      ensures r in {Done, Constraint, IoError}
      ensures var t := DeleteFiles(old(tables), FilesAt(old(tables), row.path, row.root));
              && (r == Done ==>
                    InsertFile(t, filesId, row) == Some(tables) && Integrity(tables) && filesId in tables.files)
              && tables.words == old(tables).words
              && (r == Constraint ==> InsertFile(t, filesId, row).None?)
      ensures Faults() == old(Faults()) + Broke(r)
    {
      DeleteFilesEffect(tables, FilesAt(tables, row.path, row.root));
      r := Exec(Some(DeleteFiles(tables, FilesAt(tables, row.path, row.root))));
      if r == Done {
        ghost var t := tables;
        r := Exec(InsertFile(tables, filesId, row));
        if r == Done {
          InsertFileEffect(t, filesId, row);
        }
      }
    }

    method AddWords(words: seq<string>) returns (r: Outcome)
      requires Integrity(tables) && filesId in tables.files
      modifies `tables, `wordsId, `statements
      ensures r in {Done, Constraint, IoError}
      ensures r == Done ==>
                Integrity(tables)
                && IndexWords(old(tables), filesId, old(wordsId), words) == Some((tables, wordsId))
      ensures r == Constraint ==> IndexWords(old(tables), filesId, old(wordsId), words).None?
      ensures r == Constraint ==> wordsId > old(wordsId) && wordsId - 1 in old(tables).words
      ensures Drawn(old(tables), words, old(wordsId), wordsId)
      ensures Faults() == old(Faults()) + Broke(r)
    {
      r := Done;
      var i := 0;
      NoneAdded(tables, filesId, words, wordsId);
      while i < |words| && r == Done
        invariant 0 <= i <= |words| && r in {Done, Constraint, IoError} && Faults() == old(Faults()) + Broke(r)
        invariant r == Done ==> WordsAdded(old(tables), old(wordsId), words[..i])
        invariant r != Done ==> WordsBroken(r, old(tables), old(wordsId), words)
        decreases |words| - i, r == Done
      {
        r := AddNextWord(words, i, old(tables), old(wordsId));
        if r == Done {
          i := i + 1;
        }
      }
      if r == Done {
        AllAdded(old(tables), filesId, words, old(wordsId));
      }
    }

    /** The loop over the words was broken off. */
    ghost predicate WordsBroken(r: Outcome, t: Tables, from: int, words: seq<string>)
      reads this`filesId, this`wordsId
    {
      && (r == Constraint ==> IndexWords(t, filesId, from, words).None? && wordsId > from && wordsId - 1 in t.words)
      && Drawn(t, words, from, wordsId)
    }

    /** The words have been added to tables t from the counter on. */
    ghost predicate WordsAdded(t: Tables, from: int, words: seq<string>)
      reads this`tables, this`filesId, this`wordsId
    {
      && Integrity(tables) && filesId in tables.files && from <= wordsId
      && IndexWords(t, filesId, from, words) == Some((tables, wordsId))
    }

    /** The pass for words[i]; t and from are the tables and the counter before the loop. */
    method AddNextWord(words: seq<string>, i: nat, ghost t: Tables, ghost from: int) returns (r: Outcome)
      requires Integrity(t) && filesId in t.files && i < |words| && WordsAdded(t, from, words[..i])
      modifies `tables, `wordsId, `statements
      ensures r in {Done, Constraint, IoError} && Faults() == old(Faults()) + Broke(r)
      ensures r == Done ==> WordsAdded(t, from, words[..i + 1])
      ensures r != Done ==> WordsBroken(r, t, from, words)
    {
      ghost var before, next := tables, wordsId;
      r := AddWord(words[i]);
      if r == Done {
        NextWord(t, before, tables, filesId, from, next, wordsId, words, i);
      } else {
        DrawnAt(t, before, filesId, words, i, from, next);
        if r == Constraint {
          FailedWord(t, before, filesId, from, next, words, i);
        }
      }
    }

    method RemoveFile(path: Dir) returns (r: Outcome)
      requires Valid()
      modifies this, cache
      ensures Valid() && rootDirs == old(rootDirs) && filesId == old(filesId) && wordsId == old(wordsId)
      ensures rootsId == old(rootsId)
      ensures r == NoRoot <==> Resolve(rootDirs, path).None?
      ensures r != Constraint
      ensures r == Done ==> tables == DeleteFiles(old(tables), FilesNamed(old(tables), Resolve(rootDirs, path).value.0))
      ensures r != Done ==> tables == old(tables)
      ensures Faults() == old(Faults()) + Broke(r)
    {
      cache.Clear();
      var at := RelativePath(path);
      if at.None? {
        return NoRoot;
      }
      var (rel, root) := at.value;
      var saved := tables;
      DeleteFilesEffect(tables, FilesNamed(tables, rel));
      r := Exec(Some(DeleteFiles(tables, FilesNamed(tables, rel))));
      if r == Done {
        r := Commit();
      }
      if r != Done {
        tables := saved;
      }
    }

    method MoveFile(oldPath: Dir, path: Dir) returns (r: Outcome)
      requires Valid()
      modifies this, cache
      ensures Valid() && rootDirs == old(rootDirs) && filesId == old(filesId) && wordsId == old(wordsId)
      ensures rootsId == old(rootsId)
      ensures r == NoRoot <==> Resolve(rootDirs, oldPath).None? || Resolve(rootDirs, path).None?
      ensures r == Done ==> Moving(old(tables), rootDirs, oldPath, path) == Some(tables)
      ensures r == Constraint ==> Moving(old(tables), rootDirs, oldPath, path).None?
      ensures r != Done ==> tables == old(tables)
      ensures Faults() == old(Faults()) + Broke(r)
    {
      cache.Clear();
      var from := RelativePath(oldPath);
      if from.None? {
        return NoRoot;
      }
      var at := RelativePath(path);
      if at.None? {
        return NoRoot;
      }
      r := MoveRows(from.value.0, at.value.1, at.value.0);
    }

    /** move_file's transaction, rolled back unless it commits. */
    method MoveRows(oldRel: Dir, root: int, rel: Dir) returns (r: Outcome)
      requires Integrity(tables) && rel != []
      modifies `tables, `statements
      ensures Integrity(tables) && r != NoRoot
      ensures r == Done ==> MoveFiles(old(tables), oldRel, root, rel) == Some(tables)
      ensures r == Constraint ==> MoveFiles(old(tables), oldRel, root, rel).None?
      ensures r != Done ==> tables == old(tables)
      ensures Faults() == old(Faults()) + Broke(r)
    {
      var saved := tables;
      r := Exec(MoveFiles(tables, oldRel, root, rel));
      if r == Done {
        MoveIntegrity(saved, oldRel, root, rel);
        r := Commit();
      }
      if r != Done {
        tables := saved;
      }
    }

    // ---- search ----

    /** One query of the join, its rows in any order, counted into the result map. */
    method Collect(word: string, found: map<SearchResult, nat>) returns (o: Outcome, r: map<SearchResult, nat>)
      requires Integrity(tables)
      modifies `statements
      ensures o in {Done, IoError}
      ensures o == Done ==> forall x :: x in r <==>
        x in found
        || exists m :: m in tables.mappings && JoinHit(like, tables, m, word) && x == Result(PathOf(tables, m.file))
      ensures Faults() == old(Faults()) + Broke(o)
    {
      o, r := Done, found;
      var ok := Proceed();
      if !ok {
        return IoError, r;
      }
      var rows := set k | 0 <= k < |tables.mappings| && JoinHit(like, tables, tables.mappings[k], word);
      ghost var all := rows;
      while rows != {}
        invariant rows <= all && o == Done && Faults() == old(Faults())
        invariant forall x :: x in r <==>
          x in found || exists k :: k in all && k !in rows && x == Result(PathOf(tables, tables.mappings[k].file))
        decreases rows
      {
        ok := Proceed();
        if !ok {
          return IoError, r;
        }
        var k :| k in rows;
        rows := rows - {k};
        var row := tables.files[tables.mappings[k].file];
        var p := Join(tables.roots[row.root], row.path);
        var result := SearchResult(Parent(p), Filename(p), Extension(Filename(p)));
        r := r[result := if result in r then r[result] + 1 else 1];
      }
    }

    /** search without the cache. */
    method FreshSearch(words: seq<string>) returns (o: Outcome, r: seq<SearchResult>)
      requires Integrity(tables)
      modifies `statements
      ensures o in {Done, IoError} && (o == Done ==> IsAnswer(like, tables, words, r))
      ensures Faults() == old(Faults()) + Broke(o)
    {
      o, r := Done, [];
      var found: map<SearchResult, nat> := map[];
      for i := 0 to |words|
        invariant o == Done && Faults() == old(Faults())
        invariant forall x :: x in found <==> x in Matches(like, tables, words[..i])
      {
        o, found := Collect(words[i], found);
        if o != Done {
          return;
        }
        MatchesMore(like, tables, words, i);
      }
      assert words[..|words|] == words;
      r := EnumerateResults(found.Keys);
    }

    /** search: a query that SQLite breaks off is an exception, and nothing is cached. */
    method Search(words: seq<string>) returns (o: Outcome, r: seq<SearchResult>)
      requires Valid()
      modifies `statements, cache
      ensures Valid() && o in {Done, IoError} && (o == Done ==> IsAnswer(like, tables, words, r))
      ensures o != Done ==> cache.entries == old(cache.entries) && cache.queue == old(cache.queue)
      ensures o == Done && OneOrder(cache.keysSoFar + {words}) ==> cache.Stores(words)
      ensures old(OneOrder(cache.keysSoFar + {words}) && cache.Stores(words)) ==>
                o == Done && statements == old(statements)
      ensures Faults() == old(Faults()) + Broke(o)
    {
      var hit := cache.Get(words);
      if hit.Some? {
        return Done, hit.value;
      }
      o, r := FreshSearch(words);
      if o == Done {
        cache.Insert(words, r);
      }
    }
  }

  method EnumerateResults(s: set<SearchResult>) returns (r: seq<SearchResult>)
    ensures Ascending(ResultLess, r) && forall x :: x in r <==> x in s
  {
    ResultOrder();
    r := Enumerate(ResultLess, s);
  }

  lemma MatchesMore(like: (string, string) -> bool, t: Tables, words: seq<string>, i: nat)
    requires Integrity(t) && i < |words|
    ensures forall x :: x in Matches(like, t, words[..i + 1])
              <==> x in Matches(like, t, words[..i])
                   || exists m :: m in t.mappings && JoinHit(like, t, m, words[i]) && x == Result(PathOf(t, m.file))
  {
    var longer, shorter := Matches(like, t, words[..i + 1]), Matches(like, t, words[..i]);
    forall m | m in t.mappings
      ensures HitsAny(like, t, m, words[..i + 1]) <==> HitsAny(like, t, m, words[..i]) || JoinHit(like, t, m, words[i])
    {
      assert words[..i + 1][i] == words[i];
      assert forall j :: 0 <= j < i ==> words[..i + 1][j] == words[..i][j];
    }
    forall x | x in longer
      ensures x in shorter
              || exists m :: m in t.mappings && JoinHit(like, t, m, words[i]) && x == Result(PathOf(t, m.file))
    {
      var m :| m in t.mappings && HitsAny(like, t, m, words[..i + 1]) && x == Result(PathOf(t, m.file));
    }
    forall x | x in shorter ensures x in longer {
      var m :| m in t.mappings && HitsAny(like, t, m, words[..i]) && x == Result(PathOf(t, m.file));
    }
    forall m | m in t.mappings && JoinHit(like, t, m, words[i]) ensures Result(PathOf(t, m.file)) in longer {
      assert HitsAny(like, t, m, words[..i + 1]);
    }
  }

  lemma InsertRootIntegrity(t: Tables, id: int, dir: Dir)
    requires Integrity(t) && InsertRoot(t, id, dir).Some?
    ensures Integrity(InsertRoot(t, id, dir).value)
  {
  }

  lemma DeleteRootsIntegrity(t: Tables, gone: set<int>)
    requires Integrity(t)
    ensures Integrity(DeleteRoots(t, gone))
  {
    DeleteFilesEffect(t, FilesUnder(t, gone));
  }

  lemma MoveIntegrity(t: Tables, oldRel: Dir, root: int, rel: Dir)
    requires Integrity(t) && rel != [] && MoveFiles(t, oldRel, root, rel).Some?
    ensures Integrity(MoveFiles(t, oldRel, root, rel).value)
  {
    if root in t.roots {
      MoveFilesEffect(t, oldRel, root, rel);
    } else {
      forall f | f in t.files ensures t.files[f].path != oldRel {
        assert f !in FilesNamed(t, oldRel);
      }
    }
  }

  function Elements(s: seq<Dir>): set<Dir> {
    set d | d in s
  }

  lemma NextElement(s: seq<Dir>, i: nat)
    requires Ascending(PathLess, s) && i < |s|
    ensures s[i] !in s[..i] && Elements(s[..i + 1]) == Elements(s[..i]) + {s[i]}
  {
    PathOrder();
    assert s[..i + 1] == s[..i] + [s[i]];
  }

  lemma AllElements(s: seq<Dir>, dirs: set<Dir>)
    requires forall d :: d in s <==> d in dirs
    ensures Elements(s[..0]) == {} && Elements(s[..|s|]) == dirs
  {
    assert s[..|s|] == s;
  }

  lemma FirstIsOutermost(dirs: seq<Dir>, roots: set<Dir>, p: Dir, i: nat)
    requires Ascending(PathLess, dirs) && forall d :: d in dirs <==> d in roots
    requires i < |dirs| && IsAncestor(dirs[i], p) && forall j :: 0 <= j < i ==> !IsAncestor(dirs[j], p)
    ensures Outermost(roots, p) == Some(dirs[i])
  {
    PathOrder();
    var o := Outermost(roots, p).value;
    if |o| < |dirs[i]| {
      var j :| 0 <= j < |dirs| && dirs[j] == o;
      AncestorFirst(o, dirs[i]);
      assert false;
    }
    assert o == p[..|o|] && dirs[i] == p[..|o|];
  }

  lemma AllRootsDeleted(t: Tables)
    requires Integrity(t)
    ensures DeleteRoots(t, t.roots.Keys) == Tables(map[], map[], t.words, [])
  {
    var left := t.files.Keys - FilesUnder(t, t.roots.Keys);
    if left != {} {
      var f := Pick(left);
      assert false;
    }
    AllRemoved(t.files, FilesUnder(t, t.roots.Keys));
    assert t.roots.Keys - t.roots.Keys == {};
    AllRemoved(t.roots, t.roots.Keys);
    NoneLeft(t.mappings, FilesUnder(t, t.roots.Keys));
  }

  lemma {:induction false} NoneLeft(ms: seq<Mapping>, gone: set<int>)
    requires forall m :: m in ms ==> m.file in gone
    ensures Without(ms, gone) == []
  {
    if ms != [] {
      NoneLeft(ms[1..], gone);
    }
  }
}
