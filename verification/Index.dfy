/** What the tables mean: absolute path -> set of words. The statements of core/vca/sqlite_userdb.cpp
    against that meaning. */
module Index {
  import opened Wrappers
  import opened Orders
  import opened Paths
  import opened SearchCaches
  import opened Tables

  ghost function PathOf(t: Tables, f: int): Dir
    requires f in t.files && t.files[f].root in t.roots
  {
    Join(t.roots[t.files[f].root], t.files[f].path)
  }

  ghost predicate At(t: Tables, p: Dir, f: int) {
    f in t.files && t.files[f].root in t.roots && PathOf(t, f) == p
  }

  ghost function WordsAt(t: Tables, p: Dir): set<string> {
    set tag | tag in Tags(t) && At(t, p, tag.0) :: tag.1
  }

  ghost function Indexed(t: Tables): set<Dir> {
    set f | f in t.files && t.files[f].root in t.roots :: PathOf(t, f)
  }

  ghost function Docs(t: Tables): map<Dir, set<string>> {
    map p | p in Indexed(t) :: WordsAt(t, p)
  }

  ghost predicate UnnestedRoots(t: Tables) {
    Integrity(t) && Unnested(RootDirs(t))
  }

  lemma IndexedAt(t: Tables, p: Dir)
    ensures p in Docs(t) <==> exists f :: At(t, p, f)
  {
    if p in Indexed(t) {
      var f :| f in t.files && t.files[f].root in t.roots && PathOf(t, f) == p;
      assert At(t, p, f);
    }
  }

  /** Un-nested roots give every path one place in the tables. */
  lemma SamePlace(t: Tables, f: int, g: int)
    requires UnnestedRoots(t) && f in t.files && g in t.files && PathOf(t, f) == PathOf(t, g)
    ensures t.files[f].root == t.files[g].root && t.files[f].path == t.files[g].path
  {
    var p, a, b := PathOf(t, f), t.roots[t.files[f].root], t.roots[t.files[g].root];
    assert a in RootDirs(t) && b in RootDirs(t);
    assert IsAncestor(a, p) && IsAncestor(b, p);
    RootUnique(RootDirs(t), p, a);
    assert p == a + t.files[f].path == a + t.files[g].path;
    assert t.files[f].path == p[|a|..] == t.files[g].path;
  }

  /** A row of the given root holds `path` exactly when its relative path is the right one. */
  lemma PlaceOf(t: Tables, path: Dir, root: int, f: int)
    requires UnnestedRoots(t) && root in t.roots && IsAncestor(t.roots[root], path) && f in t.files
    ensures At(t, path, f) <==> t.files[f].root == root && t.files[f].path == Relative(path, t.roots[root])
  {
    var dir := t.roots[root];
    assert dir in RootDirs(t);
    if At(t, path, f) {
      var a := t.roots[t.files[f].root];
      assert a in RootDirs(t) && IsAncestor(a, path);
      RootUnique(RootDirs(t), path, dir);
      assert path == dir + t.files[f].path;
    }
  }

  // ---- deleting files ----

  lemma DeleteFilesEffect(t: Tables, gone: set<int>)
    requires Integrity(t)
    ensures var t' := DeleteFiles(t, gone);
            && Integrity(t') && t'.roots == t.roots && t'.words == t.words
            && (forall tag :: tag in Tags(t') <==> tag in Tags(t) && tag.0 !in gone)
            && (forall p, f :: At(t', p, f) <==> At(t, p, f) && f !in gone)
  {
    var t' := DeleteFiles(t, gone);
    forall tag ensures tag in Tags(t') <==> tag in Tags(t) && tag.0 !in gone {
      if tag in Tags(t) && tag.0 !in gone {
        var m :| m in t.mappings && m.word in t.words && tag == (m.file, t.words[m.word]);
        assert m in t'.mappings;
      }
    }
  }

  /** Deleting whole places deletes exactly their paths. */
  lemma DeletePlaces(t: Tables, gone: set<int>, paths: set<Dir>)
    requires Integrity(t)
    requires forall p, f :: At(t, p, f) ==> (f in gone <==> p in paths)
    ensures Docs(DeleteFiles(t, gone)) == Docs(t) - paths
  {
    var t' := DeleteFiles(t, gone);
    DeleteFilesEffect(t, gone);
    forall p ensures p in Docs(t') <==> p in Docs(t) && p !in paths {
      IndexedAt(t, p);
      IndexedAt(t', p);
    }
    forall p | p in Docs(t') ensures Docs(t')[p] == Docs(t)[p] {
      assert WordsAt(t', p) == WordsAt(t, p);
    }
  }

  /** remove_file: deletes by relative path under every root, so it deletes one path exactly when no
      other root holds that relative path. */
  lemma RemoveFileRefines(t: Tables, path: Dir, root: int)
    requires UnnestedRoots(t) && root in t.roots && IsAncestor(t.roots[root], path)
    ensures var named := FilesNamed(t, Relative(path, t.roots[root]));
            Docs(DeleteFiles(t, named)) == Docs(t) - {path} <==> forall f :: f in named ==> t.files[f].root == root
  {
    var named := FilesNamed(t, Relative(path, t.roots[root]));
    if forall f :: f in named ==> t.files[f].root == root {
      forall p, f | At(t, p, f) ensures f in named <==> p in {path} {
        PlaceOf(t, path, root, f);
      }
      DeletePlaces(t, named, {path});
    } else {
      var f :| f in named && t.files[f].root != root;
      var q, t' := PathOf(t, f), DeleteFiles(t, named);
      PlaceOf(t, path, root, f);
      assert At(t, q, f);
      IndexedAt(t, q);
      DeleteFilesEffect(t, named);
      forall g ensures !At(t', q, g) {
        if At(t, q, g) {
          SamePlace(t, f, g);
        }
      }
      IndexedAt(t', q);
    }
  }

  /** remove_root_dir: deletes the paths under that root. */
  lemma RemoveRootRefines(t: Tables, root: int)
    requires UnnestedRoots(t) && root in t.roots
    ensures var t' := DeleteRoots(t, {root});
            && UnnestedRoots(t') && RootDirs(t') == RootDirs(t) - {t.roots[root]}
            && Docs(t') == map p | p in Docs(t) && !IsAncestor(t.roots[root], p) :: Docs(t)[p]
  {
    var dir, gone := t.roots[root], FilesUnder(t, {root});
    var under := set p | p in Docs(t) && IsAncestor(dir, p);
    forall p, f | At(t, p, f) ensures f in gone <==> p in under {
      IndexedAt(t, p);
      if IsAncestor(dir, p) {
        PlaceOf(t, p, root, f);
      }
    }
    DeletePlaces(t, gone, under);
    DeleteFilesEffect(t, gone);
    var t1, t' := DeleteFiles(t, gone), DeleteRoots(t, {root});
    RootRowRemoved(t1, t', root);
  }

  lemma RootRowRemoved(t: Tables, t': Tables, root: int)
    requires UnnestedRoots(t) && root in t.roots && t' == t.(roots := t.roots - {root})
    requires forall f :: f in t.files ==> t.files[f].root != root
    ensures UnnestedRoots(t') && RootDirs(t') == RootDirs(t) - {t.roots[root]} && Docs(t') == Docs(t)
  {
    forall d ensures d in RootDirs(t') <==> d in RootDirs(t) && d != t.roots[root] {
      if d in RootDirs(t) && d != t.roots[root] {
        var i :| i in t.roots && t.roots[i] == d;
        assert i in t'.roots && t'.roots[i] == d;
      }
    }
    SameDocs(t, t');
  }

  lemma SameDocs(t: Tables, t': Tables)
    requires Tags(t') == Tags(t) && forall p, f :: At(t', p, f) <==> At(t, p, f)
    ensures Docs(t') == Docs(t)
  {
    forall p ensures p in Docs(t') <==> p in Docs(t) {
      IndexedAt(t, p);
      IndexedAt(t', p);
    }
    forall p | p in Docs(t) ensures Docs(t')[p] == Docs(t)[p] {
      assert WordsAt(t', p) == WordsAt(t, p);
    }
  }

  /** add_root_dir: no document appears. */
  lemma AddRootRefines(t: Tables, id: int, dir: Dir)
    requires Integrity(t) && InsertRoot(t, id, dir).Some?
    ensures var t' := InsertRoot(t, id, dir).value;
            Integrity(t') && RootDirs(t') == RootDirs(t) + {dir} && Docs(t') == Docs(t)
  {
    var t' := InsertRoot(t, id, dir).value;
    forall d ensures d in RootDirs(t') <==> d in RootDirs(t) || d == dir {
      if d in RootDirs(t) {
        var i :| i in t.roots && t.roots[i] == d;
        assert t'.roots[i] == d;
      }
      assert t'.roots[id] == dir;
    }
    SameDocs(t, t');
  }

  // ---- update_file ----

  lemma InsertFileEffect(t: Tables, id: int, row: FileRow)
    requires Integrity(t) && row.path != [] && InsertFile(t, id, row).Some?
    ensures var t' := InsertFile(t, id, row).value;
            && Integrity(t') && t'.roots == t.roots && t'.words == t.words && Tags(t') == Tags(t)
            && (forall p, f :: At(t', p, f) <==> At(t, p, f) || (f == id && p == Join(t.roots[row.root], row.path)))
            && (forall tag :: tag in Tags(t') ==> tag.0 != id)
  {
  }

  /** Tables that differ only in what they say about one path. */
  lemma DocsUpdated(t: Tables, t': Tables, path: Dir, words: set<string>)
    requires forall p, f :: p != path ==> (At(t', p, f) <==> At(t, p, f))
    requires forall p, f, w :: p != path && At(t, p, f) ==> ((f, w) in Tags(t') <==> (f, w) in Tags(t))
    requires exists f :: At(t', path, f)
    requires forall w :: w in words <==> exists f :: At(t', path, f) && (f, w) in Tags(t')
    ensures Docs(t') == Docs(t)[path := words]
  {
    forall p ensures p in Docs(t') <==> p in Docs(t) || p == path {
      IndexedAt(t, p);
      IndexedAt(t', p);
    }
    forall w ensures w in WordsAt(t', path) <==> w in words {
      if w in words {
        var f :| At(t', path, f) && (f, w) in Tags(t');
        assert (f, w).1 == w;
      }
    }
    assert Docs(t')[path] == words;
    forall p | p in Docs(t') && p != path ensures Docs(t')[p] == Docs(t)[p] {
      forall w ensures w in WordsAt(t', p) <==> w in WordsAt(t, p) {
        assert w in WordsAt(t', p) <==> exists f :: At(t', p, f) && (f, w) in Tags(t');
        assert w in WordsAt(t, p) <==> exists f :: At(t, p, f) && (f, w) in Tags(t);
      }
    }
  }

  /** Deleting and inserting a row: it becomes the only one at its path. */
  lemma ReplaceRow(t: Tables, path: Dir, file: int, row: FileRow)
    requires UnnestedRoots(t) && row.root in t.roots && IsAncestor(t.roots[row.root], path)
    requires row.path == Relative(path, t.roots[row.root])
    requires InsertFile(DeleteFiles(t, FilesAt(t, row.path, row.root)), file, row).Some?
    ensures var t2 := InsertFile(DeleteFiles(t, FilesAt(t, row.path, row.root)), file, row).value;
            && UnnestedRoots(t2) && t2.roots == t.roots && t2.words == t.words
            && (forall p, f :: At(t2, p, f) <==> (f == file && p == path) || (p != path && At(t, p, f)))
            && (forall f, w :: (f, w) in Tags(t2) ==> f != file)
            && (forall p, f, w :: p != path && At(t, p, f) ==> ((f, w) in Tags(t2) <==> (f, w) in Tags(t)))
  {
    var gone := FilesAt(t, row.path, row.root);
    DeleteFilesEffect(t, gone);
    InsertFileEffect(DeleteFiles(t, gone), file, row);
    forall p, f | At(t, p, f) ensures f in gone <==> p == path {
      PlaceOf(t, path, row.root, f);
    }
  }

  /** update_file: when it commits it replaces exactly the words of one path. */
  lemma UpdateFileRefines(t: Tables, path: Dir, file: int, row: FileRow, next: int, words: seq<string>)
    requires UnnestedRoots(t) && row.root in t.roots && IsAncestor(t.roots[row.root], path)
    requires row.path == Relative(path, t.roots[row.root])
    requires IndexFile(t, file, row, next, words).Some?
    ensures var t' := IndexFile(t, file, row, next, words).value.0;
            UnnestedRoots(t') && t'.roots == t.roots && Docs(t') == Docs(t)[path := Words(words)]
  {
    ReplaceRow(t, path, file, row);
    var t2 := InsertFile(DeleteFiles(t, FilesAt(t, row.path, row.root)), file, row).value;
    IndexWordsEffect(t2, file, next, words);
    var t' := IndexWords(t2, file, next, words).value.0;
    forall p, f ensures At(t', p, f) <==> At(t2, p, f) {
    }
    ReplacedTags(t, t2, t', path, file, words);
  }

  /** The new row is the only one at its path, and every other row is an old one. */
  lemma UpdateFileRow(t: Tables, path: Dir, file: int, row: FileRow, next: int, words: seq<string>)
    requires UnnestedRoots(t) && row.root in t.roots && IsAncestor(t.roots[row.root], path)
    requires row.path == Relative(path, t.roots[row.root])
    requires IndexFile(t, file, row, next, words).Some?
    ensures var t' := IndexFile(t, file, row, next, words).value.0;
            && At(t', path, file) && t'.files[file] == row && (forall g :: At(t', path, g) ==> g == file)
            && (forall g :: g in t'.files && g != file ==> g in t.files && t'.files[g] == t.files[g])
  {
    ReplaceRow(t, path, file, row);
    var t2 := InsertFile(DeleteFiles(t, FilesAt(t, row.path, row.root)), file, row).value;
    IndexWordsEffect(t2, file, next, words);
    var t' := IndexWords(t2, file, next, words).value.0;
    forall p, f ensures At(t', p, f) <==> At(t2, p, f) {
    }
  }

  lemma ReplacedTags(t: Tables, t2: Tables, t': Tables, path: Dir, file: int, words: seq<string>)
    requires Tags(t') == Tags(t2) + TagsOf(file, words)
    requires forall f, w :: (f, w) in Tags(t2) ==> f != file
    requires forall p, f :: At(t', p, f) <==> (f == file && p == path) || (p != path && At(t, p, f))
    requires forall p, f, w :: p != path && At(t, p, f) ==> ((f, w) in Tags(t2) <==> (f, w) in Tags(t))
    ensures Docs(t') == Docs(t)[path := Words(words)]
  {
    assert At(t', path, file);
    forall f, w ensures (f, w) in Tags(t') <==> (f, w) in Tags(t2) || (f == file && w in words) {
    }
    DocsUpdated(t, t', path, Words(words));
  }

  /** update_file is refused by a constraint exactly when the counters hand out an id already taken. */
  lemma UpdateFileSucceeds(t: Tables, file: int, row: FileRow, next: int, words: seq<string>)
    requires Integrity(t) && row.root in t.roots && row.path != []
    ensures IndexFile(t, file, row, next, words).Some?
       <==> (file in t.files ==> file in FilesAt(t, row.path, row.root))
            && IdsFree(t.words, next, |Words(words) - Texts(t)|)
  {
    var t1 := DeleteFiles(t, FilesAt(t, row.path, row.root));
    DeleteFilesEffect(t, FilesAt(t, row.path, row.root));
    if file !in t1.files {
      InsertFileEffect(t1, file, row);
      IndexWordsSucceeds(InsertFile(t1, file, row).value, file, next, words);
    }
  }

  // ---- move_file ----

  ghost function Moved(d: map<Dir, set<string>>, source: Dir, target: Dir): map<Dir, set<string>> {
    if source in d then (d - {source})[target := d[source]] else d
  }

  lemma MoveFilesEffect(t: Tables, oldRel: Dir, root: int, rel: Dir)
    requires Integrity(t) && root in t.roots && rel != []
    ensures var r, named := MoveFiles(t, oldRel, root, rel), FilesNamed(t, oldRel);
            && r.Some? && Integrity(r.value) && r.value.roots == t.roots && r.value.words == t.words
            && Tags(r.value) == Tags(t)
            && (forall p, f :: At(r.value, p, f) <==> if f in named then p == Join(t.roots[root], rel) else At(t, p, f))
  {
  }

  /** The rows move_file changes are at the old path, or already at the new one. */
  ghost predicate OnlyHere(t: Tables, oldRel: Dir, source: Dir, target: Dir)
    requires Integrity(t)
  {
    forall f :: f in FilesNamed(t, oldRel) ==> PathOf(t, f) == source || PathOf(t, f) == target
  }

  /** move_file renames exactly one path when no other root holds the old relative path and the
      target, if it is indexed, adds no word. */
  lemma MoveFileRefines(t: Tables, source: Dir, oldRoot: int, target: Dir, root: int)
    requires UnnestedRoots(t) && oldRoot in t.roots && root in t.roots
    requires IsAncestor(t.roots[oldRoot], source) && IsAncestor(t.roots[root], target)
    ensures var oldRel, d := Relative(source, t.roots[oldRoot]), Docs(t);
            var r := MoveFiles(t, oldRel, root, Relative(target, t.roots[root]));
            && r.Some? && UnnestedRoots(r.value)
            && (Docs(r.value) == Moved(d, source, target)
                <==> OnlyHere(t, oldRel, source, target)
                     && (source in d && target in d && source != target ==> d[target] <= d[source]))
  {
    var oldRel, rel := Relative(source, t.roots[oldRoot]), Relative(target, t.roots[root]);
    MoveFilesEffect(t, oldRel, root, rel);
    forall f | At(t, source, f) ensures f in FilesNamed(t, oldRel) {
      PlaceOf(t, source, oldRoot, f);
    }
    MovedIff(t, MoveFiles(t, oldRel, root, rel).value, oldRel, source, target);
  }

  lemma MovedIff(t: Tables, t': Tables, oldRel: Dir, source: Dir, target: Dir)
    requires MovedTo(t, t', oldRel, source, target)
    ensures Docs(t') == Moved(Docs(t), source, target)
       <==> OnlyHere(t, oldRel, source, target)
            && (source in Docs(t) && target in Docs(t) && source != target ==> Docs(t)[target] <= Docs(t)[source])
  {
    if f :| f in FilesNamed(t, oldRel) && PathOf(t, f) != source && PathOf(t, f) != target {
      LostElsewhere(t, t', oldRel, source, target, f);
    } else if source in Docs(t) && target in Docs(t) && source != target && !(Docs(t)[target] <= Docs(t)[source]) {
      var w :| w in Docs(t)[target] && w !in Docs(t)[source];
      MergedWords(t, t', oldRel, source, target, w);
    } else {
      MovedOne(t, t', oldRel, source, target);
    }
  }

  ghost predicate MovedTo(t: Tables, t': Tables, oldRel: Dir, source: Dir, target: Dir) {
    && UnnestedRoots(t) && Tags(t') == Tags(t)
    && (forall p, f :: At(t', p, f) <==> if f in FilesNamed(t, oldRel) then p == target else At(t, p, f))
    && (forall f :: At(t, source, f) ==> f in FilesNamed(t, oldRel))
  }

  lemma LostElsewhere(t: Tables, t': Tables, oldRel: Dir, source: Dir, target: Dir, f: int)
    requires MovedTo(t, t', oldRel, source, target)
    requires f in FilesNamed(t, oldRel) && PathOf(t, f) != source && PathOf(t, f) != target
    ensures Docs(t') != Moved(Docs(t), source, target)
  {
    var q := PathOf(t, f);
    assert At(t, q, f);
    IndexedAt(t, q);
    IndexedAt(t', q);
    forall g ensures !At(t', q, g) {
      if At(t, q, g) {
        SamePlace(t, f, g);
      }
    }
  }

  lemma MergedWords(t: Tables, t': Tables, oldRel: Dir, source: Dir, target: Dir, w: string)
    requires MovedTo(t, t', oldRel, source, target)
    requires source in Docs(t) && target in Docs(t) && source != target && w in Docs(t)[target] && w !in Docs(t)[source]
    ensures Docs(t') != Moved(Docs(t), source, target)
  {
    var tag :| tag in Tags(t) && At(t, target, tag.0) && tag.1 == w;
    assert At(t', target, tag.0);
    IndexedAt(t', target);
    assert w in WordsAt(t', target);
  }

  lemma MovedOne(t: Tables, t': Tables, oldRel: Dir, source: Dir, target: Dir)
    requires MovedTo(t, t', oldRel, source, target) && OnlyHere(t, oldRel, source, target)
    requires source in Docs(t) && target in Docs(t) && source != target ==> Docs(t)[target] <= Docs(t)[source]
    ensures Docs(t') == Moved(Docs(t), source, target)
  {
    var d, d' := Docs(t), Docs(t');
    forall p ensures p in d' <==> p in Moved(d, source, target) {
      MovedKeys(t, t', oldRel, source, target, p);
    }
    forall p | p in d' ensures d'[p] == Moved(d, source, target)[p] {
      MovedKeys(t, t', oldRel, source, target, p);
      MovedWords(t, t', oldRel, source, target, p);
    }
  }

  lemma MovedKeys(t: Tables, t': Tables, oldRel: Dir, source: Dir, target: Dir, p: Dir)
    requires MovedTo(t, t', oldRel, source, target) && OnlyHere(t, oldRel, source, target)
    ensures p in Docs(t') <==> p in Moved(Docs(t), source, target)
  {
    IndexedAt(t, p);
    IndexedAt(t', p);
    IndexedAt(t, source);
    forall f | f in FilesNamed(t, oldRel) ensures At(t, source, f) || At(t, target, f) {
    }
    if f :| At(t, p, f) && p != source && p != target {
      assert f !in FilesNamed(t, oldRel);
      assert At(t', p, f);
    }
    if f :| At(t, source, f) {
      assert At(t', target, f);
    }
    if f :| At(t, target, f) {
      assert At(t', target, f);
    }
  }

  lemma MovedWords(t: Tables, t': Tables, oldRel: Dir, source: Dir, target: Dir, p: Dir)
    requires MovedTo(t, t', oldRel, source, target) && OnlyHere(t, oldRel, source, target)
    requires source in Docs(t) && target in Docs(t) && source != target ==> Docs(t)[target] <= Docs(t)[source]
    requires p in Docs(t') && p in Moved(Docs(t), source, target)
    ensures Docs(t')[p] == Moved(Docs(t), source, target)[p]
  {
    IndexedAt(t, source);
    IndexedAt(t, target);
    forall f | f in FilesNamed(t, oldRel) ensures At(t, source, f) || At(t, target, f) {
    }
    if p == target && source in Docs(t) {
      TargetWords(t, t', oldRel, source, target);
      assert target !in Docs(t) ==> WordsAt(t, target) == {};
    } else {
      forall f ensures At(t', p, f) <==> At(t, p, f) {
      }
      assert WordsAt(t', p) == WordsAt(t, p);
    }
  }

  lemma TargetWords(t: Tables, t': Tables, oldRel: Dir, source: Dir, target: Dir)
    requires MovedTo(t, t', oldRel, source, target) && OnlyHere(t, oldRel, source, target)
    ensures WordsAt(t', target) == WordsAt(t, source) + WordsAt(t, target)
  {
    forall f ensures At(t', target, f) <==> At(t, source, f) || At(t, target, f) {
    }
    forall w ensures w in WordsAt(t', target) <==> w in WordsAt(t, source) + WordsAt(t, target) {
      if w in WordsAt(t, source) + WordsAt(t, target) {
        var tag :| tag in Tags(t) && (At(t, source, tag.0) || At(t, target, tag.0)) && tag.1 == w;
        assert tag in Tags(t') && At(t', target, tag.0);
      }
    }
  }

  ghost predicate RowsUnique(t: Tables) {
    forall f, g ::
      f in t.files && g in t.files && t.files[f].root == t.files[g].root && t.files[f].path == t.files[g].path
      ==> f == g
  }

  /** Moving keeps one row per place exactly when it moves at most one row, to a free place. */
  lemma MoveKeepsRowsUnique(t: Tables, oldRel: Dir, root: int, rel: Dir)
    requires RowsUnique(t) && MoveFiles(t, oldRel, root, rel).Some?
    ensures RowsUnique(MoveFiles(t, oldRel, root, rel).value)
       <==> (forall f, g :: f in FilesNamed(t, oldRel) && g in FilesNamed(t, oldRel) + FilesAt(t, rel, root) ==> f == g)
  {
    var t', named, there := MoveFiles(t, oldRel, root, rel).value, FilesNamed(t, oldRel), FilesAt(t, rel, root);
    if f, g :| f in named && g in named + there && f != g {
      assert t'.files[f].path == t'.files[g].path && t'.files[f].root == t'.files[g].root;
    } else {
      forall f, g |
        f in t'.files && g in t'.files && t'.files[f].root == t'.files[g].root && t'.files[f].path == t'.files[g].path
        ensures f == g
      {
        assert f in named ==> g in named + there;
        assert g in named ==> f in named + there;
      }
    }
  }

  lemma InsertKeepsRowsUnique(files: map<int, FileRow>, gone: set<int>, file: int, row: FileRow)
    requires forall f, g ::
      f in files && g in files && files[f].root == files[g].root && files[f].path == files[g].path ==> f == g
    requires forall f :: f in files && files[f].root == row.root && files[f].path == row.path ==> f in gone
    ensures var r := (files - gone)[file := row];
            forall f, g :: f in r && g in r && r[f].root == r[g].root && r[f].path == r[g].path ==> f == g
  {
  }

  /** update_file never makes a second row for a place, since it deletes what is there first. */
  lemma IndexFileKeepsRowsUnique(t: Tables, file: int, row: FileRow, next: int, words: seq<string>)
    requires Integrity(t) && RowsUnique(t) && row.path != [] && IndexFile(t, file, row, next, words).Some?
    ensures RowsUnique(IndexFile(t, file, row, next, words).value.0)
  {
    var gone := FilesAt(t, row.path, row.root);
    var inserted := InsertFile(DeleteFiles(t, gone), file, row).value;
    DeleteFilesEffect(t, gone);
    InsertFileEffect(DeleteFiles(t, gone), file, row);
    IndexWordsEffect(inserted, file, next, words);
    assert inserted.files == (t.files - gone)[file := row];
    InsertKeepsRowsUnique(t.files, gone, file, row);
  }

  /** Moving there and back restores the tables exactly when no other root held the old relative
      path and nobody else held the new one. */
  lemma MoveBack(t: Tables, oldRel: Dir, oldRoot: int, rel: Dir, root: int)
    requires oldRoot in t.roots && root in t.roots
    ensures var there := MoveFiles(t, oldRel, root, rel);
            && there.Some?
            && (MoveFiles(there.value, rel, oldRoot, oldRel) == Some(t)
                <==> forall f :: f in FilesNamed(t, oldRel) + FilesNamed(t, rel) ==> f in FilesAt(t, oldRel, oldRoot))
  {
    var back := MoveFiles(MoveFiles(t, oldRel, root, rel).value, rel, oldRoot, oldRel).value;
    MovedTwice(t, oldRel, oldRoot, rel, root);
    if f :| f in FilesNamed(t, oldRel) + FilesNamed(t, rel) && f !in FilesAt(t, oldRel, oldRoot) {
      assert back.files[f] != t.files[f];
    } else {
      forall f | f in t.files ensures back.files[f] == t.files[f] {
        assert t.files[f].path in {oldRel, rel} ==> f in FilesNamed(t, oldRel) + FilesNamed(t, rel);
      }
      SameMap(back.files, t.files);
    }
  }

  lemma MovedTwice(t: Tables, oldRel: Dir, oldRoot: int, rel: Dir, root: int)
    requires oldRoot in t.roots && root in t.roots
    ensures var back := MoveFiles(MoveFiles(t, oldRel, root, rel).value, rel, oldRoot, oldRel).value;
            && back == t.(files := back.files) && back.files.Keys == t.files.Keys
            && (forall f :: f in t.files ==>
                 back.files[f] ==
                 if t.files[f].path in {oldRel, rel} then t.files[f].(root := oldRoot, path := oldRel)
                 else t.files[f])
  {
  }

  // ---- search ----

  function Pattern(word: string): string {
    "%" + word + "%"
  }

  function Result(p: Dir): SearchResult {
    SearchResult(Parent(p), Filename(p), Extension(Filename(p)))
  }

  lemma ResultInjective(p: Dir, q: Dir)
    requires p != [] && q != [] && Result(p) == Result(q)
    ensures p == q
  {
    assert p == Parent(p) + [Filename(p)] && q == Parent(q) + [Filename(q)];
  }

  /** A row of the join of files, roots, mappings and words that the WHERE clause keeps. */
  predicate JoinHit(like: (string, string) -> bool, t: Tables, m: Mapping, word: string) {
    && m.file in t.files && t.files[m.file].root in t.roots && m.word in t.words
    && like(t.words[m.word], Pattern(word))
  }

  ghost predicate HitsAny(like: (string, string) -> bool, t: Tables, m: Mapping, words: seq<string>) {
    exists i :: 0 <= i < |words| && JoinHit(like, t, m, words[i])
  }

  ghost function Matches(like: (string, string) -> bool, t: Tables, words: seq<string>): set<SearchResult> {
    set m | m in t.mappings && HitsAny(like, t, m, words) :: Result(PathOf(t, m.file))
  }

  /** The uncached answer: the matches, strictly ascending. */
  ghost predicate IsAnswer(like: (string, string) -> bool, t: Tables, words: seq<string>, r: seq<SearchResult>) {
    Ascending(ResultLess, r) && forall x :: x in r <==> x in Matches(like, t, words)
  }

  lemma AnswerUnique(like: (string, string) -> bool, t: Tables, words: seq<string>, r: seq<SearchResult>,
                     r': seq<SearchResult>)
    requires IsAnswer(like, t, words, r) && IsAnswer(like, t, words, r')
    ensures r == r'
  {
    ResultOrder();
    AscendingUnique(ResultLess, r, r');
  }

  ghost predicate DocHit(like: (string, string) -> bool, texts: set<string>, words: seq<string>) {
    exists text, i :: text in texts && 0 <= i < |words| && like(text, Pattern(words[i]))
  }

  /** A search sees nothing of the tables but their meaning. */
  lemma SearchMeaning(like: (string, string) -> bool, t: Tables, words: seq<string>)
    requires Integrity(t)
    ensures Matches(like, t, words) == set p | p in Docs(t) && DocHit(like, Docs(t)[p], words) :: Result(p)
  {
    var d := Docs(t);
    var hits := set p | p in d && DocHit(like, d[p], words) :: Result(p);
    forall x | x in Matches(like, t, words) ensures x in hits {
      var m :| m in t.mappings && HitsAny(like, t, m, words) && x == Result(PathOf(t, m.file));
      var p, tag := PathOf(t, m.file), (m.file, t.words[m.word]);
      assert At(t, p, m.file) && tag in Tags(t);
      IndexedAt(t, p);
      assert tag.1 in d[p];
    }
    forall x | x in hits ensures x in Matches(like, t, words) {
      var p :| p in d && DocHit(like, d[p], words) && x == Result(p);
      var text, i :| text in d[p] && 0 <= i < |words| && like(text, Pattern(words[i]));
      var tag :| tag in Tags(t) && At(t, p, tag.0) && tag.1 == text;
      var m :| m in t.mappings && m.word in t.words && tag == (m.file, t.words[m.word]);
      assert JoinHit(like, t, m, words[i]);
    }
  }

  /** ASCII letters count as the same in either case, as in SQLite's LIKE. */
  function Folded(c: char): char {
    if 'A' <= c <= 'Z' then c - 'A' + 'a' else c
  }

  predicate OccursAt(word: string, text: string, i: nat) {
    i + |word| <= |text| && forall j :: 0 <= j < |word| ==> Folded(text[i + j]) == Folded(word[j])
  }

  predicate Occurs(word: string, text: string) {
    exists i :: 0 <= i <= |text| && OccursAt(word, text, i)
  }

  predicate NoWildcard(word: string) {
    '%' !in word && '_' !in word
  }

  /** What is asked of LIKE: between two percent signs a word without wildcards is looked for anywhere in the text. */
  ghost predicate LikeFinds(like: (string, string) -> bool) {
    forall text: string, word: string :: NoWildcard(word) ==> (like(text, "%" + word + "%") <==> Occurs(word, text))
  }

  ghost predicate ContainsOne(texts: set<string>, words: seq<string>) {
    exists text, i :: text in texts && 0 <= i < |words| && Occurs(words[i], text)
  }

  /** A search finds the documents with an indexed word that has one of the query words in it, and no others: their
      directories, names and extensions, once each. */
  lemma SearchFinds(like: (string, string) -> bool, t: Tables, words: seq<string>, r: seq<SearchResult>)
    requires Integrity(t) && LikeFinds(like) && IsAnswer(like, t, words, r)
    requires forall i :: 0 <= i < |words| ==> NoWildcard(words[i])
    ensures forall x :: x in r <==>
              exists p :: p in Docs(t) && ContainsOne(Docs(t)[p], words)
                          && x == SearchResult(Parent(p), Filename(p), Extension(Filename(p)))
    ensures forall i, j :: 0 <= i < j < |r| ==> r[i] != r[j]
  {
    SearchMeaning(like, t, words);
    var d := Docs(t);
    forall p | p in d ensures DocHit(like, d[p], words) <==> ContainsOne(d[p], words) {
      forall text, i | text in d[p] && 0 <= i < |words|
        ensures like(text, Pattern(words[i])) <==> Occurs(words[i], text)
      {
        assert NoWildcard(words[i]);
        assert like(text, "%" + words[i] + "%") <==> Occurs(words[i], text);
      }
    }
    forall x ensures x in r <==> exists p :: p in d && ContainsOne(d[p], words)
                                       && x == SearchResult(Parent(p), Filename(p), Extension(Filename(p)))
    {
      if x in r {
        var p :| p in d && DocHit(like, d[p], words) && x == Result(p);
      }
      if p :| p in d && ContainsOne(d[p], words) && x == SearchResult(Parent(p), Filename(p), Extension(Filename(p))) {
        assert DocHit(like, d[p], words) && x == Result(p);
      }
    }
    ResultOrder();
    forall i, j | 0 <= i < j < |r| ensures r[i] != r[j] {
      assert ResultLess(r[i], r[j]);
    }
  }

  /** The answer is in the order of the directories, then of the names; between these, results with one name in one
      directory do not differ. */
  lemma AnswerOrder(like: (string, string) -> bool, t: Tables, words: seq<string>, r: seq<SearchResult>, i: nat, j: nat)
    requires IsAnswer(like, t, words, r) && i < j < |r|
    ensures PathLess(r[i].dir, r[j].dir) || (r[i].dir == r[j].dir && StringLess(r[i].file, r[j].file))
  {
    StringOrder();
    assert r[i] in r && r[j] in r && ResultLess(r[i], r[j]);
    var m :| m in t.mappings && HitsAny(like, t, m, words) && r[i] == Result(PathOf(t, m.file));
    var n :| n in t.mappings && HitsAny(like, t, n, words) && r[j] == Result(PathOf(t, n.file));
  }

  lemma {:induction false} ImageSize<K>(g: map<K, SearchResult>)
    requires forall a, b :: a in g && b in g && g[a] == g[b] ==> a == b
    ensures |g.Values| == |g|
  {
    if g.Keys == {} {
      assert g.Values == {};
    } else {
      var x := Pick(g.Keys);
      var rest := g - {x};
      ImageSize(rest);
      assert |rest| == |g| - 1 by {
        assert rest.Keys == g.Keys - {x};
      }
      forall y ensures y in g.Values <==> y in rest.Values || y == g[x] {
        if y in g.Values {
          var a :| a in g && g[a] == y;
          assert a != x ==> a in rest && rest[a] == y;
        }
      }
      assert g.Values == rest.Values + {g[x]};
    }
  }

  ghost predicate FileHit(like: (string, string) -> bool, t: Tables, f: int, words: seq<string>) {
    exists m :: m in t.mappings && m.file == f && HitsAny(like, t, m, words)
  }

  ghost function HitFiles(like: (string, string) -> bool, t: Tables, words: seq<string>): set<int> {
    set f | f in t.files && FileHit(like, t, f, words)
  }

  ghost function HitResults(like: (string, string) -> bool, t: Tables, words: seq<string>): map<int, SearchResult>
    requires Integrity(t)
  {
    map f | f in HitFiles(like, t, words) :: Result(PathOf(t, f))
  }

  /** With one row per place an answer is as long as there are matching files. */
  lemma AnswerLength(like: (string, string) -> bool, t: Tables, words: seq<string>, r: seq<SearchResult>)
    requires UnnestedRoots(t) && RowsUnique(t) && IsAnswer(like, t, words, r)
    ensures |r| == |HitFiles(like, t, words)|
  {
    var g := HitResults(like, t, words);
    forall a, b | a in g && b in g && g[a] == g[b] ensures a == b {
      ResultInjective(PathOf(t, a), PathOf(t, b));
      SamePlace(t, a, b);
    }
    ImageSize(g);
    assert g.Keys == HitFiles(like, t, words);
    MatchesAreResults(like, t, words);
    ResultOrder();
    AscendingSize(r, g.Values);
  }

  lemma MatchesAreResults(like: (string, string) -> bool, t: Tables, words: seq<string>)
    requires Integrity(t)
    ensures forall x :: x in HitResults(like, t, words).Values <==> x in Matches(like, t, words)
  {
    var g := HitResults(like, t, words);
    forall x | x in Matches(like, t, words) ensures x in g.Values {
      var m :| m in t.mappings && HitsAny(like, t, m, words) && x == Result(PathOf(t, m.file));
      assert m.file in g && g[m.file] == x;
    }
    forall x | x in g.Values ensures x in Matches(like, t, words) {
      var f := KeyOf(g, x);
      var m :| m in t.mappings && m.file == f && HitsAny(like, t, m, words);
    }
  }

  lemma {:induction false} AscendingSize(r: seq<SearchResult>, s: set<SearchResult>)
    requires StrictTotal(ResultLess) && Ascending(ResultLess, r) && forall x :: x in r <==> x in s
    ensures |r| == |s|
  {
    if r == [] {
      assert s == {};
    } else {
      assert r[0] in s;
      forall x ensures x in r[1..] <==> x in s - {r[0]} {
        assert x in r <==> x == r[0] || x in r[1..];
      }
      AscendingSize(r[1..], s - {r[0]});
    }
  }
}
