/** The four tables of core/vca/sqlite_userdb.cpp and the SQL statements run on them. A statement that
    a constraint refuses is None; a delete cascades along the foreign keys. */
module Tables {
  import opened Wrappers
  import opened Paths
  import opened Fingerprints

  datatype FileRow = FileRow(root: int, path: Dir, fingerprint: seq<Byte>)
  datatype Mapping = Mapping(file: int, word: int)
  datatype Tables = Tables(
    roots: map<int, Dir>,
    files: map<int, FileRow>,
    words: map<int, string>,
    mappings: seq<Mapping>)

  /** Primary keys are the map domains. Directories and word texts are unique, every foreign key
      resolves, and no file row names its root itself. */
  ghost predicate Integrity(t: Tables) {
    && (forall i, j :: i in t.roots && j in t.roots && t.roots[i] == t.roots[j] ==> i == j)
    && (forall i, j :: i in t.words && j in t.words && t.words[i] == t.words[j] ==> i == j)
    && (forall f :: f in t.files ==> t.files[f].root in t.roots && t.files[f].path != [])
    && (forall m :: m in t.mappings ==> m.file in t.files && m.word in t.words)
  }

  function RootDirs(t: Tables): set<Dir> {
    set i | i in t.roots :: t.roots[i]
  }

  // ---- statements ----

  function Without(ms: seq<Mapping>, gone: set<int>): (r: seq<Mapping>)
    ensures forall m :: m in r <==> m in ms && m.file !in gone
  {
    if ms == [] then []
    else if ms[0].file in gone then Without(ms[1..], gone)
    else [ms[0]] + Without(ms[1..], gone)
  }

  function DeleteFiles(t: Tables, gone: set<int>): Tables {
    Tables(t.roots, t.files - gone, t.words, Without(t.mappings, gone))
  }

  function FilesUnder(t: Tables, roots: set<int>): set<int> {
    set f | f in t.files && t.files[f].root in roots
  }

  function DeleteRoots(t: Tables, gone: set<int>): Tables {
    DeleteFiles(t, FilesUnder(t, gone)).(roots := t.roots - gone)
  }

  function RootsNamed(t: Tables, dir: Dir): set<int> {
    set i | i in t.roots && t.roots[i] == dir
  }

  function FilesNamed(t: Tables, path: Dir): set<int> {
    set f | f in t.files && t.files[f].path == path
  }

  function FilesAt(t: Tables, path: Dir, root: int): set<int> {
    set f | f in t.files && t.files[f].path == path && t.files[f].root == root
  }

  function InsertRoot(t: Tables, id: int, dir: Dir): Option<Tables> {
    if id in t.roots || dir in RootDirs(t) then None else Some(t.(roots := t.roots[id := dir]))
  }

  function InsertFile(t: Tables, id: int, row: FileRow): Option<Tables> {
    if id in t.files || row.root !in t.roots then None else Some(t.(files := t.files[id := row]))
  }

  function InsertWord(t: Tables, id: int, word: string): Option<Tables> {
    if id in t.words then None else Some(t.(words := t.words[id := word]))
  }

  function InsertMapping(t: Tables, m: Mapping): Option<Tables> {
    if m.file !in t.files || m.word !in t.words then None else Some(t.(mappings := t.mappings + [m]))
  }

  /** UPDATE files SET roots_id = root, path = path WHERE path = oldPath */
  function MoveFiles(t: Tables, oldPath: Dir, root: int, path: Dir): Option<Tables> {
    if FilesNamed(t, oldPath) != {} && root !in t.roots then None
    else
      Some(t.(files := map f | f in t.files ::
                if t.files[f].path == oldPath then t.files[f].(root := root, path := path) else t.files[f]))
  }

  // ---- the loop of update_file over the words ----

  ghost function WordId(t: Tables, word: string): (r: Option<int>)
    ensures r.Some? ==> r.value in t.words && t.words[r.value] == word
    ensures r.None? ==> forall i :: i in t.words ==> t.words[i] != word
  {
    if exists i :: i in t.words && t.words[i] == word
    then var i :| i in t.words && t.words[i] == word; Some(i)
    else None
  }

  /** Tables and next word id after one word. */
  ghost function IndexWord(t: Tables, file: int, next: int, word: string): Option<(Tables, int)> {
    match WordId(t, word)
    case Some(id) =>
      var t1 :- InsertMapping(t, Mapping(file, id));
      Some((t1, next))
    case None =>
      var t1 :- InsertWord(t, next, word);
      var t2 :- InsertMapping(t1, Mapping(file, next));
      Some((t2, next + 1))
  }

  ghost function IndexWords(t: Tables, file: int, next: int, words: seq<string>): Option<(Tables, int)>
    decreases |words|
  {
    if words == [] then Some((t, next))
    else
      var before :- IndexWords(t, file, next, words[..|words| - 1]);
      IndexWord(before.0, file, before.1, words[|words| - 1])
  }

  /** All of update_file's transaction. */
  ghost function IndexFile(t: Tables, file: int, row: FileRow, next: int, words: seq<string>): Option<(Tables, int)> {
    var t1 :- InsertFile(DeleteFiles(t, FilesAt(t, row.path, row.root)), file, row);
    IndexWords(t1, file, next, words)
  }

  lemma {:induction false} FailedPrefix(t: Tables, file: int, next: int, words: seq<string>, i: nat)
    requires i <= |words| && IndexWords(t, file, next, words[..i]).None?
    ensures IndexWords(t, file, next, words).None?
  {
    if i < |words| {
      assert words[..|words| - 1][..i] == words[..i];
      FailedPrefix(t, file, next, words[..|words| - 1], i);
    } else {
      assert words[..i] == words;
    }
  }

  lemma FailedWord(t: Tables, t1: Tables, file: int, next: int, next1: int, words: seq<string>, i: nat)
    requires i < |words| && IndexWords(t, file, next, words[..i]) == Some((t1, next1))
    requires IndexWord(t1, file, next1, words[i]).None?
    ensures IndexWords(t, file, next, words).None?
  {
    assert words[..i + 1][..i] == words[..i];
    FailedPrefix(t, file, next, words, i + 1);
  }

  // ---- what indexing the words of a file adds ----

  ghost function Texts(t: Tables): set<string> {
    t.words.Values
  }

  /** Which file holds which word. */
  ghost function Tags(t: Tables): set<(int, string)> {
    set m | m in t.mappings && m.word in t.words :: (m.file, t.words[m.word])
  }

  ghost function Words(words: seq<string>): set<string> {
    set w | w in words
  }

  ghost function TagsOf(file: int, words: seq<string>): set<(int, string)> {
    set w | w in words :: (file, w)
  }

  ghost predicate IdsAdded(w: map<int, string>, w': map<int, string>, next: int, next': int) {
    && (forall i :: i in w' <==> i in w || next <= i < next')
    && (forall i :: i in w ==> w'[i] == w[i])
  }

  lemma IdsStep(w: map<int, string>, w1: map<int, string>, next: int, next1: int, word: string)
    requires next <= next1 && IdsAdded(w, w1, next, next1) && next1 !in w
    ensures IdsAdded(w, w1[next1 := word], next, next1 + 1)
  {
  }

  ghost predicate Extends(t: Tables, t': Tables, file: int, next: int, next': int, words: seq<string>) {
    && t'.roots == t.roots && t'.files == t.files
    && next' == next + |Words(words) - Texts(t)|
    && IdsAdded(t.words, t'.words, next, next')
    && Texts(t') == Texts(t) + Words(words)
    && Tags(t') == Tags(t) + TagsOf(file, words)
  }

  lemma MappingAdded(t: Tables, t': Tables, m: Mapping)
    requires Integrity(t) && m.file in t.files && m.word in t.words
    requires t' == t.(mappings := t.mappings + [m])
    ensures Integrity(t') && Texts(t') == Texts(t) && Tags(t') == Tags(t) + {(m.file, t.words[m.word])}
  {
    assert forall m' :: m' in t'.mappings <==> m' in t.mappings || m' == m;
  }

  lemma WordAdded(t: Tables, t': Tables, id: int, word: string)
    requires Integrity(t) && id !in t.words && word !in Texts(t)
    requires t' == t.(words := t.words[id := word])
    ensures Integrity(t') && Texts(t') == Texts(t) + {word} && Tags(t') == Tags(t)
  {
    assert forall i :: i in t.words ==> t'.words[i] == t.words[i];
    assert t'.words[id] == word;
    assert Texts(t') == Texts(t) + {word};
  }

  /** What one more word adds. */
  ghost predicate Adds(t: Tables, t': Tables, file: int, word: string) {
    && t'.roots == t.roots && t'.files == t.files
    && Texts(t') == Texts(t) + {word}
    && Tags(t') == Tags(t) + {(file, word)}
  }

  lemma IndexKnownWord(t: Tables, file: int, next: int, word: string)
    requires Integrity(t) && file in t.files && word in Texts(t)
    ensures var r := IndexWord(t, file, next, word);
            && r.Some? && r.value.1 == next && r.value.0.words == t.words
            && Integrity(r.value.0) && Adds(t, r.value.0, file, word)
  {
    var m := Mapping(file, WordId(t, word).value);
    MappingAdded(t, t.(mappings := t.mappings + [m]), m);
  }

  lemma IndexNewWord(t: Tables, file: int, next: int, word: string)
    requires Integrity(t) && file in t.files && word !in Texts(t)
    ensures var r := IndexWord(t, file, next, word);
            && (r.Some? <==> next !in t.words)
            && (r.Some? ==> r.value.1 == next + 1 && r.value.0.words == t.words[next := word]
                            && Integrity(r.value.0) && Adds(t, r.value.0, file, word))
  {
    assert WordId(t, word).None?;
    if next !in t.words {
      var t1 := t.(words := t.words[next := word]);
      WordAdded(t, t1, next, word);
      var m := Mapping(file, next);
      MappingAdded(t1, t1.(mappings := t1.mappings + [m]), m);
    }
  }

  lemma SetStep<T>(a: set<T>, a1: set<T>, a2: set<T>, w: set<T>, w1: set<T>, x: T)
    requires a1 == a + w && a2 == a1 + {x} && w1 == w + {x}
    ensures a2 == a + w1
    ensures |w1 - a| == |w - a| + (if x in a1 then 0 else 1)
  {
    if x in a1 {
      assert w1 - a == w - a;
    } else {
      assert w1 - a == (w - a) + {x};
    }
  }

  lemma MoreWords(file: int, words: seq<string>, word: string)
    ensures Words(words + [word]) == Words(words) + {word}
    ensures TagsOf(file, words + [word]) == TagsOf(file, words) + {(file, word)}
  {
    assert forall w :: w in words + [word] <==> w in words || w == word;
  }

  lemma ExtendsAdds(t: Tables, t1: Tables, t2: Tables, file: int, next: int, next1: int, words: seq<string>,
                    word: string)
    requires Extends(t, t1, file, next, next1, words) && Adds(t1, t2, file, word)
    requires t2.words == if word in Texts(t1) then t1.words else t1.words[next1 := word]
    requires word !in Texts(t1) ==> next1 !in t.words
    ensures Extends(t, t2, file, next, if word in Texts(t1) then next1 else next1 + 1, words + [word])
  {
    MoreWords(file, words, word);
    SetStep(Texts(t), Texts(t1), Texts(t2), Words(words), Words(words + [word]), word);
    SetStep(Tags(t), Tags(t1), Tags(t2), TagsOf(file, words), TagsOf(file, words + [word]), (file, word));
    if word !in Texts(t1) {
      IdsStep(t.words, t1.words, next, next1, word);
    }
  }

  /** When it succeeds it adds the new words and tags this file, and only it, with the given words. */
  lemma {:induction false} IndexWordsEffect(t: Tables, file: int, next: int, words: seq<string>)
    requires Integrity(t) && file in t.files
    ensures var r := IndexWords(t, file, next, words);
            r.Some? ==> Integrity(r.value.0) && Extends(t, r.value.0, file, next, r.value.1, words)
    decreases |words|
  {
    if words == [] {
      NoWords(t, file, words);
    } else {
      var init, word := words[..|words| - 1], words[|words| - 1];
      assert words == init + [word];
      IndexWordsEffect(t, file, next, init);
      var r := IndexWords(t, file, next, init);
      if r.Some? {
        OneMoreWord(t, r.value.0, file, next, r.value.1, init, word);
      }
    }
  }

  lemma NoWords(t: Tables, file: int, words: seq<string>)
    requires words == []
    ensures Words(words) - Texts(t) == {} && Texts(t) + Words(words) == Texts(t)
    ensures Tags(t) + TagsOf(file, words) == Tags(t)
  {
    assert Words(words) == {} && TagsOf(file, words) == {};
  }

  lemma OneMoreWord(t: Tables, t1: Tables, file: int, next: int, next1: int, words: seq<string>, word: string)
    requires file in t.files && Integrity(t1) && Extends(t, t1, file, next, next1, words)
    ensures var r := IndexWord(t1, file, next1, word);
            && (r.None? <==> word !in Texts(t1) && next1 in t.words)
            && (r.Some? ==> Integrity(r.value.0) && Extends(t, r.value.0, file, next, r.value.1, words + [word]))
  {
    var r := IndexWord(t1, file, next1, word);
    if word in Texts(t1) {
      IndexKnownWord(t1, file, next1, word);
      ExtendsAdds(t, t1, r.value.0, file, next, next1, words, word);
    } else {
      IndexNewWord(t1, file, next1, word);
      if r.Some? {
        ExtendsAdds(t, t1, r.value.0, file, next, next1, words, word);
      }
    }
  }

  ghost predicate IdsFree(w: map<int, string>, from: int, count: nat) {
    forall k :: from <= k < from + count ==> k !in w
  }

  lemma FreeStep(w: map<int, string>, from: int, count: nat)
    ensures IdsFree(w, from, count + 1) <==> IdsFree(w, from, count) && from + count !in w
  {
  }

  /** It succeeds exactly when none of the ids it draws for the new words is taken. */
  lemma {:induction false} IndexWordsSucceeds(t: Tables, file: int, next: int, words: seq<string>)
    requires Integrity(t) && file in t.files
    ensures IndexWords(t, file, next, words).Some? <==> IdsFree(t.words, next, |Words(words) - Texts(t)|)
    decreases |words|
  {
    if words == [] {
      NoWords(t, file, words);
    } else {
      var init, word := words[..|words| - 1], words[|words| - 1];
      assert words == init + [word];
      IndexWordsSucceeds(t, file, next, init);
      IndexWordsEffect(t, file, next, init);
      var r := IndexWords(t, file, next, init);
      if r.Some? {
        OneMoreWord(t, r.value.0, file, next, r.value.1, init, word);
      }
      FreeCount(t, next, init, word);
    }
  }

  lemma FreeCount(t: Tables, next: int, words: seq<string>, word: string)
    ensures IdsFree(t.words, next, |Words(words + [word]) - Texts(t)|)
       <==> IdsFree(t.words, next, |Words(words) - Texts(t)|)
            && (word in Texts(t) + Words(words) || next + |Words(words) - Texts(t)| !in t.words)
  {
    MoreWords(0, words, word);
    SetStep(
      Texts(t), Texts(t) + Words(words), Texts(t) + Words(words) + {word}, Words(words), Words(words + [word]), word);
    FreeStep(t.words, next, |Words(words) - Texts(t)|);
  }

  // ---- what a loop that breaks off has drawn ----

  /** The ids a loop over the words has drawn when it ends, early or not: no more than there are new words, and all but
      perhaps the last of them free. */
  ghost predicate Drawn(t: Tables, words: seq<string>, from: int, to: int) {
    from <= to <= from + |Words(words) - Texts(t)| && forall k :: from <= k < to - 1 ==> k !in t.words
  }

  lemma Smaller<T>(a: set<T>, b: set<T>)
    requires a <= b
    ensures |a| <= |b|
  {
    assert b == a + (b - a);
  }

  lemma OneMore<T>(some: set<T>, all: set<T>, known: set<T>, x: T)
    requires some <= all && x in all
    ensures |some - known| <= |all - known|
    ensures x !in known + some ==> |some - known| + 1 <= |all - known|
  {
    Smaller(some - known, all - known);
    if x !in known + some {
      Smaller(some - known + {x}, all - known);
    }
  }

  /** What is left of IndexWordsEffect when the tags do not matter. */
  lemma IndexWordsIds(t: Tables, file: int, next: int, words: seq<string>)
    requires Integrity(t) && file in t.files && IndexWords(t, file, next, words).Some?
    ensures var (t1, to) := IndexWords(t, file, next, words).value;
            && Integrity(t1) && t1.files == t.files && Texts(t1) == Texts(t) + Words(words)
            && to == next + |Words(words) - Texts(t)|
            && (forall i :: i in t1.words <==> i in t.words || next <= i < to)
            && (forall i :: next <= i < to ==> i !in t.words)
  {
    IndexWordsEffect(t, file, next, words);
    IndexWordsSucceeds(t, file, next, words);
  }

  lemma NextWord(t: Tables, t1: Tables, t2: Tables, file: int, from: int, next: int, to: int, words: seq<string>,
                 n: nat)
    requires Integrity(t) && file in t.files && n < |words| && IndexWords(t, file, from, words[..n]) == Some((t1, next))
    requires IndexWord(t1, file, next, words[n]) == Some((t2, to))
    ensures IndexWords(t, file, from, words[..n + 1]) == Some((t2, to))
    ensures Integrity(t2) && file in t2.files && from <= to
  {
    assert words[..n + 1][..n] == words[..n];
    IndexWordsIds(t, file, from, words[..n + 1]);
  }

  /** The ids drawn for the first n words, and one more if the next word is new. */
  lemma DrawnAt(t: Tables, t1: Tables, file: int, words: seq<string>, n: nat, from: int, next: int)
    requires Integrity(t) && file in t.files && n < |words| && IndexWords(t, file, from, words[..n]) == Some((t1, next))
    ensures var to := if WordId(t1, words[n]).None? then next + 1 else next;
            Drawn(t, words, from, to) && (WordId(t1, words[n]).None? && next in t1.words ==> next in t.words)
  {
    IndexWordsIds(t, file, from, words[..n]);
    assert words[n] in t1.words.Values <==> WordId(t1, words[n]).Some?;
    OneMore(Words(words[..n]), Words(words), Texts(t), words[n]);
  }

  lemma NoneAdded(t: Tables, file: int, words: seq<string>, from: int)
    ensures IndexWords(t, file, from, words[..0]) == Some((t, from))
  {
  }

  lemma AllAdded(t: Tables, file: int, words: seq<string>, from: int)
    requires Integrity(t) && file in t.files && IndexWords(t, file, from, words[..|words|]).Some?
    ensures IndexWords(t, file, from, words[..|words|]) == IndexWords(t, file, from, words)
    ensures Drawn(t, words, from, IndexWords(t, file, from, words).value.1)
  {
    assert words[..|words|] == words;
    IndexWordsIds(t, file, from, words);
  }
}
