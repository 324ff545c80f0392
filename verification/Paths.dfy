/** core/vca/filesystem: paths as sequences of components; is_parent_of, relative, parent, filename, extension. */
module Paths {
  import opened Wrappers
  import opened Orders

  /** The components of an absolute path; the first one is the root name. */
  type Dir = seq<string>

  datatype Path = Path(absolute: bool, parts: seq<string>) {
    function Absolute(cwd: Dir): Dir {
      if absolute then parts else cwd + parts
    }
  }

  predicate IsAncestor(a: Dir, b: Dir) {
    a < b
  }

  /** Path::is_parent_of: two iterators advance together over the absolute forms. */
  method IsParentOf(self: Path, aChild: Path, cwd: Dir) returns (r: bool)
    ensures r <==> IsAncestor(self.Absolute(cwd), aChild.Absolute(cwd))
  {
    if self == aChild {
      return false;
    }
    var parent, child := self.Absolute(cwd), aChild.Absolute(cwd);
    var i := 0;
    while i < |parent| && i < |child|
      invariant 0 <= i <= |parent| && i <= |child|
      invariant parent[..i] == child[..i]
    {
      if parent[i] != child[i] {
        assert parent[i] != child[..|child|][i];
        return false;
      }
      i := i + 1;
    }
    return i < |child|;
  }

  predicate PathLess(a: Dir, b: Dir) {
    Lex(StringLess, a, b)
  }

  lemma PathOrder()
    ensures StrictTotal(PathLess)
  {
    StringOrder();
    forall a: Dir ensures !PathLess(a, a) {
      LexIrreflexive(StringLess, a);
    }
    forall a: Dir, b: Dir, c: Dir | PathLess(a, b) && PathLess(b, c) ensures PathLess(a, c) {
      LexTransitive(StringLess, a, b, c);
    }
    forall a: Dir, b: Dir ensures a == b || PathLess(a, b) || PathLess(b, a) {
      LexTrichotomous(StringLess, a, b);
    }
  }

  /** The sequence in which a loop visits the set. */
  ghost predicate Visits(s: seq<Dir>, dirs: set<Dir>) {
    Ascending(PathLess, s) && forall d :: d in s <==> d in dirs
  }

  /** The order in which a loop over a set or a map of paths visits them. */
  method EnumerateDirs(s: set<Dir>) returns (r: seq<Dir>)
    ensures Visits(r, s) && |r| == |s|
  {
    PathOrder();
    r := Enumerate(PathLess, s);
  }

  /** A parent is visited before its children. */
  lemma {:induction false} AncestorFirst(a: Dir, b: Dir)
    requires IsAncestor(a, b)
    ensures PathLess(a, b)
  {
    if a != [] {
      AncestorFirst(a[1..], b[1..]);
    }
  }

  ghost predicate Unnested(dirs: set<Dir>) {
    forall a, b :: a in dirs && b in dirs ==> !IsAncestor(a, b)
  }

  function Relative(p: Dir, dir: Dir): Dir
    requires IsAncestor(dir, p)
  {
    p[|dir|..]
  }

  function Join(dir: Dir, rel: Dir): Dir {
    dir + rel
  }

  lemma JoinRelative(p: Dir, dir: Dir)
    requires IsAncestor(dir, p)
    ensures Join(dir, Relative(p, dir)) == p && Relative(p, dir) != []
  {
  }

  /** The shortest proper prefix of p, of length n or more, that is one of dirs: a definition that
      does not look at the order of dirs. */
  function Outermost(dirs: set<Dir>, p: Dir, n: nat := 0): (r: Option<Dir>)
    ensures r.Some? ==> r.value in dirs && IsAncestor(r.value, p)
    ensures forall d :: d in dirs && IsAncestor(d, p) && n <= |d| ==> r.Some? && |r.value| <= |d|
    decreases |p| - n
  {
    if n >= |p| then None
    else if p[..n] in dirs then Some(p[..n])
    else
      assert forall d :: IsAncestor(d, p) ==> d == p[..|d|];
      Outermost(dirs, p, n + 1)
  }

  /** Among un-nested roots a path has at most one, and that is the one found. */
  lemma RootUnique(dirs: set<Dir>, p: Dir, d: Dir)
    requires Unnested(dirs) && d in dirs && IsAncestor(d, p)
    ensures Outermost(dirs, p) == Some(d)
    ensures forall e :: e in dirs && IsAncestor(e, p) ==> e == d
  {
    forall e | e in dirs && IsAncestor(e, p) ensures e == d {
      assert |e| < |d| ==> IsAncestor(e, d);
      assert |d| < |e| ==> IsAncestor(d, e);
    }
  }

  function Parent(p: Dir): Dir {
    if p == [] then [] else p[..|p| - 1]
  }

  function Filename(p: Dir): string {
    if p == [] then "" else p[|p| - 1]
  }

  /** std::filesystem::path::extension of a file name: from the last dot on, unless that dot is
      its first character or the name is "..". */
  function Extension(name: string): string {
    if name == ".." then "" else FromLastDot(name)
  }

  function FromLastDot(name: string): string {
    if |name| <= 1 then ""
    else if FromLastDot(name[1..]) != "" then FromLastDot(name[1..])
    else if name[1] == '.' then name[1..]
    else ""
  }

  lemma {:induction false} LastDot(name: string)
    ensures FromLastDot(name) == "" <==> forall j :: 1 <= j < |name| ==> name[j] != '.'
    ensures forall i :: 1 <= i < |name| && name[i] == '.' && '.' !in name[i + 1..] ==> FromLastDot(name) == name[i..]
  {
    if |name| > 1 {
      var rest := name[1..];
      LastDot(rest);
      forall j | 2 <= j < |name| ensures name[j] == rest[j - 1] {
      }
      forall i | 1 <= i < |name| && name[i] == '.' && '.' !in name[i + 1..] ensures FromLastDot(name) == name[i..] {
        if i > 1 {
          assert rest[i - 1] == '.' && rest[i..] == name[i + 1..] && rest[i - 1..] == name[i..];
        } else {
          forall j | 1 <= j < |rest| ensures rest[j] != '.' {
            assert rest[j] == name[i + 1..][j - 1];
          }
        }
      }
      if FromLastDot(rest) != "" {
        var j :| 1 <= j < |rest| && rest[j] == '.';
        assert name[j + 1] == '.';
      }
    }
  }

  /** A path is its parent and its file name. The extension is what follows the last dot, with the dot; there is none
      without a dot after the first character, nor for "..". */
  lemma NameParts(p: Dir)
    requires p != []
    ensures |Parent(p)| == |p| - 1 && p == Parent(p) + [Filename(p)]
    ensures var name, ext := Filename(p), Extension(Filename(p));
            && (forall i :: 1 <= i < |name| && name[i] == '.' && '.' !in name[i + 1..] && name != ".."
                  ==> ext == name[i..])
            && ((forall i :: 1 <= i < |name| ==> name[i] != '.') ==> ext == "")
            && (name == ".." ==> ext == "")
  {
    LastDot(Filename(p));
  }
}
