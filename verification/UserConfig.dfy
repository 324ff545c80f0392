/** core/vca/config.cpp: the root directories of the user configuration. */
module UserConfigs {
  import opened Wrappers
  import opened Paths

  /** The roots that lie under no other root. */
  ghost function Minimal(dirs: set<Dir>): set<Dir> {
    set d | d in dirs && forall e :: e in dirs ==> !IsAncestor(e, d)
  }

  lemma MinimalUnnested(dirs: set<Dir>)
    ensures Unnested(Minimal(dirs))
    ensures Minimal(dirs) == dirs <==> Unnested(dirs)
  {
  }

  /** Every root is kept or lies under exactly one kept root, and what lay under some root lies under
      exactly one kept root: normalisation drops no path. */
  lemma NormalizeCovers(dirs: set<Dir>, p: Dir)
    ensures p in dirs ==> p in Minimal(dirs) || Outermost(dirs, p).Some?
    ensures Outermost(Minimal(dirs), p) == Outermost(dirs, p)
    ensures forall d, e :: d in Minimal(dirs) && e in Minimal(dirs) && IsAncestor(d, p) && IsAncestor(e, p) ==> d == e
  {
    MinimalUnnested(dirs);
    var o := Outermost(dirs, p);
    if o.Some? {
      forall e | e in dirs ensures !IsAncestor(e, o.value) {
        assert IsAncestor(e, o.value) ==> IsAncestor(e, p);
      }
      RootUnique(Minimal(dirs), p, o.value);
    }
  }

  /** The configuration file: nothing if it cannot be read or is no JSON; else the list of roots, with nothing for
      an entry that is no string. */
  type Document = Option<seq<Option<Path>>>

  predicate Readable(document: Document) {
    document.Some? && forall k :: 0 <= k < |document.value| ==> document.value[k].Some?
  }

  function FirstBad(entries: seq<Option<Path>>): (n: nat)
    ensures n <= |entries|
  {
    if entries == [] || entries[0].None? then 0 else 1 + FirstBad(entries[1..])
  }

  lemma {:induction false} FirstBadIs(entries: seq<Option<Path>>, i: nat)
    requires i <= |entries| && (forall k :: 0 <= k < i ==> entries[k].Some?) && (i < |entries| ==> entries[i].None?)
    ensures FirstBad(entries) == i
  {
    if i > 0 {
      FirstBadIs(entries[1..], i - 1);
    }
  }

  /** The roots among the first n entries. */
  ghost function Valid(entries: seq<Option<Path>>, n: nat, present: set<Path>): set<Dir>
    requires n <= |entries|
  {
    set k | 0 <= k < n && entries[k].Some? && entries[k].value in present && entries[k].value.absolute
      :: entries[k].value.parts
  }

  lemma ValidStep(entries: seq<Option<Path>>, n: nat, present: set<Path>)
    requires n < |entries| && entries[n].Some?
    ensures var p := entries[n].value;
            Valid(entries, n + 1, present) ==
            Valid(entries, n, present) + if p in present && p.absolute then {p.parts} else {}
  {
  }

  /** What read leaves: the old roots if there is no document; the roots before the first bad entry, as they are, if
      there is one; else the minimal ones of all. */
  ghost function ReadRoots(rootDirs: set<Dir>, document: Document, present: set<Path>): set<Dir> {
    if document.None? then rootDirs
    else if Readable(document) then Minimal(Valid(document.value, |document.value|, present))
    else Valid(document.value, FirstBad(document.value), present)
  }

  lemma ReadIsUnnested(rootDirs: set<Dir>, document: Document, present: set<Path>)
    requires Readable(document)
    ensures Unnested(ReadRoots(rootDirs, document, present))
  {
    MinimalUnnested(Valid(document.value, |document.value|, present));
  }

  /** An entry of the list is a root if it names an existing absolute path. */
  ghost predicate Lists(entries: seq<Option<Path>>, n: nat, present: set<Path>, d: Dir) {
    exists k :: 0 <= k < n && k < |entries| && entries[k] == Some(Path(true, d)) && Path(true, d) in present
  }

  /** Of a document without bad entries those roots are left that no other listed root is above; of another one the
      roots before the first bad entry; and without a document nothing changes. */
  lemma ReadExact(rootDirs: set<Dir>, document: Document, present: set<Path>, d: Dir)
    ensures var r := ReadRoots(rootDirs, document, present);
            && (document.None? ==> r == rootDirs)
            && (Readable(document) ==>
                  var n := |document.value|;
                  d in r <==> Lists(document.value, n, present, d)
                              && forall e :: Lists(document.value, n, present, e) ==> !IsAncestor(e, d))
            && (document.Some? && !Readable(document) ==>
                  exists n :: 0 <= n < |document.value| && document.value[n].None?
                              && (forall k :: 0 <= k < n ==> document.value[k].Some?)
                              && (d in r <==> Lists(document.value, n, present, d)))
  {
    if document.Some? {
      var entries := document.value;
      forall n: nat, e | n <= |entries| ensures e in Valid(entries, n, present) <==> Lists(entries, n, present, e) {
        ValidLists(entries, n, present, e);
      }
      if !Readable(document) {
        FirstBadBefore(entries);
      }
    }
  }

  lemma ValidLists(entries: seq<Option<Path>>, n: nat, present: set<Path>, d: Dir)
    requires n <= |entries|
    ensures d in Valid(entries, n, present) <==> Lists(entries, n, present, d)
  {
    if d in Valid(entries, n, present) {
      var k :| 0 <= k < n && entries[k].Some? && entries[k].value in present && entries[k].value.absolute
               && entries[k].value.parts == d;
      assert entries[k] == Some(Path(true, d));
    }
  }

  lemma {:induction false} FirstBadBefore(entries: seq<Option<Path>>)
    requires exists k :: 0 <= k < |entries| && entries[k].None?
    ensures var n := FirstBad(entries);
            n < |entries| && entries[n].None? && forall k :: 0 <= k < n ==> entries[k].Some?
  {
    if entries[0].Some? {
      var k :| 0 <= k < |entries| && entries[k].None?;
      assert entries[1..][k - 1].None?;
      FirstBadBefore(entries[1..]);
    }
  }

  class UserConfig {
    var rootDirs: set<Dir>

    constructor ()
      ensures rootDirs == {}
    {
      rootDirs := {};
    }

    method Normalize()
      modifies this
      ensures rootDirs == Minimal(old(rootDirs))
    {
      var trash: set<Dir> := {};
      var all := EnumerateDirs(rootDirs);
      for i := 0 to |all|
        invariant rootDirs == old(rootDirs)
        invariant forall d :: d in trash <==> d in all[..i] && exists e :: e in rootDirs && IsAncestor(e, d)
      {
        var above := false;
        for j := 0 to |all|
          invariant rootDirs == old(rootDirs)
          invariant above <==> exists e :: e in all[..j] && IsAncestor(e, all[i])
        {
          if all[i] != all[j] {
            var isParent := IsParentOf(Path(true, all[j]), Path(true, all[i]), []);
            if isParent {
              above := true;
            }
          }
          assert all[..j + 1] == all[..j] + [all[j]];
        }
        if above {
          trash := trash + {all[i]};
        }
        assert all[..i + 1] == all[..i] + [all[i]];
        assert all[..|all|] == all;
      }
      assert all[..|all|] == all;
      rootDirs := rootDirs - trash;
    }

    /** read: false is an exception. `present` are the paths that exist. */
    method Read(document: Document, present: set<Path>) returns (ok: bool)
      modifies this
      ensures ok == Readable(document) && rootDirs == ReadRoots(old(rootDirs), document, present)
    {
      if document.None? {
        return false;
      }
      var entries := document.value;
      rootDirs := {};
      var i := 0;
      while i < |entries| && entries[i].Some?
        invariant 0 <= i <= |entries| && rootDirs == Valid(entries, i, present)
        invariant forall k :: 0 <= k < i ==> entries[k].Some?
      {
        var p := entries[i].value;
        ValidStep(entries, i, present);
        if p in present && p.absolute {
          rootDirs := rootDirs + {p.parts};
        }
        i := i + 1;
      }
      FirstBadIs(entries, i);
      if i < |entries| {
        return false;
      }
      Normalize();
      return true;
    }

    /** populate: adds the documents directory, or its parent, to whatever roots there are; false is the failed
        check. */
    method Populate(documents: Dir, present: set<Path>) returns (ok: bool)
      modifies this
      ensures ok == (Path(true, documents) in present || Path(true, Parent(documents)) in present)
      ensures rootDirs == Populated(old(rootDirs), documents, present)
      ensures Path(true, documents) in present ==> rootDirs == old(rootDirs) + {documents}
      ensures Path(true, documents) !in present && ok ==> rootDirs == old(rootDirs) + {Parent(documents)}
      ensures !ok ==> rootDirs == old(rootDirs)
    {
      var dir := documents;
      if Path(true, dir) !in present {
        dir := Parent(dir);
        if Path(true, dir) !in present {
          return false;
        }
      }
      rootDirs := rootDirs + {dir};
      return true;
    }
  }

  function Populated(rootDirs: set<Dir>, documents: Dir, present: set<Path>): set<Dir> {
    if Path(true, documents) in present then rootDirs + {documents}
    else if Path(true, Parent(documents)) in present then rootDirs + {Parent(documents)}
    else rootDirs
  }

  /** Populating does not normalise: un-nested roots stay un-nested exactly when the added directory
      is neither above nor below one of them. */
  lemma PopulateNests(dirs: set<Dir>, dir: Dir)
    requires Unnested(dirs)
    ensures Unnested(dirs + {dir}) <==> forall d :: d in dirs ==> !IsAncestor(d, dir) && !IsAncestor(dir, d)
  {
  }
}
