/** What the calls of the database do to its roots: to the map in memory, which decides what a call is about, and to the
    table, which searches join. A commit that fails sets the two apart. */
module RootSteps {
  import opened Paths
  import opened Tables
  import opened Index
  import opened UserDb
  import opened Sessions

  datatype Held = Held(known: set<Dir>, table: set<Dir>)

  ghost function HeldBy(s: Snapshot): Held {
    Held(s.rootDirs.Keys, RootDirs(s.tables))
  }

  /** Map and table number a root alike where both have it, and the counter is ahead of both. */
  ghost predicate Numbering(s: Snapshot) {
    && (forall i :: i in s.tables.roots ==> i < s.rootsId)
    && (forall d :: d in s.rootDirs ==> s.rootDirs[d] < s.rootsId)
    && (forall d, i :: d in s.rootDirs && i in s.tables.roots ==> (s.tables.roots[i] == d <==> s.rootDirs[d] == i))
  }

  /** Then they are inverse to each other if and only if they have the same roots. */
  lemma InSyncExact(s: Snapshot)
    requires Integrity(s.tables) && Numbering(s)
    ensures InSync(s.tables, s.rootDirs) <==> HeldBy(s).known == HeldBy(s).table
  {
    var h := HeldBy(s);
    if h.known == h.table {
      forall d | d in s.rootDirs ensures s.rootDirs[d] in s.tables.roots {
        assert d in h.table;
        var i :| i in s.tables.roots && s.tables.roots[i] == d;
      }
      forall i | i in s.tables.roots ensures s.tables.roots[i] in s.rootDirs {
        assert s.tables.roots[i] in h.table;
      }
    }
    if InSync(s.tables, s.rootDirs) {
      forall d ensures d in h.known <==> d in h.table {
        if d in h.known {
          assert s.tables.roots[s.rootDirs[d]] == d;
        }
      }
    }
  }

  // ---- one call ----

  function Added(h: Held, d: Dir, r: Outcome): Held {
    if d in h.known then h
    else if r == Done then Held(h.known + {d}, h.table + {d})
    else if r == CommitError then Held(h.known + {d}, h.table)
    else h
  }

  function Removed(h: Held, d: Dir, r: Outcome): Held {
    if d !in h.known then h
    else if r == Done then Held(h.known - {d}, h.table - {d})
    else if r == CommitError then Held(h.known - {d}, h.table)
    else h
  }

  function HeldAfter(h: Held, call: Call, r: Outcome): Held {
    match call
    case AddRoot(d) => Added(h, d, r)
    case RemoveRoot(d) => Removed(h, d, r)
    case _ => h
  }

  /** How the call can end: adding a root the table has, but the map has not, is refused, and nothing else refuses
      it. */
  predicate Feasible(h: Held, call: Call, r: Outcome) {
    match call
    case AddRoot(d) =>
      && (d in h.known ==> r == Done)
      && (d !in h.known ==> r != NoRoot && (d in h.table ==> r in {Constraint, IoError})
                            && (d !in h.table ==> r != Constraint))
    case RemoveRoot(d) => (d !in h.known ==> r == Done) && r !in {NoRoot, Constraint}
    case _ => true
  }

  lemma AddStep(like: (string, string) -> bool, rec: Record)
    requires rec.call.AddRoot? && Step(like, rec) && Numbering(rec.before)
    ensures Numbering(rec.after) && Feasible(HeldBy(rec.before), rec.call, rec.outcome)
    ensures HeldBy(rec.after) == HeldAfter(HeldBy(rec.before), rec.call, rec.outcome)
  {
    var s, d := rec.before, rec.call.dir;
    if d !in s.rootDirs {
      assert s.rootsId !in s.tables.roots;
      if rec.outcome == Done {
        AddRootRefines(s.tables, s.rootsId, d);
      } else if rec.outcome == CommitError {
        forall i | i in s.tables.roots ensures s.tables.roots[i] != d {
          assert s.tables.roots[i] in RootDirs(s.tables);
        }
      }
    }
  }

  lemma DroppedRoot(t: Tables, d: Dir)
    ensures RootDirs(DeleteRoots(t, RootsNamed(t, d))) == RootDirs(t) - {d}
  {
    var t' := DeleteRoots(t, RootsNamed(t, d));
    forall e ensures e in RootDirs(t') <==> e in RootDirs(t) && e != d {
      if e in RootDirs(t) && e != d {
        var i :| i in t.roots && t.roots[i] == e;
        assert i in t'.roots && t'.roots[i] == e;
      }
    }
  }

  lemma RemoveStepHeld(like: (string, string) -> bool, rec: Record)
    requires rec.call.RemoveRoot? && Step(like, rec) && Numbering(rec.before)
    ensures Numbering(rec.after) && Feasible(HeldBy(rec.before), rec.call, rec.outcome)
    ensures HeldBy(rec.after) == HeldAfter(HeldBy(rec.before), rec.call, rec.outcome)
  {
    DroppedRoot(rec.before.tables, rec.call.dir);
  }

  lemma UpdateKeepsRoots(like: (string, string) -> bool, rec: Record)
    requires rec.call.Update? && rec.outcome == Done && Step(like, rec)
    ensures rec.after.tables.roots == rec.before.tables.roots
  {
    var s, c := rec.before, rec.call;
    var row := RowOf(s.rootDirs, c.path, c.fingerprint);
    var t1 := DeleteFiles(s.tables, FilesAt(s.tables, row.path, row.root));
    DeleteFilesEffect(s.tables, FilesAt(s.tables, row.path, row.root));
    InsertFileEffect(t1, s.filesId, row);
    IndexWordsEffect(InsertFile(t1, s.filesId, row).value, s.filesId, s.wordsId, c.words);
  }

  lemma OtherStepHeld(like: (string, string) -> bool, rec: Record)
    requires !rec.call.AddRoot? && !rec.call.RemoveRoot? && !rec.call.Create? && Step(like, rec)
    requires Numbering(rec.before)
    ensures Numbering(rec.after) && HeldBy(rec.after) == HeldBy(rec.before)
  {
    if rec.call.Update? && rec.outcome == Done {
      UpdateKeepsRoots(like, rec);
    }
    assert rec.after.tables.roots == rec.before.tables.roots;
  }

  /** In every state of a running database map and table stay numbered alike, and every call does to the roots, and
      ends, as said. */
  lemma HeldStep(like: (string, string) -> bool, rec: Record)
    requires !rec.call.Create? && Step(like, rec) && Numbering(rec.before)
    ensures Numbering(rec.after) && Feasible(HeldBy(rec.before), rec.call, rec.outcome)
    ensures HeldBy(rec.after) == HeldAfter(HeldBy(rec.before), rec.call, rec.outcome)
  {
    if rec.call.AddRoot? {
      AddStep(like, rec);
    } else if rec.call.RemoveRoot? {
      RemoveStepHeld(like, rec);
    } else {
      OtherStepHeld(like, rec);
    }
  }

  /** create leaves map and table with exactly the given roots. */
  lemma CreatedHeld(like: (string, string) -> bool, rec: Record)
    requires rec.call.Create? && rec.outcome == Done && Step(like, rec)
    ensures Numbering(rec.after) && HeldBy(rec.after) == Held(rec.call.dirs, rec.call.dirs)
  {
    forall d ensures d in RootDirs(rec.after.tables) <==> d in rec.call.dirs {
      if d in rec.call.dirs {
        assert rec.after.tables.roots[rec.after.rootDirs[d]] == d;
      }
    }
  }

  // ---- roots that are shut out ----

  function ShutOut(h: Held): set<Dir> {
    h.table - h.known
  }

  /** A root is shut out by the failed commit of its removal and by nothing else, and stays so whatever is called: it is
      searched, but never accepted again. */
  lemma ShutOutExact(h: Held, call: Call, r: Outcome, d: Dir)
    requires Feasible(h, call, r) && !call.Create?
    ensures d in ShutOut(HeldAfter(h, call, r)) <==>
      d in ShutOut(h) || (call == RemoveRoot(d) && r == CommitError && d in h.known && d in h.table)
    ensures d in ShutOut(h) && call == AddRoot(d) ==> r in {Constraint, IoError}
  {
  }

  ghost predicate NoCreate(log: seq<Record>) {
    forall k :: 0 <= k < |log| ==> !log[k].call.Create?
  }

  /** While the database is not created anew. */
  lemma {:induction false} ShutOutForever(like: (string, string) -> bool, s: Snapshot, log: seq<Record>, s': Snapshot,
                                          k: nat, d: Dir)
    requires Chain(like, s, log, s') && Numbering(s) && NoCreate(log) && d in ShutOut(HeldBy(s)) && k < |log|
    ensures d in ShutOut(HeldBy(log[k].after))
    ensures (log[k].call == AddRoot(d) ==> log[k].outcome in {Constraint, IoError})
  {
    var inv := (m: Snapshot) => Numbering(m) && d in ShutOut(HeldBy(m));
    forall j | 0 <= j < |log| && inv(log[j].before) && Step(like, log[j]) ensures inv(log[j].after) {
      HeldStep(like, log[j]);
      ShutOutExact(HeldBy(log[j].before), log[j].call, log[j].outcome, d);
    }
    LinkedKeeps(Steps(like), inv, s, log, s', k);
    HeldStep(like, log[k]);
    ShutOutExact(HeldBy(log[k].before), log[k].call, log[k].outcome, d);
  }
}
