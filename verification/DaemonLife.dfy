/** A whole life of the daemon: what holds in every state of it, when workers and roots agree, and when a change
    makes them agree again. */
module DaemonLife {
  import opened Wrappers
  import opened Paths
  import opened Tables
  import opened UserConfigs
  import opened Index
  import opened UserDb
  import opened Sessions
  import opened Refinement
  import opened RootSteps
  import opened Reconciliation
  import opened Daemon

  /** Workers are for configured roots, and these are in memory and in the table. */
  ghost predicate Agree(s: Roots) {
    Agrees(Team(s.scanners, s.watchers, s.held), s.notified) && Unnested(s.notified)
  }

  /** And memory and table have the same roots. */
  ghost predicate Calm(s: Roots) {
    Agree(s) && s.held.known == s.held.table
  }

  predicate AllSame(s: Roots) {
    s.scanners == s.watchers == s.notified == s.held.known == s.held.table
  }

  // ---- one change of the configuration ----

  ghost function NewConfig(m: Moment): set<Dir>
    requires m.event.ConfigChanged?
  {
    ReadRoots(m.before.config, m.event.document, m.event.present)
  }

  /** The change as a reconciliation by two observers. */
  lemma ChangeReconciles(m: Moment) returns (t: Team, t': Team, fails: set<Dir>, fails': set<Dir>)
    requires Does(m) && m.event.ConfigChanged? && Readable(m.event.document)
    ensures Reconciles(t, t', NewConfig(m), fails, fails', m.first, m.second)
    ensures t == TeamOf(m.before, m.event.scannerFirst) && t' == TeamOf(m.after, m.event.scannerFirst)
    ensures fails == if m.event.scannerFirst then m.event.scannerFails else m.event.watcherFails
    ensures fails' == if m.event.scannerFirst then m.event.watcherFails else m.event.scannerFails
    ensures m.after.config == m.after.notified == NewConfig(m) && Unnested(NewConfig(m))
  {
    t, t' := TeamOf(m.before, m.event.scannerFirst), TeamOf(m.after, m.event.scannerFirst);
    fails := if m.event.scannerFirst then m.event.scannerFails else m.event.watcherFails;
    fails' := if m.event.scannerFirst then m.event.watcherFails else m.event.scannerFails;
    ReadIsUnnested(m.before.config, m.event.document, m.event.present);
  }

  /** A change all of whose calls are done leaves, in either order of the observers and from any state: workers for the
      configured roots but where constructors throw; in memory these roots and those nobody was left to remove; and what
      was shut out of memory before. */
  lemma ChangeExact(m: Moment)
    requires Does(m) && Sound(m.before) && m.event.ConfigChanged? && Readable(m.event.document)
    requires Completed(m.first, m.second)
    ensures var c, s, s' := NewConfig(m), m.before, m.after;
            && s'.config == s'.notified == c
            && s'.scanners == WorkersAfter(s.scanners, c, m.event.scannerFails)
            && s'.watchers == WorkersAfter(s.watchers, c, m.event.watcherFails)
            && s'.held.known == c + (s.held.known - s.scanners - s.watchers)
            && ShutOut(s'.held) == ShutOut(s.held) && c !! ShutOut(s.held)
            && s'.held.known - s'.held.table == s.held.known - s.held.table - (s.scanners + s.watchers - c)
  {
    var t, t', fails, fails' := ChangeReconciles(m);
    CompletedExact(t, t', NewConfig(m), fails, fails', m.first, m.second);
    assert m.before.scanners + m.before.watchers == t.first + t.second;
    assert t.held.known - t.first - t.second == m.before.held.known - m.before.scanners - m.before.watchers;
  }

  /** Whatever went wrong before, a change that SQLite does not break off makes all agree again if and only if
      memory and table agree about each configured root. */
  lemma ChangeRestoresExact(m: Moment)
    requires Does(m) && Sound(m.before) && m.event.ConfigChanged? && Readable(m.event.document)
    requires NothingBrokenOff(m.first) && NothingBrokenOff(m.second)
    ensures Agree(m.after) <==>
            forall d :: d in NewConfig(m) ==> (d in m.before.held.known <==> d in m.before.held.table)
  {
    var t, t', fails, fails' := ChangeReconciles(m);
    RestoresExact(t, t', NewConfig(m), fails, fails', m.first, m.second);
    assert Agree(m.after) <==> Agrees(t', NewConfig(m));
  }

  /** From equal roots a change leaves agreement if and only if all its calls are done. */
  lemma ChangeAgreesExact(m: Moment)
    requires Does(m) && AllSame(m.before) && m.event.ConfigChanged? && Readable(m.event.document)
    ensures Agree(m.after) <==> Completed(m.first, m.second)
  {
    var t, t', fails, fails' := ChangeReconciles(m);
    AgreesExact(t, t', NewConfig(m), fails, fails', m.first, m.second);
    assert Agree(m.after) <==> Agrees(t', NewConfig(m));
  }

  /** And all are equal again if and only if moreover no constructor for a missing root throws. */
  lemma ChangeSameExact(m: Moment)
    requires Does(m) && AllSame(m.before) && m.event.ConfigChanged? && Readable(m.event.document)
    ensures AllSame(m.after) <==>
      Completed(m.first, m.second) && NewConfig(m) - m.before.notified !! m.event.scannerFails + m.event.watcherFails
  {
    var t, t', fails, fails' := ChangeReconciles(m);
    var c, s, s' := NewConfig(m), m.before, m.after;
    AgreesExact(t, t', c, fails, fails', m.first, m.second);
    if Completed(m.first, m.second) {
      FirstPassSettles(t, t', c, fails, fails', m.first, m.second, 0);
      CompletedExact(t, t', c, fails, fails', m.first, m.second);
      StartedExact(s.scanners, c, m.event.scannerFails);
      StartedExact(s.watchers, c, m.event.watcherFails);
    } else {
      assert !Agrees(t', c);
    }
  }

  lemma StartedExact(workers: set<Dir>, config: set<Dir>, failing: set<Dir>)
    ensures WorkersAfter(workers, config, failing) == config <==> config - workers !! failing
  {
    if d :| d in config - workers && d in failing {
      assert d !in WorkersAfter(workers, config, failing);
    }
  }

  /** The roots in memory and in the table after each call of the command. */
  ghost predicate NeverNests(m: Moment) {
    forall k :: 0 <= k < |m.first + m.second| ==>
      Unnested(HeldBy((m.first + m.second)[k].after).known) && Unnested(HeldBy((m.first + m.second)[k].after).table)
  }

  /** The roots after the call are those the pass says. */
  lemma {:induction false} CallInPass(like: (string, string) -> bool, s: Snapshot, log: seq<Record>, s': Snapshot,
                                      k: nat, workers: set<Dir>, failing: set<Dir>)
    requires Chain(like, s, log, s') && Numbering(s) && NoCreate(log) && k < |log|
    ensures HeldBy(log[k].after) == Over(Progress(workers, HeldBy(s)), log[..k + 1], failing).held
  {
    LinkedPrefix(Steps(like), s, log, s', k);
    OverHeld(like, s, log[..k + 1], log[k].after, workers, failing);
  }

  lemma Prefixes<T>(a: seq<T>, b: seq<T>, k: nat)
    requires k < |a + b|
    ensures k < |a| ==> (a + b)[..k + 1] == a[..k + 1]
    ensures k >= |a| ==> (a + b)[..k + 1] == a + b[..k - |a| + 1]
  {
  }

  /** What the calls do to the roots does not depend on the workers. */
  lemma {:induction false} HeldAlone(p: Progress, workers: set<Dir>, log: seq<Record>, failing: set<Dir>,
                                     failing': set<Dir>)
    ensures Over(p, log, failing).held == Over(Progress(workers, p.held), log, failing').held
    decreases |log|
  {
    if log != [] {
      HeldAlone(p, workers, log[..|log| - 1], failing, failing');
    }
  }

  /** The roots after a call of the second observer. */
  lemma {:induction false} HeldInSecond(t: Team, log: seq<Record>, more: seq<Record>, fails: set<Dir>, fails': set<Dir>)
    ensures Over(Progress(t.first, t.held), log + more, fails).held ==
            Over(Progress(t.second, Over(Progress(t.first, t.held), log, fails).held), more, fails').held
  {
    OverJoin(Progress(t.first, t.held), log, more, fails);
    HeldAlone(Over(Progress(t.first, t.held), log, fails), t.second, more, fails, fails');
  }

  lemma {:induction false} CallsNeverNest(t: Team, t': Team, config: set<Dir>, fails: set<Dir>, fails': set<Dir>,
                                          log: seq<Record>, log': seq<Record>, k: nat)
    requires Reconciles(t, t', config, fails, fails', log, log') && k < |log + log'|
    requires t.held.known == t.held.table && config * t.first <= t.held.known
    requires Unnested(t.held.known) && Unnested(config) && Clear(t, config)
    ensures var h := Over(Progress(t.first, t.held), (log + log')[..k + 1], fails).held;
            Unnested(h.known) && Unnested(h.table)
  {
    Prefixes(log, log', k);
    if k < |log| {
      NeverNested(t, t', config, fails, fails', log, log', k + 1, 0);
    } else {
      var j := k - |log| + 1;
      HeldInSecond(t, log, log'[..j], fails, fails');
      NeverNested(t, t', config, fails, fails', log, log', |log|, j);
    }
  }

  /** No root is ever above another during a change, not even between two calls of it, and whatever fails, when the
      new roots are clear of those the first observer does not work on. */
  lemma ChangeNeverNests(like: (string, string) -> bool, m: Moment)
    requires Handled(like, m) && Calm(m.before) && Unnested(m.before.held.known) && m.event.ConfigChanged?
    requires Readable(m.event.document) ==> Clear(TeamOf(m.before, m.event.scannerFirst), NewConfig(m))
    ensures NeverNests(m)
  {
    if Readable(m.event.document) {
      var t, t', fails, fails' := ChangeReconciles(m);
      var log := m.first + m.second;
      forall k | 0 <= k < |log| ensures Unnested(HeldBy(log[k].after).known) && Unnested(HeldBy(log[k].after).table) {
        CallInPass(like, m.dbBefore, log, m.dbAfter, k, t.first, fails);
        CallsNeverNest(t, t', NewConfig(m), fails, fails', m.first, m.second, k);
      }
    }
  }

  /** And only then, when the first observer comes to its end: else its pass ends with a root above another. */
  lemma ChangeNestsExact(like: (string, string) -> bool, m: Moment)
    requires Handled(like, m) && Calm(m.before) && Unnested(m.before.held.known)
    requires m.event.ConfigChanged? && Readable(m.event.document) && AllDone(m.first)
    ensures NeverNests(m) <==> Clear(TeamOf(m.before, m.event.scannerFirst), NewConfig(m))
  {
    if NeverNests(m) {
      var t, t', fails, fails' := ChangeReconciles(m);
      NestsExact(t, t', NewConfig(m), fails, fails', m.first, m.second);
      var log, n := m.first + m.second, |m.first|;
      assert log[..n] == m.first;
      if n > 0 {
        CallInPass(like, m.dbBefore, log, m.dbAfter, n - 1, t.first, fails);
        assert Unnested(HeldBy(log[n - 1].after).known);
      }
    } else {
      if Clear(TeamOf(m.before, m.event.scannerFirst), NewConfig(m)) {
        ChangeNeverNests(like, m);
      }
    }
  }

  /** So it can nest: the constructor of the scanner for /a has thrown, and now /a/b is configured instead. */
  lemma LostScannerNests(like: (string, string) -> bool, m: Moment)
    requires Handled(like, m) && Calm(m.before) && m.before.held.known == {["a"]} && m.before.scanners == {}
    requires m.event.ConfigChanged? && Readable(m.event.document) && NewConfig(m) == {["a", "b"]}
    requires m.event.scannerFirst && AllDone(m.first)
    ensures !NeverNests(m)
  {
    assert ["a"] in m.before.held.known - m.before.scanners && IsAncestor(["a"], ["a", "b"]);
    ChangeNestsExact(like, m);
  }

  // ---- lives ----

  /** Commands one after the other, each from where the one before has ended, however it has. */
  ghost predicate Life(like: (string, string) -> bool, d: Snapshot, s: Roots, life: seq<Moment>, d': Snapshot,
                       s': Roots)
    decreases |life|
  {
    if life == [] then d' == d && s' == s
    else
      var m := life[|life| - 1];
      Life(like, d, s, life[..|life| - 1], m.dbBefore, m.before) && Handled(like, m) && m.dbAfter == d' && m.after == s'
  }

  lemma {:induction false} LifeOn(like: (string, string) -> bool, d: Snapshot, s: Roots, life: seq<Moment>, m: Moment)
    requires Life(like, d, s, life, m.dbBefore, m.before) && Handled(like, m)
    ensures Life(like, d, s, life + [m], m.dbAfter, m.after)
  {
    assert (life + [m])[..|life|] == life;
  }

  lemma {:induction false} LifeAt(like: (string, string) -> bool, d: Snapshot, s: Roots, life: seq<Moment>,
                                  d': Snapshot, s': Roots, k: nat)
    requires Life(like, d, s, life, d', s') && k < |life|
    ensures Handled(like, life[k]) && Life(like, d, s, life[..k], life[k].dbBefore, life[k].before)
    decreases |life|
  {
    if k < |life| - 1 {
      var first, m := life[..|life| - 1], life[|life| - 1];
      LifeAt(like, d, s, first, m.dbBefore, m.before, k);
      assert first[..k] == life[..k] && first[k] == life[k];
    }
  }

  /** Every state of a life is sound. */
  lemma {:induction false} LifeSound(like: (string, string) -> bool, d: Snapshot, s: Roots, life: seq<Moment>,
                                     d': Snapshot, s': Roots)
    requires Life(like, d, s, life, d', s') && Sound(s)
    ensures Sound(s')
    decreases |life|
  {
    if life != [] {
      var m := life[|life| - 1];
      LifeSound(like, d, s, life[..|life| - 1], m.dbBefore, m.before);
      HandledSound(m);
    }
  }

  function CallsOf(life: seq<Moment>): seq<Record>
    decreases |life|
  {
    if life == [] then [] else CallsOf(life[..|life| - 1]) + (life[|life| - 1].first + life[|life| - 1].second)
  }

  /** The calls of a life are one run of the database. */
  lemma {:induction false} LifeChain(like: (string, string) -> bool, d: Snapshot, s: Roots, life: seq<Moment>,
                                     d': Snapshot, s': Roots)
    requires Life(like, d, s, life, d', s')
    ensures Chain(like, d, CallsOf(life), d') && NoCreate(CallsOf(life))
    decreases |life|
  {
    if life != [] {
      var m := life[|life| - 1];
      var before := CallsOf(life[..|life| - 1]);
      LifeChain(like, d, s, life[..|life| - 1], m.dbBefore, m.before);
      LinkedJoin(Steps(like), d, before, m.dbBefore, m.first + m.second, m.dbAfter);
    }
  }

  /** No configuration that has a root which is shut out is ever agreed on again. */
  lemma {:induction false} ShutOutDisagrees(like: (string, string) -> bool, d: Snapshot, s: Roots, life: seq<Moment>,
                                            d': Snapshot, s': Roots, dir: Dir)
    requires Life(like, d, s, life, d', s') && Numbering(d) && s.held == HeldBy(d) && dir in ShutOut(s.held)
    ensures dir in ShutOut(s'.held) && (dir in s'.notified ==> !Agree(s'))
  {
    var log := CallsOf(life);
    LifeChain(like, d, s, life, d', s');
    LifeHeld(like, d, s, life, d', s');
    if log != [] {
      ShutOutForever(like, d, log, d', |log| - 1, dir);
      LinkedAt(Steps(like), d, log, d', |log| - 1);
    }
  }

  lemma {:induction false} LifeHeld(like: (string, string) -> bool, d: Snapshot, s: Roots, life: seq<Moment>,
                                    d': Snapshot, s': Roots)
    requires Life(like, d, s, life, d', s') && Numbering(d) && s.held == HeldBy(d)
    ensures Numbering(d') && s'.held == HeldBy(d')
  {
    if life != [] {
      assert Handled(like, life[|life| - 1]);
    }
  }

  lemma SameIsCalm(s: Roots)
    requires Sound(s) && AllSame(s)
    ensures Calm(s) && Unnested(s.held.known)
  {
  }

  // ---- lives in which SQLite breaks off no change ----

  /** The command is not a change a call of which SQLite breaks off. */
  ghost predicate Unbroken(m: Moment) {
    m.event.ConfigChanged? ==> NothingBrokenOff(m.first) && NothingBrokenOff(m.second)
  }

  lemma CalmKept(m: Moment)
    requires Does(m) && Sound(m.before) && Calm(m.before) && Unbroken(m)
    ensures Calm(m.after)
  {
    if m.event.ConfigChanged? && Readable(m.event.document) {
      ChangeRestoresExact(m);
      var t, t', fails, fails' := ChangeReconciles(m);
      RestoresExact(t, t', NewConfig(m), fails, fails', m.first, m.second);
      assert ShutOut(t.held) == {};
      ChangeExact(m);
      var h, h' := m.before.held, m.after.held;
      assert h'.known - h'.table == {} && h'.table - h'.known == {};
      assert h'.known == h'.table;
    }
  }

  /** Memory and table keep the same roots, and workers stay within the configuration and this within the roots,
      whatever constructors throw and whatever file commands fail. */
  lemma {:induction false} CalmLife(like: (string, string) -> bool, d: Snapshot, s: Roots, life: seq<Moment>,
                                    d': Snapshot, s': Roots, k: nat)
    requires Life(like, d, s, life, d', s') && Sound(s) && Calm(s) && k <= |life|
    requires forall j :: 0 <= j < k ==> Unbroken(life[j])
    ensures Calm(if k < |life| then life[k].before else s')
    decreases |life|
  {
    if k < |life| {
      LifeAt(like, d, s, life, d', s', k);
      CalmLife(like, d, s, life[..k], life[k].dbBefore, life[k].before, k);
    } else if life != [] {
      var m := life[|life| - 1];
      CalmLife(like, d, s, life[..|life| - 1], m.dbBefore, m.before, |life| - 1);
      LifeSound(like, d, s, life[..|life| - 1], m.dbBefore, m.before);
      CalmKept(m);
    }
  }

  lemma RootCallEnds(like: (string, string) -> bool, rec: Record)
    requires Step(like, rec) && (rec.call.AddRoot? || rec.call.RemoveRoot?)
    ensures rec.outcome != NoRoot
  {
  }

  lemma {:induction false} FaultlessCall(like: (string, string) -> bool, s: Snapshot, log: seq<Record>, s': Snapshot,
                                         k: nat)
    requires Chain(like, s, log, s') && FaultsOf(log) == 0 && k < |log|
    requires log[k].call.AddRoot? || log[k].call.RemoveRoot?
    ensures log[k].outcome in {Done, Constraint}
  {
    FaultlessCalls(log, k);
    LinkedAt(Steps(like), s, log, s', k);
    RootCallEnds(like, log[k]);
  }

  lemma FaultlessChange(like: (string, string) -> bool, m: Moment)
    requires Handled(like, m) && FaultsOf(m.first + m.second) == 0
    ensures Unbroken(m)
  {
    var log := m.first + m.second;
    if m.event.ConfigChanged? && Readable(m.event.document) {
      var t, t', fails, fails' := ChangeReconciles(m);
      PlannedRootCalls(t.first, NewConfig(m), m.first);
      if m.second != [] {
        PlannedRootCalls(t.second, NewConfig(m), m.second);
      }
      forall k | 0 <= k < |m.first| ensures m.first[k].outcome in {Done, Constraint} {
        FaultlessCall(like, m.dbBefore, log, m.dbAfter, k);
      }
      forall k | 0 <= k < |m.second| ensures m.second[k].outcome in {Done, Constraint} {
        FaultlessCall(like, m.dbBefore, log, m.dbAfter, |m.first| + k);
      }
    }
  }

  lemma {:induction false} FaultlessChanges(like: (string, string) -> bool, d: Snapshot, s: Roots, life: seq<Moment>,
                                            d': Snapshot, s': Roots, k: nat)
    requires Life(like, d, s, life, d', s') && FaultsOf(CallsOf(life)) == 0 && k < |life|
    ensures Unbroken(life[k])
    decreases |life|
  {
    var first, m := life[..|life| - 1], life[|life| - 1];
    FaultsJoin(CallsOf(first), m.first + m.second);
    if k < |life| - 1 {
      FaultlessChanges(like, d, s, first, m.dbBefore, m.before, k);
    } else {
      FaultlessChange(like, m);
    }
  }

  /** So it is in every state of a life in which SQLite breaks off nothing. */
  lemma {:induction false} FaultlessLife(like: (string, string) -> bool, d: Snapshot, s: Roots, life: seq<Moment>,
                                         d': Snapshot, s': Roots, k: nat)
    requires Life(like, d, s, life, d', s') && Sound(s) && Calm(s) && FaultsOf(CallsOf(life)) == 0 && k <= |life|
    ensures Calm(if k < |life| then life[k].before else s')
  {
    forall j | 0 <= j < |life| ensures Unbroken(life[j]) {
      FaultlessChanges(like, d, s, life, d', s', j);
    }
    CalmLife(like, d, s, life, d', s', k);
  }

  // ---- lives in which moreover no constructor throws ----

  /** The command is not a change in which a call fails or the constructor for a missing root throws. */
  ghost predicate Tidy(m: Moment) {
    m.event.ConfigChanged? && Readable(m.event.document) ==>
      Completed(m.first, m.second) && NewConfig(m) - m.before.notified !! m.event.scannerFails + m.event.watcherFails
  }

  lemma OthersKeepSame(m: Moment)
    requires Does(m) && AllSame(m.before) && !(m.event.ConfigChanged? && Readable(m.event.document))
    ensures AllSame(m.after)
  {
  }

  lemma {:induction false} OneCall(step: Record -> bool, s: Snapshot, log: seq<Record>, s': Snapshot)
    requires Linked(step, s, log, s') && |log| == 1
    ensures step(log[0]) && log[0].before == s && log[0].after == s'
  {
    assert log[..0] == [];
  }

  lemma LastCall(step: Record -> bool, s: Snapshot, log: seq<Record>, s': Snapshot)
    requires Linked(step, s, log, s') && log != []
    ensures log[|log| - 1].after == s'
  {
  }

  lemma OthersNeverNest(like: (string, string) -> bool, m: Moment)
    requires Handled(like, m) && Sound(m.before) && AllSame(m.before) && !m.event.ConfigChanged?
    ensures NeverNests(m)
  {
    var log := m.first + m.second;
    forall k | 0 <= k < |log| ensures Unnested(HeldBy(log[k].after).known) && Unnested(HeldBy(log[k].after).table) {
      assert m.event.FileCommand? && log == m.first && k == |log| - 1;
      LastCall(Steps(like), m.dbBefore, log, m.dbAfter);
      assert HeldBy(log[k].after) == m.before.held;
    }
  }

  /** As long as the changes before were tidy, observers, memory and table have the same roots before each command,
      and no root is above another after any call of it, even if this one fails. */
  lemma {:induction false} TidyLife(like: (string, string) -> bool, d: Snapshot, s: Roots, life: seq<Moment>,
                                    d': Snapshot, s': Roots, k: nat)
    requires Life(like, d, s, life, d', s') && Sound(s) && AllSame(s) && k <= |life|
    requires forall j :: 0 <= j < k ==> Tidy(life[j])
    ensures AllSame(if k < |life| then life[k].before else s')
    ensures k < |life| ==> NeverNests(life[k])
    decreases |life|
  {
    if k < |life| {
      LifeAt(like, d, s, life, d', s', k);
      var m := life[k];
      TidyLife(like, d, s, life[..k], m.dbBefore, m.before, k);
      LifeSound(like, d, s, life[..k], m.dbBefore, m.before);
      if m.event.ConfigChanged? {
        SameIsCalm(m.before);
        ChangeNeverNests(like, m);
      } else {
        OthersNeverNest(like, m);
      }
    } else if life != [] {
      var m := life[|life| - 1];
      TidyLife(like, d, s, life[..|life| - 1], m.dbBefore, m.before, |life| - 1);
      assert Tidy(m);
      if m.event.ConfigChanged? && Readable(m.event.document) {
        ChangeSameExact(m);
      } else {
        OthersKeepSame(m);
      }
    }
  }

  /** And the file command it handles then does to the documents what it means, or nothing if it fails. */
  lemma {:induction false} TidyLifeMeans(like: (string, string) -> bool, d: Snapshot, s: Roots, life: seq<Moment>,
                                         d': Snapshot, s': Roots, k: nat)
    requires Life(like, d, s, life, d', s') && Sound(s) && AllSame(s) && k < |life| && life[k].event.FileCommand?
    requires forall j :: 0 <= j < k ==> Tidy(life[j])
    ensures var m := life[k];
            && |m.first| == 1 && m.first[0].call == m.event.call
            && m.first[0].before == m.dbBefore && m.first[0].after == m.dbAfter
            && (m.first[0].outcome == Done ==> Means(like, m.first[0]))
            && (m.first[0].outcome != Done ==> Docs(m.dbAfter.tables) == Docs(m.dbBefore.tables))
  {
    LifeAt(like, d, s, life, d', s', k);
    LifeSound(like, d, s, life[..k], life[k].dbBefore, life[k].before);
    TidyLife(like, d, s, life, d', s', k);
    SameIsCalm(life[k].before);
    FileCommandMeans(like, life[k]);
  }

  lemma FileCommandMeans(like: (string, string) -> bool, m: Moment)
    requires Handled(like, m) && Calm(m.before) && Unnested(m.before.held.known) && m.event.FileCommand?
    ensures |m.first| == 1 && m.first[0].call == m.event.call
    ensures m.first[0].before == m.dbBefore && m.first[0].after == m.dbAfter
    ensures m.first[0].outcome == Done ==> Means(like, m.first[0])
    ensures m.first[0].outcome != Done ==> Docs(m.dbAfter.tables) == Docs(m.dbBefore.tables)
  {
    OneCall(Steps(like), m.dbBefore, m.first + m.second, m.dbAfter);
    assert m.first + m.second == m.first;
    InSyncExact(m.dbBefore);
    CallMeans(like, m.first[0]);
  }

  // ---- start-up, and the loop of main ----

  /** Once the database is created the observers find nothing to do in it, so start-up fails no further. */
  lemma {:induction false} FirstRound(s: Roots, s': Roots, scannerFails: set<Dir>, watcherFails: set<Dir>,
                                      first: seq<Record>, second: seq<Record>)
    requires Round(s, s', scannerFails, watcherFails, false, first, second)
    requires s == Roots(s.config, {}, {}, {}, Held(s.config, s.config)) && Unnested(s.config)
    ensures Completed(first, second)
    ensures s' == Roots(s.config, s.config, s.config - scannerFails, s.config - watcherFails, s.held)
    ensures Sound(s') && Calm(s') && (s.config !! scannerFails + watcherFails ==> AllSame(s'))
  {
    var p := Progress({}, s.held);
    assert {} - s.config == {} && s.config - {} == s.config;
    NothingToDo(p, s.config, first, watcherFails, |first|);
    assert first[..|first|] == first;
    NothingToDo(p, s.config, second, scannerFails, |second|);
    assert second[..|second|] == second;
    CompletePass(p, s.config, first, watcherFails);
    CompletePass(p, s.config, second, scannerFails);
    assert WorkersAfter({}, s.config, watcherFails) == s.config - watcherFails;
    assert WorkersAfter({}, s.config, scannerFails) == s.config - scannerFails;
  }

  /** The state in which the loop of main begins. */
  function FirstState(roots: set<Dir>, scannerFails: set<Dir>, watcherFails: set<Dir>): Roots {
    Roots(roots, roots, roots - scannerFails, roots - watcherFails, Held(roots, roots))
  }

  /** Start-up: the database, the watcher, then the scanner. It comes to its end if and only if there are roots to start
      with and the database can be created. */
  method Launch(kept: Tables, like: (string, string) -> bool, breaks: nat -> bool, file: Option<Document>,
                documents: Dir, present: set<Path>, scannerFails: set<Dir>, watcherFails: set<Dir>)
    returns (daemon: Daemon, ok: bool, log: seq<Record>)
    requires Integrity(kept)
    ensures fresh(daemon) && fresh(daemon.config) && fresh(daemon.db) && fresh(daemon.db.cache)
    ensures fresh(daemon.scanner) && fresh(daemon.watcher)
    ensures daemon.Valid() && daemon.db.like == like && daemon.db.breaks == breaks
    ensures Logged(daemon.db, Opened(kept), 0, log)
    ensures CanStart(file, documents, present) ==> log != [] && log[0].call.Create?
    ensures ok <==> CanStart(file, documents, present) && log[0].outcome == Done
    ensures ok ==> var roots := FirstRoots(file, documents, present);
      && daemon.Running() && daemon.State() == FirstState(roots, scannerFails, watcherFails)
      && Sound(daemon.State()) && Calm(daemon.State())
      && (roots !! scannerFails + watcherFails ==> AllSame(daemon.State()))
  {
    daemon := new Daemon(kept, like, breaks);
    ok, log := daemon.Start(file, documents, present);
    if ok {
      ghost var d := Sessions.State(daemon.db);
      var more := TellFirst(daemon, scannerFails, watcherFails);
      LinkedJoin(Steps(like), Opened(kept), log, d, more, Sessions.State(daemon.db));
      FaultsJoin(log, more);
      log := log + more;
    }
  }

  /** The constructors of the watcher and of the scanner, over a database that has just been created. */
  method TellFirst(daemon: Daemon, scannerFails: set<Dir>, watcherFails: set<Dir>) returns (log: seq<Record>)
    requires daemon.Running() && Unnested(daemon.config.rootDirs)
    requires var roots := daemon.config.rootDirs; daemon.State() == Roots(roots, {}, {}, {}, Held(roots, roots))
    modifies daemon, daemon.scanner, daemon.watcher, daemon.db, daemon.db.cache
    ensures daemon.Running()
    ensures Logged(daemon.db, old(Sessions.State(daemon.db)), old(daemon.db.Faults()), log)
    ensures daemon.State() == FirstState(daemon.config.rootDirs, scannerFails, watcherFails)
    ensures Sound(daemon.State()) && Calm(daemon.State())
    ensures daemon.config.rootDirs !! scannerFails + watcherFails ==> AllSame(daemon.State())
  {
    ghost var s := daemon.State();
    var first, second := daemon.Notify(scannerFails, watcherFails, false);
    FirstRound(s, daemon.State(), scannerFails, watcherFails, first, second);
    log := first + second;
  }

  lemma {:induction false} FaultlessStart(like: (string, string) -> bool, kept: Tables, log: seq<Record>, d: Snapshot)
    requires Chain(like, Opened(kept), log, d) && log != [] && log[0].call.Create? && FaultsOf(log) == 0
    ensures log[0].outcome == Done
  {
    FaultlessCalls(log, 0);
    LinkedAt(Steps(like), Opened(kept), log, d, 0);
  }

  /** The daemon is where the life that began with d and s, after f faults, has led. */
  ghost predicate Lives(daemon: Daemon, d: Snapshot, s: Roots, f: nat, life: seq<Moment>)
    reads daemon, daemon.config, daemon.scanner, daemon.watcher, daemon.db, daemon.db.cache
  {
    && daemon.Running() && Life(daemon.db.like, d, s, life, Sessions.State(daemon.db), daemon.State())
    && daemon.db.Faults() == f + FaultsOf(CallsOf(life))
  }

  lemma {:induction false} CallsOn(life: seq<Moment>, m: Moment)
    ensures FaultsOf(CallsOf(life + [m])) == FaultsOf(CallsOf(life)) + FaultsOf(m.first + m.second)
  {
    assert (life + [m])[..|life|] == life;
    FaultsJoin(CallsOf(life), m.first + m.second);
  }

  predicate Queued(events: seq<Event>) {
    forall k :: 0 <= k < |events| && events[k].FileCommand? ==> IsFileCall(events[k].call)
  }

  /** The life is one of the first commands. */
  ghost predicate Served(events: seq<Event>, life: seq<Moment>) {
    |life| <= |events| && forall k :: 0 <= k < |life| ==> life[k].event == events[k]
  }

  lemma {:induction false} OneMoreServed(life: seq<Moment>, m: Moment, events: seq<Event>)
    requires Served(events, life) && |life| < |events| && m.event == events[|life|]
    ensures Served(events, life + [m])
    ensures FaultsOf(CallsOf(life + [m])) == FaultsOf(CallsOf(life)) + FaultsOf(m.first + m.second)
  {
    CallsOn(life, m);
  }

  method ServeNext(daemon: Daemon, events: seq<Event>, i: nat, ghost d: Snapshot, ghost s: Roots, ghost f: nat,
                   ghost life: seq<Moment>)
    returns (ghost longer: seq<Moment>)
    requires Lives(daemon, d, s, f, life) && Queued(events) && Served(events, life) && |life| == i < |events|
    modifies daemon, daemon.config, daemon.scanner, daemon.watcher, daemon.db, daemon.db.cache
    ensures Lives(daemon, d, s, f, longer) && Served(events, longer) && |longer| == i + 1
  {
    ghost var m := daemon.Handle(events[i]);
    LifeOn(daemon.db.like, d, s, life, m);
    OneMoreServed(life, m, events);
    longer := life + [m];
  }

  /** The loop of main: all commands of the queue, in any order, each to its end or to its exception. */
  method Serve(daemon: Daemon, events: seq<Event>, ghost d: Snapshot, ghost s: Roots, ghost f: nat)
    returns (ghost life: seq<Moment>)
    requires Lives(daemon, d, s, f, []) && Queued(events)
    modifies daemon, daemon.config, daemon.scanner, daemon.watcher, daemon.db, daemon.db.cache
    ensures Lives(daemon, d, s, f, life) && Served(events, life) && |life| == |events|
  {
    life := [];
    for i := 0 to |events|
      invariant Lives(daemon, d, s, f, life) && Served(events, life) && |life| == i
    {
      life := ServeNext(daemon, events, i, d, s, f, life);
    }
  }

  /** A whole life of the daemon. Its first part is the log of start-up, which leads to the state d of the database. */
  method Live(kept: Tables, like: (string, string) -> bool, breaks: nat -> bool, file: Option<Document>, documents: Dir,
              present: set<Path>, scannerFails: set<Dir>, watcherFails: set<Dir>, events: seq<Event>)
    returns (daemon: Daemon, ok: bool, log: seq<Record>, ghost d: Snapshot, ghost life: seq<Moment>)
    requires Integrity(kept) && Queued(events)
    ensures daemon.Valid() && Chain(like, Opened(kept), log, d)
    ensures CanStart(file, documents, present) ==> log != [] && log[0].call.Create?
    ensures ok <==> CanStart(file, documents, present) && log[0].outcome == Done
    ensures !ok ==> d == Sessions.State(daemon.db) && life == []
    ensures ok ==> daemon.Running() && Sound(daemon.State()) && Numbering(d)
    ensures ok ==> |life| == |events| && Served(events, life)
    ensures ok ==> var s := FirstState(FirstRoots(file, documents, present), scannerFails, watcherFails);
      HeldBy(d) == s.held && Sound(s) && Calm(s) && Life(like, d, s, life, Sessions.State(daemon.db), daemon.State())
    ensures FaultsOf(log) + FaultsOf(CallsOf(life)) == Broken(breaks, daemon.db.statements)
    ensures NeverBreaks(breaks) ==> (ok <==> CanStart(file, documents, present)) && FaultsOf(CallsOf(life)) == 0
    ensures NeverBreaks(breaks) && ok ==> Calm(daemon.State())
  {
    daemon, ok, log := Launch(kept, like, breaks, file, documents, present, scannerFails, watcherFails);
    d, life := Sessions.State(daemon.db), [];
    if ok {
      ghost var s := daemon.State();
      life := Serve(daemon, events, d, s, daemon.db.Faults());
      LifeSound(like, d, s, life, Sessions.State(daemon.db), daemon.State());
    }
    assert daemon.db.Faults() == Broken(breaks, daemon.db.statements);
    if NeverBreaks(breaks) {
      NoneBroken(breaks, daemon.db.statements);
      if log != [] && log[0].call.Create? {
        FaultlessStart(like, kept, log, d);
      }
      if ok {
        var s := FirstState(FirstRoots(file, documents, present), scannerFails, watcherFails);
        FaultlessLife(like, d, s, life, Sessions.State(daemon.db), daemon.State(), |life|);
      }
    }
  }
}
