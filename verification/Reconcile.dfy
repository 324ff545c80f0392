/** daemon/src: how an observer reconciles its workers and the database roots with the configuration, call by call, and
    what two observers leave together. A call that fails breaks off the rest. */
module Reconciliation {
  import opened Paths
  import opened UserDb
  import opened Sessions
  import opened RootSteps

  /** The workers an observer ends up with, when the constructors for `failing` throw and no call fails. */
  function WorkersAfter(workers: set<Dir>, config: set<Dir>, failing: set<Dir>): set<Dir> {
    workers * config + (config - workers - failing)
  }

  // ---- the calls of one observer ----

  datatype Progress = Progress(workers: set<Dir>, held: Held)

  /** A worker is dropped before the call that removes its root, and started after the one that adds it. */
  function Worked(workers: set<Dir>, call: Call, r: Outcome, failing: set<Dir>): set<Dir> {
    match call
    case RemoveRoot(d) => workers - {d}
    case AddRoot(d) => if r == Done && d !in failing then workers + {d} else workers
    case _ => workers
  }

  function Stepped(p: Progress, call: Call, r: Outcome, failing: set<Dir>): Progress {
    Progress(Worked(p.workers, call, r, failing), HeldAfter(p.held, call, r))
  }

  function Over(p: Progress, log: seq<Record>, failing: set<Dir>): Progress
    decreases |log|
  {
    if log == [] then p
    else Stepped(Over(p, log[..|log| - 1], failing), log[|log| - 1].call, log[|log| - 1].outcome, failing)
  }

  /** The workers alone. */
  function WorkersOver(workers: set<Dir>, log: seq<Record>, failing: set<Dir>): set<Dir>
    decreases |log|
  {
    if log == [] then workers
    else Worked(WorkersOver(workers, log[..|log| - 1], failing), log[|log| - 1].call, log[|log| - 1].outcome, failing)
  }

  lemma {:induction false} OverWorkers(p: Progress, log: seq<Record>, failing: set<Dir>)
    ensures Over(p, log, failing).workers == WorkersOver(p.workers, log, failing)
    decreases |log|
  {
    if log != [] {
      OverWorkers(p, log[..|log| - 1], failing);
    }
  }

  lemma {:induction false} WorkersOn(workers: set<Dir>, log: seq<Record>, rec: Record, failing: set<Dir>)
    ensures WorkersOver(workers, log + [rec], failing) ==
            Worked(WorkersOver(workers, log, failing), rec.call, rec.outcome, failing)
  {
    assert (log + [rec])[..|log|] == log;
  }

  lemma {:induction false} WorkersJoin(workers: set<Dir>, log: seq<Record>, more: seq<Record>, failing: set<Dir>)
    ensures WorkersOver(workers, log + more, failing) == WorkersOver(WorkersOver(workers, log, failing), more, failing)
    decreases |more|
  {
    if more == [] {
      assert log + more == log;
    } else {
      assert (log + more)[..|log + more| - 1] == log + more[..|more| - 1];
      WorkersJoin(workers, log, more[..|more| - 1], failing);
    }
  }

  /** Each call ends as it can. */
  ghost predicate FeasibleLog(p: Progress, log: seq<Record>, failing: set<Dir>)
    decreases |log|
  {
    log != [] ==>
      var first, rec := log[..|log| - 1], log[|log| - 1];
      FeasibleLog(p, first, failing) && Feasible(Over(p, first, failing).held, rec.call, rec.outcome)
  }

  function Removals(dirs: seq<Dir>): seq<Call> {
    seq(|dirs|, i requires 0 <= i < |dirs| => RemoveRoot(dirs[i]))
  }

  function Additions(dirs: seq<Dir>): seq<Call> {
    seq(|dirs|, i requires 0 <= i < |dirs| => AddRoot(dirs[i]))
  }

  /** The directories that have no worker yet. */
  function Missing(dirs: seq<Dir>, workers: set<Dir>): seq<Dir> {
    if dirs == [] then []
    else
      var d := dirs[|dirs| - 1];
      Missing(dirs[..|dirs| - 1], workers) + if d in workers then [] else [d]
  }

  predicate AllDone(log: seq<Record>) {
    forall k :: 0 <= k < |log| ==> log[k].outcome == Done
  }

  /** The log has the planned calls, up to the first that fails. */
  predicate Carried(plan: seq<Call>, log: seq<Record>) {
    && |log| <= |plan|
    && (forall k :: 0 <= k < |log| ==> log[k].call == plan[k])
    && (forall k :: 0 <= k < |log| - 1 ==> log[k].outcome == Done)
    && (AllDone(log) ==> |log| == |plan|)
  }

  /** First the workers outside the configuration are dropped, then the missing ones started, each in path order. */
  ghost predicate Follows(workers: set<Dir>, config: set<Dir>, log: seq<Record>) {
    exists trash, dirs :: Visits(trash, workers - config) && Visits(dirs, config) &&
                          Carried(Removals(trash) + Additions(Missing(dirs, workers)), log)
  }

  lemma {:induction false} MissingElements(dirs: seq<Dir>, workers: set<Dir>)
    ensures forall d :: d in Missing(dirs, workers) <==> d in dirs && d !in workers
    decreases |dirs|
  {
    if dirs != [] {
      MissingElements(dirs[..|dirs| - 1], workers);
      assert dirs == dirs[..|dirs| - 1] + [dirs[|dirs| - 1]];
    }
  }

  lemma {:induction false} MissingPrefix(dirs: seq<Dir>, workers: set<Dir>, i: nat)
    requires i <= |dirs|
    ensures Missing(dirs[..i], workers) <= Missing(dirs, workers)
    decreases |dirs|
  {
    if i < |dirs| {
      var first := dirs[..|dirs| - 1];
      assert first[..i] == dirs[..i];
      MissingPrefix(first, workers, i);
    } else {
      assert dirs[..i] == dirs;
    }
  }

  lemma {:induction false} MissingSame(dirs: seq<Dir>, config: set<Dir>, workers: set<Dir>)
    requires forall d :: d in dirs ==> d in config
    ensures Missing(dirs, workers * config) == Missing(dirs, workers)
    decreases |dirs|
  {
    if dirs != [] {
      MissingSame(dirs[..|dirs| - 1], config, workers);
    }
  }

  lemma {:induction false} CarriedJoin(plan: seq<Call>, log: seq<Record>, plan': seq<Call>, log': seq<Record>)
    requires Carried(plan, log) && (if AllDone(log) then Carried(plan', log') else log' == [])
    ensures Carried(plan + plan', log + log')
  {
    if !AllDone(log) {
      assert log + log' == log;
    } else if AllDone(log + log') {
      forall k | 0 <= k < |log'| ensures log'[k].outcome == Done {
        assert (log + log')[|log| + k] == log'[k];
      }
    }
  }

  /** A log on its way through the plan. */
  predicate Going(plan: seq<Call>, log: seq<Record>) {
    && |log| <= |plan|
    && (forall k :: 0 <= k < |log| ==> log[k].call == plan[k])
    && (forall k :: 0 <= k < |log| - 1 ==> log[k].outcome == Done)
  }

  lemma {:induction false} GoingNext(plan: seq<Call>, log: seq<Record>, rec: Record)
    requires Going(plan, log) && AllDone(log) && |log| < |plan| && rec.call == plan[|log|]
    ensures Going(plan, log + [rec]) && (AllDone(log + [rec]) <==> rec.outcome == Done)
  {
    if AllDone(log + [rec]) {
      assert (log + [rec])[|log|] == rec;
    }
  }

  lemma {:induction false} GoingOn(plan: seq<Call>, longer: seq<Call>, log: seq<Record>, rec: Record)
    requires Going(plan, log) && |log| == |plan| && AllDone(log)
    requires |longer| == |plan| + 1 && plan <= longer && rec.call == longer[|plan|]
    ensures Going(longer, log + [rec]) && (AllDone(log + [rec]) <==> rec.outcome == Done)
  {
    if AllDone(log + [rec]) {
      assert (log + [rec])[|log|] == rec;
    }
  }

  // ---- sets of calls that were all done ----

  function Dirs(s: seq<Dir>): set<Dir> {
    set d | d in s
  }

  ghost predicate RemovesAll(log: seq<Record>, dirs: seq<Dir>) {
    |log| == |dirs| && AllDone(log) && forall k :: 0 <= k < |log| ==> log[k].call == RemoveRoot(dirs[k])
  }

  ghost predicate AddsAll(log: seq<Record>, dirs: seq<Dir>) {
    |log| == |dirs| && AllDone(log) && forall k :: 0 <= k < |log| ==> log[k].call == AddRoot(dirs[k])
  }

  lemma LastDir(s: seq<Dir>)
    requires s != []
    ensures Dirs(s) == Dirs(s[..|s| - 1]) + {s[|s| - 1]}
  {
    assert s == s[..|s| - 1] + [s[|s| - 1]];
  }

  function WithRemoved(p: Progress, dirs: set<Dir>): Progress {
    Progress(p.workers - dirs, Held(p.held.known - dirs, p.held.table - dirs * p.held.known))
  }

  function WithAdded(p: Progress, dirs: set<Dir>, failing: set<Dir>): Progress {
    Progress(p.workers + (dirs - failing), Held(p.held.known + dirs, p.held.table + (dirs - p.held.known)))
  }

  lemma RemovedOneMore(p: Progress, dirs: set<Dir>, d: Dir, failing: set<Dir>)
    ensures Stepped(WithRemoved(p, dirs), RemoveRoot(d), Done, failing) == WithRemoved(p, dirs + {d})
  {
    assert p.workers - dirs - {d} == p.workers - (dirs + {d});
    var before, after := WithRemoved(p, dirs).held, WithRemoved(p, dirs + {d}).held;
    if d in before.known {
      assert before.known - {d} == after.known && before.table - {d} == after.table;
    } else {
      assert before.known == after.known && (dirs + {d}) * p.held.known == dirs * p.held.known;
    }
  }

  lemma AddedOneMore(p: Progress, dirs: set<Dir>, d: Dir, failing: set<Dir>)
    ensures Stepped(WithAdded(p, dirs, failing), AddRoot(d), Done, failing) == WithAdded(p, dirs + {d}, failing)
  {
    var w := p.workers + (dirs - failing);
    assert (if d in failing then w else w + {d}) == p.workers + (dirs + {d} - failing);
    var before, after := WithAdded(p, dirs, failing).held, WithAdded(p, dirs + {d}, failing).held;
    if d in before.known {
      assert before.known == after.known && before.table == after.table;
    } else {
      assert before.known + {d} == after.known && before.table + {d} == after.table;
    }
  }

  lemma NoneChanged(p: Progress, failing: set<Dir>)
    ensures WithRemoved(p, {}) == p && WithAdded(p, {}, failing) == p
  {
    assert p.workers - {} == p.workers && p.held.known - {} == p.held.known && {} * p.held.known == {};
    assert p.held.table - {} == p.held.table && {} - p.held.known == {} && {} - failing == {};
  }

  lemma {:induction false} AfterRemovals(p: Progress, log: seq<Record>, dirs: seq<Dir>, failing: set<Dir>)
    requires RemovesAll(log, dirs)
    ensures Over(p, log, failing) == WithRemoved(p, Dirs(dirs))
    decreases |log|
  {
    if log == [] {
      assert Dirs(dirs) == {};
      NoneChanged(p, failing);
    } else {
      AfterRemovals(p, log[..|log| - 1], dirs[..|dirs| - 1], failing);
      LastDir(dirs);
      RemovedOneMore(p, Dirs(dirs[..|dirs| - 1]), dirs[|dirs| - 1], failing);
    }
  }

  lemma {:induction false} AfterAdditions(p: Progress, log: seq<Record>, dirs: seq<Dir>, failing: set<Dir>)
    requires AddsAll(log, dirs)
    ensures Over(p, log, failing) == WithAdded(p, Dirs(dirs), failing)
    decreases |log|
  {
    if log == [] {
      assert Dirs(dirs) == {};
      NoneChanged(p, failing);
    } else {
      AfterAdditions(p, log[..|log| - 1], dirs[..|dirs| - 1], failing);
      LastDir(dirs);
      AddedOneMore(p, Dirs(dirs[..|dirs| - 1]), dirs[|dirs| - 1], failing);
    }
  }

  lemma {:induction false} OverJoin(p: Progress, log: seq<Record>, more: seq<Record>, failing: set<Dir>)
    ensures Over(p, log + more, failing) == Over(Over(p, log, failing), more, failing)
    decreases |more|
  {
    if more == [] {
      assert log + more == log;
    } else {
      assert (log + more)[..|log + more| - 1] == log + more[..|more| - 1];
      OverJoin(p, log, more[..|more| - 1], failing);
    }
  }

  // ---- a pass of one observer ----

  /** Where a pass stands that has dropped and started some, all calls done. */
  function Passed(p: Progress, dropped: set<Dir>, started: set<Dir>, failing: set<Dir>): Progress {
    Progress(p.workers - dropped + (started - failing),
             Held(p.held.known - dropped + started, p.held.table - dropped * p.held.known + (started - p.held.known)))
  }

  lemma PassedIs(p: Progress, dropped: set<Dir>, started: set<Dir>, failing: set<Dir>)
    requires dropped !! started
    ensures WithAdded(WithRemoved(p, dropped), started, failing) == Passed(p, dropped, started, failing)
  {
    assert started - (p.held.known - dropped) == started - p.held.known;
  }

  lemma {:induction false} PlannedCalls(trash: seq<Dir>, added: seq<Dir>, log: seq<Record>, k: nat)
    requires Carried(Removals(trash) + Additions(added), log) && k <= |log| && AllDone(log[..k])
    ensures k <= |trash| ==> RemovesAll(log[..k], trash[..k])
    ensures k > |trash| ==> RemovesAll(log[..|trash|], trash) && AddsAll(log[|trash|..k], added[..k - |trash|])
  {
    var plan := Removals(trash) + Additions(added);
    forall j | 0 <= j < k ensures log[j].outcome == Done && log[j].call == plan[j] {
      assert log[..k][j] == log[j];
    }
  }

  /** What a pass has dropped and started after k calls. */
  function DroppedAt(trash: seq<Dir>, k: nat): set<Dir> {
    Dirs(if k <= |trash| then trash[..k] else trash)
  }

  function StartedAt(trash: seq<Dir>, added: seq<Dir>, k: nat): set<Dir>
    requires k <= |trash| + |added|
  {
    Dirs(if k <= |trash| then [] else added[..k - |trash|])
  }

  lemma {:induction false} PassAt(p: Progress, config: set<Dir>, trash: seq<Dir>, added: seq<Dir>, log: seq<Record>,
                                  k: nat, failing: set<Dir>)
    requires Carried(Removals(trash) + Additions(added), log) && k <= |log| && AllDone(log[..k])
    requires Dirs(trash) == p.workers - config && Dirs(added) == config - p.workers
    ensures DroppedAt(trash, k) <= p.workers - config && StartedAt(trash, added, k) <= config - p.workers
    ensures k > |trash| ==> DroppedAt(trash, k) == p.workers - config
    ensures Over(p, log[..k], failing) == Passed(p, DroppedAt(trash, k), StartedAt(trash, added, k), failing)
  {
    PlannedCalls(trash, added, log, k);
    if k <= |trash| {
      AfterRemovals(p, log[..k], trash[..k], failing);
      NoneStarted(p, trash[..k], failing);
    } else {
      var j := k - |trash|;
      assert log[..k] == log[..|trash|] + log[|trash|..k];
      OverJoin(p, log[..|trash|], log[|trash|..k], failing);
      AfterRemovals(p, log[..|trash|], trash, failing);
      AfterAdditions(WithRemoved(p, Dirs(trash)), log[|trash|..k], added[..j], failing);
      PassedIs(p, Dirs(trash), Dirs(added[..j]), failing);
    }
  }

  lemma NoneStarted(p: Progress, dropped: seq<Dir>, failing: set<Dir>)
    ensures Dirs([]) == {} && WithRemoved(p, Dirs(dropped)) == Passed(p, Dirs(dropped), {}, failing)
  {
    NoneChanged(WithRemoved(p, Dirs(dropped)), failing);
    PassedIs(p, Dirs(dropped), {}, failing);
  }

  lemma VisitsDirs(s: seq<Dir>, dirs: set<Dir>)
    requires Visits(s, dirs)
    ensures Dirs(s) == dirs
  {
  }

  lemma {:induction false} FollowsPlan(workers: set<Dir>, config: set<Dir>, log: seq<Record>)
    returns (trash: seq<Dir>, added: seq<Dir>)
    requires Follows(workers, config, log)
    ensures Carried(Removals(trash) + Additions(added), log)
    ensures Dirs(trash) == workers - config && Dirs(added) == config - workers
  {
    var t, dirs :| Visits(t, workers - config) && Visits(dirs, config) &&
                   Carried(Removals(t) + Additions(Missing(dirs, workers)), log);
    trash, added := t, Missing(dirs, workers);
    MissingElements(dirs, workers);
    VisitsDirs(trash, workers - config);
    VisitsDirs(dirs, config);
    forall d ensures d in Dirs(added) <==> d in config - workers {
      assert d in config <==> d in Dirs(dirs);
    }
  }

  /** A pass without failing calls. */
  lemma {:induction false} CompletePass(p: Progress, config: set<Dir>, log: seq<Record>, failing: set<Dir>)
    requires Follows(p.workers, config, log) && AllDone(log)
    ensures Over(p, log, failing) == Passed(p, p.workers - config, config - p.workers, failing)
    ensures Over(p, log, failing).workers == WorkersAfter(p.workers, config, failing)
  {
    var trash, added := FollowsPlan(p.workers, config, log);
    var n := |log|;
    assert log[..n] == log;
    PassAt(p, config, trash, added, log, n, failing);
    assert trash[..|trash|] == trash && added[..|added|] == added;
    assert Dirs([]) == {};
    if n == |trash| {
      assert added == [];
    }
    assert p.workers - (p.workers - config) == p.workers * config;
  }

  /** On the way the roots are among those there were, or among those there will be. */
  ghost predicate Between(h: Held, p: Progress, config: set<Dir>) {
    var trash, added := p.workers - config, config - p.workers;
    && (h.known <= p.held.known || h.known <= p.held.known - trash + added)
    && (h.table <= p.held.table || h.table <= p.held.table - trash * p.held.known + added)
  }

  lemma PassedBetween(p: Progress, config: set<Dir>, dropped: set<Dir>, started: set<Dir>, failing: set<Dir>)
    requires dropped <= p.workers - config && started <= config - p.workers
    requires started != {} ==> dropped == p.workers - config
    ensures Between(Passed(p, dropped, started, failing).held, p, config)
  {
    var h := Passed(p, dropped, started, failing).held;
    if started == {} {
      assert h.known <= p.held.known && h.table <= p.held.table;
    } else {
      assert h.known <= p.held.known - dropped + (config - p.workers);
      assert h.table <= p.held.table - dropped * p.held.known + (config - p.workers);
    }
  }

  lemma {:induction false} PassBetween(p: Progress, config: set<Dir>, log: seq<Record>, k: nat, failing: set<Dir>)
    requires Follows(p.workers, config, log) && k <= |log|
    ensures Between(Over(p, log[..k], failing).held, p, config)
  {
    var trash, added := FollowsPlan(p.workers, config, log);
    if AllDone(log[..k]) {
      DoneBetween(p, config, trash, added, log, k, failing);
    } else {
      assert k == |log|;
      assert log[..k] == log;
      assert AllDone(log[..k - 1]);
      DoneBetween(p, config, trash, added, log, k - 1, failing);
      FailedBetween(p, config, trash, added, log, failing);
    }
  }

  lemma {:induction false} DoneBetween(p: Progress, config: set<Dir>, trash: seq<Dir>, added: seq<Dir>,
                                       log: seq<Record>, k: nat, failing: set<Dir>)
    requires Carried(Removals(trash) + Additions(added), log) && k <= |log| && AllDone(log[..k])
    requires Dirs(trash) == p.workers - config && Dirs(added) == config - p.workers
    ensures Between(Over(p, log[..k], failing).held, p, config)
    ensures k >= |trash| ==> p.held.known - (p.workers - config) <= Over(p, log[..k], failing).held.known
                             && Over(p, log[..k], failing).held.known
                                <= p.held.known - (p.workers - config) + (config - p.workers)
    ensures k >= |trash| ==> Over(p, log[..k], failing).held.table
                             <= p.held.table - (p.workers - config) * p.held.known + (config - p.workers)
  {
    PassAt(p, config, trash, added, log, k, failing);
    assert Dirs([]) == {};
    assert k == |trash| ==> trash[..k] == trash;
    PassedBetween(p, config, DroppedAt(trash, k), StartedAt(trash, added, k), failing);
  }

  /** A call that fails takes no root away from the table and none into it. */
  lemma {:induction false} FailedBetween(p: Progress, config: set<Dir>, trash: seq<Dir>, added: seq<Dir>,
                                         log: seq<Record>, failing: set<Dir>)
    requires Carried(Removals(trash) + Additions(added), log) && !AllDone(log)
    requires Dirs(trash) == p.workers - config && Dirs(added) == config - p.workers
    ensures Between(Over(p, log, failing).held, p, config)
  {
    var k := |log| - 1;
    var rec := log[k];
    assert AllDone(log[..k]);
    assert rec.outcome != Done;
    DoneBetween(p, config, trash, added, log, k, failing);
    if k < |trash| {
      assert rec.call == RemoveRoot(trash[k]);
    } else {
      assert rec.call == AddRoot(added[k - |trash|]);
      assert added[k - |trash|] in Dirs(added);
    }
  }

  /** What is left after the trash has been dropped. */
  lemma {:induction false} KeptWorkers(workers: set<Dir>, config: set<Dir>, trash: seq<Dir>, log: seq<Record>,
                                       failing: set<Dir>)
    requires Visits(trash, workers - config) && Carried(Removals(trash), log) && AllDone(log)
    ensures WorkersOver(workers, log, failing) == workers * config
  {
    var p := Progress(workers, Held({}, {}));
    AfterRemovals(p, log, trash, failing);
    OverWorkers(p, log, failing);
    VisitsDirs(trash, workers - config);
    assert workers - (workers - config) == workers * config;
  }

  /** The call that breaks off a pass. */
  lemma {:induction false} FailedCall(workers: set<Dir>, config: set<Dir>, log: seq<Record>)
    requires Follows(workers, config, log) && !AllDone(log)
    ensures var rec := log[|log| - 1];
            && rec.outcome != Done
            && (rec.call.AddRoot? || rec.call.RemoveRoot?)
            && (rec.call.AddRoot? ==> rec.call.dir in config - workers)
            && (rec.call.RemoveRoot? ==> rec.call.dir in workers - config)
  {
    var trash, added := FollowsPlan(workers, config, log);
    var k := |log| - 1;
    if k < |trash| {
      assert log[k].call == RemoveRoot(trash[k]) && trash[k] in Dirs(trash);
    } else {
      assert log[k].call == AddRoot(added[k - |trash|]) && added[k - |trash|] in Dirs(added);
    }
  }

  /** The calls on the database do to its roots what the pass says. */
  lemma {:induction false} OverHeld(like: (string, string) -> bool, s: Snapshot, log: seq<Record>, s': Snapshot,
                                    workers: set<Dir>, failing: set<Dir>)
    requires Chain(like, s, log, s') && Numbering(s) && NoCreate(log)
    ensures Numbering(s') && FeasibleLog(Progress(workers, HeldBy(s)), log, failing)
    ensures Over(Progress(workers, HeldBy(s)), log, failing).held == HeldBy(s')
    decreases |log|
  {
    if log != [] {
      var rec := log[|log| - 1];
      OverHeld(like, s, log[..|log| - 1], rec.before, workers, failing);
      HeldStep(like, rec);
    }
  }

  // ---- both observers ----

  /** The workers of the observer that is told first, those of the other, and the roots. */
  datatype Team = Team(first: set<Dir>, second: set<Dir>, held: Held)

  /** The second one is told when the first is through. */
  ghost predicate Reconciles(t: Team, t': Team, config: set<Dir>, fails: set<Dir>, fails': set<Dir>, log: seq<Record>,
                             log': seq<Record>) {
    var p := Progress(t.first, t.held);
    var q := Over(p, log, fails);
    var p' := Progress(t.second, q.held);
    var q' := Over(p', log', fails');
    && Follows(t.first, config, log) && FeasibleLog(p, log, fails)
    && (if AllDone(log) then Follows(t.second, config, log') && FeasibleLog(p', log', fails') else log' == [])
    && t' == Team(q.workers, q'.workers, q'.held)
  }

  predicate Completed(log: seq<Record>, log': seq<Record>) {
    AllDone(log) && AllDone(log')
  }

  /** In every state, whatever has failed: a root that the map has lost, one of the observers has lost too. */
  predicate Shared(t: Team) {
    t.first * t.second <= t.held.known
  }

  lemma {:induction false} SharedOver(p: Progress, other: set<Dir>, log: seq<Record>, failing: set<Dir>)
    requires p.workers * other <= p.held.known
    ensures Over(p, log, failing).workers * other <= Over(p, log, failing).held.known
    decreases |log|
  {
    if log != [] {
      SharedOver(p, other, log[..|log| - 1], failing);
    }
  }

  lemma {:induction false} SharedKept(t: Team, t': Team, config: set<Dir>, fails: set<Dir>, fails': set<Dir>,
                                      log: seq<Record>, log': seq<Record>)
    requires Reconciles(t, t', config, fails, fails', log, log') && Shared(t)
    ensures Shared(t')
  {
    SharedOver(Progress(t.first, t.held), t.second, log, fails);
    SharedOver(Progress(t.second, Over(Progress(t.first, t.held), log, fails).held), t'.first, log', fails');
  }

  /** Two complete passes, as sets. */
  lemma TwoPasses<T>(k: set<T>, b: set<T>, w: set<T>, w': set<T>, c: set<T>, d: T)
    requires w * w' <= k
    ensures var k1, b1 := k - (w - c) + (c - w), b - (w - c) * k + (c - w - k);
            var k2, b2 := k1 - (w' - c) + (c - w'), b1 - (w' - c) * k1 + (c - w' - k1);
            && (d in k2 <==> d in c || (d in k && d !in w && d !in w'))
            && (d in b2 <==> if d in c then d in b || d !in k else d in b && !(d in k && (d in w || d in w')))
  {
  }

  lemma {:induction false} CompletedHeld(t: Team, t': Team, config: set<Dir>, fails: set<Dir>, fails': set<Dir>,
                                         log: seq<Record>, log': seq<Record>)
    requires Reconciles(t, t', config, fails, fails', log, log') && Shared(t) && Completed(log, log')
    ensures t'.first == WorkersAfter(t.first, config, fails) && t'.second == WorkersAfter(t.second, config, fails')
    ensures forall d :: d in t'.held.known <==> d in config || (d in t.held.known && d !in t.first && d !in t.second)
    ensures forall d :: d in t'.held.table <==>
      if d in config then d in t.held.table || d !in t.held.known
      else d in t.held.table && !(d in t.held.known && (d in t.first || d in t.second))
  {
    var p := Progress(t.first, t.held);
    CompletePass(p, config, log, fails);
    CompletePass(Progress(t.second, Over(p, log, fails).held), config, log', fails');
    forall d
      ensures d in t'.held.known <==> d in config || (d in t.held.known && d !in t.first && d !in t.second)
      ensures d in t'.held.table <==>
        if d in config then d in t.held.table || d !in t.held.known
        else d in t.held.table && !(d in t.held.known && (d in t.first || d in t.second))
    {
      TwoPasses(t.held.known, t.held.table, t.first, t.second, config, d);
    }
  }

  predicate NothingBrokenOff(log: seq<Record>) {
    forall k :: 0 <= k < |log| ==> log[k].outcome in {Done, Constraint}
  }

  /** Calls that SQLite does not break off shut no root out and let none in. */
  lemma {:induction false} SameShutOut(p: Progress, log: seq<Record>, failing: set<Dir>)
    requires FeasibleLog(p, log, failing) && NothingBrokenOff(log)
    requires forall k :: 0 <= k < |log| ==> log[k].call.AddRoot? || log[k].call.RemoveRoot?
    ensures ShutOut(Over(p, log, failing).held) == ShutOut(p.held)
    decreases |log|
  {
    if log != [] {
      SameShutOut(p, log[..|log| - 1], failing);
      var rec := log[|log| - 1];
      var h := Over(p, log[..|log| - 1], failing).held;
      forall d ensures d in ShutOut(HeldAfter(h, rec.call, rec.outcome)) <==> d in ShutOut(h) {
        ShutOutExact(h, rec.call, rec.outcome, d);
      }
    }
  }

  lemma {:induction false} PlannedRootCalls(workers: set<Dir>, config: set<Dir>, log: seq<Record>)
    requires Follows(workers, config, log)
    ensures forall k :: 0 <= k < |log| ==> log[k].call.AddRoot? || log[k].call.RemoveRoot?
  {
    var trash, added := FollowsPlan(workers, config, log);
    var plan := Removals(trash) + Additions(added);
    forall k | 0 <= k < |log| ensures log[k].call.AddRoot? || log[k].call.RemoveRoot? {
      assert log[k].call == plan[k];
    }
  }

  lemma {:induction false} PassSameShutOut(p: Progress, config: set<Dir>, log: seq<Record>, failing: set<Dir>)
    requires Follows(p.workers, config, log) && FeasibleLog(p, log, failing) && NothingBrokenOff(log)
    ensures ShutOut(Over(p, log, failing).held) == ShutOut(p.held)
    ensures !AllDone(log) ==> config * ShutOut(p.held) != {}
    ensures !AllDone(log) ==> !(config <= Over(p, log, failing).held.known)
  {
    PlannedRootCalls(p.workers, config, log);
    SameShutOut(p, log, failing);
    if !AllDone(log) {
      FailedCall(p.workers, config, log);
      var first, rec := log[..|log| - 1], log[|log| - 1];
      assert rec.outcome == Constraint;
      assert Feasible(Over(p, first, failing).held, rec.call, rec.outcome);
      assert rec.call.dir in config && rec.call.dir in ShutOut(Over(p, log, failing).held);
      assert rec.call.dir in config * ShutOut(p.held);
    }
  }

  /** What two passes without failing calls leave: the order of the observers is no matter, and no root is shut out
      or let in by them. */
  lemma {:induction false} CompletedExact(t: Team, t': Team, config: set<Dir>, fails: set<Dir>, fails': set<Dir>,
                                          log: seq<Record>, log': seq<Record>)
    requires Reconciles(t, t', config, fails, fails', log, log') && Shared(t) && Completed(log, log')
    ensures t'.first == WorkersAfter(t.first, config, fails) && t'.second == WorkersAfter(t.second, config, fails')
    ensures t'.held.known == config + (t.held.known - t.first - t.second)
    ensures ShutOut(t'.held) == ShutOut(t.held) && config !! ShutOut(t.held)
    ensures t'.held.known - t'.held.table == t.held.known - t.held.table - (t.first + t.second - config)
  {
    CompletedHeld(t, t', config, fails, fails', log, log');
    var p := Progress(t.first, t.held);
    PassSameShutOut(p, config, log, fails);
    PassSameShutOut(Progress(t.second, Over(p, log, fails).held), config, log', fails');
    forall d ensures d in ShutOut(t.held) ==> d !in config {
      assert d in ShutOut(t.held) <==> d in ShutOut(t'.held);
    }
  }

  /** Workers, configuration and roots agree, in memory and in the table. */
  predicate Agrees(t: Team, config: set<Dir>) {
    t.first <= config && t.second <= config && config <= t.held.known && config <= t.held.table
  }

  /** Unless SQLite breaks off a call of it, a new configuration makes all agree again, whatever went wrong before,
      if and only if map and table agree about each of its roots. */
  lemma {:induction false} RestoresExact(t: Team, t': Team, config: set<Dir>, fails: set<Dir>, fails': set<Dir>,
                                         log: seq<Record>, log': seq<Record>)
    requires Reconciles(t, t', config, fails, fails', log, log') && Shared(t) && NothingBrokenOff(log)
    requires NothingBrokenOff(log')
    ensures Agrees(t', config) <==> forall d :: d in config ==> (d in t.held.known <==> d in t.held.table)
    ensures Completed(log, log') <==> config !! ShutOut(t.held)
  {
    var p := Progress(t.first, t.held);
    PassSameShutOut(p, config, log, fails);
    if AllDone(log) {
      PassSameShutOut(Progress(t.second, Over(p, log, fails).held), config, log', fails');
    }
    if Completed(log, log') {
      CompletedExact(t, t', config, fails, fails', log, log');
      CompletedHeld(t, t', config, fails, fails', log, log');
    } else {
      assert config * ShutOut(t.held) != {};
      var d :| d in config * ShutOut(t.held);
      assert d in t.held.table && d !in t.held.known;
    }
  }

  // ---- from agreement ----

  /** Calls about roots that are already as they are to be. */
  ghost predicate Settled(held: Held, log: seq<Record>) {
    forall k :: 0 <= k < |log| ==>
      match log[k].call
      case AddRoot(d) => d in held.known
      case RemoveRoot(d) => d !in held.known
      case _ => false
  }

  lemma {:induction false} SettledPass(p: Progress, log: seq<Record>, failing: set<Dir>)
    requires FeasibleLog(p, log, failing) && Settled(p.held, log)
    ensures AllDone(log) && Over(p, log, failing).held == p.held
    decreases |log|
  {
    if log != [] {
      SettledPass(p, log[..|log| - 1], failing);
      var rec := log[|log| - 1];
      assert Feasible(p.held, rec.call, rec.outcome) && rec.outcome == Done;
      forall k | 0 <= k < |log| ensures log[k].outcome == Done {
        assert k < |log| - 1 ==> log[..|log| - 1][k] == log[k];
      }
    }
  }

  lemma {:induction false} FeasiblePrefix(p: Progress, log: seq<Record>, failing: set<Dir>, k: nat)
    requires FeasibleLog(p, log, failing) && k <= |log|
    ensures FeasibleLog(p, log[..k], failing)
    decreases |log|
  {
    if k < |log| {
      FeasiblePrefix(p, log[..|log| - 1], failing, k);
      assert log[..|log| - 1][..k] == log[..k];
    } else {
      assert log[..k] == log;
    }
  }

  /** A pass over roots that are as they are to be fails in no call and changes no root. */
  lemma {:induction false} NothingToDo(p: Progress, config: set<Dir>, log: seq<Record>, failing: set<Dir>, k: nat)
    requires Follows(p.workers, config, log) && FeasibleLog(p, log, failing) && k <= |log|
    requires p.workers - config !! p.held.known && config - p.workers <= p.held.known
    ensures AllDone(log) && Over(p, log[..k], failing).held == p.held
  {
    var trash, added := FollowsPlan(p.workers, config, log);
    var plan := Removals(trash) + Additions(added);
    forall j | 0 <= j < |log|
      ensures log[j].call.AddRoot? || log[j].call.RemoveRoot?
      ensures log[j].call.dir in p.held.known <==> log[j].call.AddRoot?
    {
      assert log[j].call == plan[j];
      if j < |trash| {
        assert trash[j] in Dirs(trash);
      } else {
        assert added[j - |trash|] in Dirs(added);
      }
    }
    SettledPass(p, log, failing);
    FeasiblePrefix(p, log, failing, k);
    assert Settled(p.held, log[..k]);
    SettledPass(p, log[..k], failing);
  }

  /** Both observers, memory and table have the same roots. */
  predicate Same(t: Team) {
    t.first == t.second == t.held.known == t.held.table
  }

  /** From there the first pass leaves exactly the configured roots, and the second finds nothing to do. */
  lemma {:induction false} FirstPassSettles(t: Team, t': Team, config: set<Dir>, fails: set<Dir>, fails': set<Dir>,
                                            log: seq<Record>, log': seq<Record>, k: nat)
    requires Reconciles(t, t', config, fails, fails', log, log') && Same(t) && AllDone(log) && k <= |log'|
    ensures var q := Over(Progress(t.first, t.held), log, fails);
            && q.held == Held(config, config) && Completed(log, log') && t'.held == Held(config, config)
            && Over(Progress(t.second, q.held), log'[..k], fails').held == Held(config, config)
  {
    var p := Progress(t.first, t.held);
    CompletePass(p, config, log, fails);
    var held := Over(p, log, fails).held;
    assert held.known == config && held.table == config;
    NothingToDo(Progress(t.second, held), config, log', fails', k);
    NothingToDo(Progress(t.second, held), config, log', fails', |log'|);
    assert log'[..|log'|] == log';
  }

  /** Then a change leaves agreement if and only if all its calls are done. */
  lemma {:induction false} AgreesExact(t: Team, t': Team, config: set<Dir>, fails: set<Dir>, fails': set<Dir>,
                                       log: seq<Record>, log': seq<Record>)
    requires Reconciles(t, t', config, fails, fails', log, log') && Same(t)
    ensures Agrees(t', config) <==> Completed(log, log')
    ensures Completed(log, log') <==> AllDone(log)
  {
    if AllDone(log) {
      FirstPassSettles(t, t', config, fails, fails', log, log', 0);
      CompletedExact(t, t', config, fails, fails', log, log');
    } else {
      FailedCall(t.first, config, log);
      var rec := log[|log| - 1];
      assert Feasible(Over(Progress(t.first, t.held), log[..|log| - 1], fails).held, rec.call, rec.outcome);
      assert rec.call.RemoveRoot? ==> rec.call.dir in t'.second - config;
    }
  }

  // ---- roots above other roots ----

  /** The roots the first observer does not work on, which its pass leaves, are neither above nor below a new one. */
  ghost predicate Clear(t: Team, config: set<Dir>) {
    forall c, d :: c in config && d in t.held.known - t.first ==> !IsAncestor(c, d) && !IsAncestor(d, c)
  }

  lemma UnionUnnested(a: set<Dir>, b: set<Dir>)
    requires Unnested(a) && Unnested(b)
    ensures Unnested(a + b) <==> forall c, d :: c in a && d in b ==> !IsAncestor(c, d) && !IsAncestor(d, c)
  {
  }

  /** What one pass leaves of the roots when map and table agree. */
  lemma {:induction false} FirstPassLeaves(p: Progress, config: set<Dir>, log: seq<Record>, failing: set<Dir>)
    requires Follows(p.workers, config, log) && AllDone(log)
    requires p.held.known == p.held.table && config * p.workers <= p.held.known
    ensures var h := Over(p, log, failing).held;
            h.known == h.table == config + (p.held.known - p.workers)
  {
    CompletePass(p, config, log, failing);
    LeavesSets(p.held.known, p.workers, config);
  }

  lemma LeavesSets(known: set<Dir>, w: set<Dir>, c: set<Dir>)
    requires c * w <= known
    ensures known - (w - c) + (c - w) == c + (known - w)
    ensures known - (w - c) * known + (c - w - known) == c + (known - w)
  {
  }

  /** On the way all roots are among those before, or among those the first pass leaves. */
  lemma {:induction false} WithinPass(p: Progress, config: set<Dir>, log: seq<Record>, k: nat, failing: set<Dir>)
    requires Follows(p.workers, config, log) && k <= |log|
    requires p.held.known == p.held.table && config * p.workers <= p.held.known
    ensures var h, room := Over(p, log[..k], failing).held, config + (p.held.known - p.workers);
            && (h.known <= p.held.known || h.known <= room)
            && (h.table <= p.held.known || h.table <= room)
  {
    PassBetween(p, config, log, k, failing);
  }

  /** When roots are un-nested and map and table agree, and the new roots are clear of those the first observer does not
      work on, no root is ever above another, in memory or in the table, not even between two calls, and whatever
      fails. */
  lemma {:induction false} NeverNested(t: Team, t': Team, config: set<Dir>, fails: set<Dir>, fails': set<Dir>,
                                       log: seq<Record>, log': seq<Record>, k: nat, k': nat)
    requires Reconciles(t, t', config, fails, fails', log, log') && k <= |log| && k' <= |log'|
    requires t.held.known == t.held.table && config * t.first <= t.held.known
    requires Unnested(t.held.known) && Unnested(config) && Clear(t, config)
    ensures var p := Progress(t.first, t.held);
            var h := Over(p, log[..k], fails).held;
            var h' := Over(Progress(t.second, Over(p, log, fails).held), log'[..k'], fails').held;
            Unnested(h.known) && Unnested(h.table) && Unnested(h'.known) && Unnested(h'.table)
  {
    var p := Progress(t.first, t.held);
    var q := Progress(t.second, Over(p, log, fails).held);
    UnionUnnested(config, t.held.known - t.first);
    WithinPass(p, config, log, k, fails);
    WithinPass(p, config, log, |log|, fails);
    assert log[..|log|] == log;
    if AllDone(log) {
      FirstPassLeaves(p, config, log, fails);
      WithinPass(q, config, log', k', fails');
    } else {
      assert log'[..k'] == [];
    }
  }

  /** And if they are not clear, the first pass, when all its calls are done, leaves roots above others. */
  lemma {:induction false} NestsExact(t: Team, t': Team, config: set<Dir>, fails: set<Dir>, fails': set<Dir>,
                                      log: seq<Record>, log': seq<Record>)
    requires Reconciles(t, t', config, fails, fails', log, log') && AllDone(log)
    requires t.held.known == t.held.table && config * t.first <= t.held.known
    requires Unnested(t.held.known) && Unnested(config)
    ensures Unnested(Over(Progress(t.first, t.held), log, fails).held.known) <==> Clear(t, config)
  {
    FirstPassLeaves(Progress(t.first, t.held), config, log, fails);
    UnionUnnested(config, t.held.known - t.first);
  }
}
