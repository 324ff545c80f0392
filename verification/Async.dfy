/** core/vca/async: the pool that notifies while it still holds the lock, and runs a task at once if it has no
    threads. */
module Asyncs {
  import opened ThreadPools

  /** A push and its notification are one step, so that no other thread sees the one without the other. */
  datatype Call =
    | Enters(i: nat)
    | Spawns(i: nat, woken: nat)
    | Returns(i: nat)
    | Pushes(task: Task, woken: nat)
    | Shuts
    | NotifiesAll
    | Wakes(i: nat)

  /** The steps of the other pool that make up the step. */
  function Steps(c: Call): seq<Event> {
    match c
    case Enters(i) => [Enter(i)]
    case Spawns(i, j) => [Spawn(i), Notify(i, j)]
    case Returns(i) => [Finish(i)]
    case Pushes(t, j) => [Push(t), NotifyOutside(j)]
    case Shuts => [SetDone]
    case NotifiesAll => [NotifyAll]
    case Wakes(i) => [Spurious(i)]
  }

  predicate CanCall(p: Pool, c: Call) {
    match c
    case Enters(i) => Enabled(p, Enter(i))
    case Spawns(i, j) => Enabled(p, Spawn(i)) && MayWake(p.workers, j)
    case Returns(i) => Enabled(p, Finish(i))
    case Pushes(t, j) => MayWake(p.workers, j)
    case Shuts => !p.done
    case NotifiesAll => p.notifyAll
    case Wakes(i) => Enabled(p, Spurious(i))
  }

  function Called(p: Pool, c: Call): Pool
    requires CanCall(p, c)
  {
    match c
    case Enters(i) => Entered(p, i)
    case Spawns(i, j) =>
      var w := p.workers[i];
      var t := w.task.spawns[w.next];
      p.(queue := p.queue + [t], pushed := p.pushed + [t], workers := Woken(p.workers[i := w.(next := w.next + 1)], j))
    case Returns(i) => After(p, Finish(i))
    case Pushes(t, j) =>
      p.(queue := p.queue + [t], pushed := p.pushed + [t], outside := p.outside + [t],
         late := if AllExited(p.workers) then p.late + [t] else p.late, workers := Woken(p.workers, j))
    case Shuts => After(p, SetDone)
    case NotifiesAll => After(p, NotifyAll)
    case Wakes(i) => After(p, Spurious(i))
  }

  ghost predicate IsAsyncRun(p: Pool, cs: seq<Call>, q: Pool)
    decreases |cs|
  {
    if cs == [] then q == p else CanCall(p, cs[0]) && IsAsyncRun(Called(p, cs[0]), cs[1..], q)
  }

  function AllSteps(cs: seq<Call>): seq<Event> {
    if cs == [] then [] else Steps(cs[0]) + AllSteps(cs[1..])
  }

  /** No notification of a push is ever outstanding. */
  predicate Prompt(p: Pool) {
    p.owed == 0 && forall i :: 0 <= i < |p.workers| && p.workers[i].Running? ==> !p.workers[i].owes
  }

  lemma TwoSteps(p: Pool, e: Event, f: Event)
    requires Enabled(p, e) && Enabled(After(p, e), f)
    ensures IsRun(p, [e, f], After(After(p, e), f))
  {
    assert [e, f][1..] == [f] && [f][1..] == [];
  }

  lemma SpawnsRefine(p: Pool, i: nat, j: nat)
    requires Prompt(p) && CanCall(p, Spawns(i, j))
    ensures IsRun(p, Steps(Spawns(i, j)), Called(p, Spawns(i, j))) && Prompt(Called(p, Spawns(i, j)))
  {
    var w := p.workers[i];
    var m := After(p, Spawn(i));
    assert NoSleeper(p.workers) ==> NoSleeper(m.workers);
    assert m.workers[i := m.workers[i].(owes := false)] == p.workers[i := w.(next := w.next + 1)];
    TwoSteps(p, Spawn(i), Notify(i, j));
  }

  lemma StepsRefine(p: Pool, c: Call)
    requires Prompt(p) && CanCall(p, c)
    ensures IsRun(p, Steps(c), Called(p, c)) && Prompt(Called(p, c))
  {
    match c
    case Spawns(i, j) => SpawnsRefine(p, i, j);
    case Pushes(t, j) => TwoSteps(p, Push(t), NotifyOutside(j));
    case _ => assert Steps(c)[1..] == [];
  }

  lemma {:induction false} RunsJoin(p: Pool, es: seq<Event>, m: Pool, fs: seq<Event>, q: Pool)
    requires IsRun(p, es, m) && IsRun(m, fs, q)
    ensures IsRun(p, es + fs, q)
    decreases |es|
  {
    if es == [] {
      assert es + fs == fs;
    } else {
      RunsJoin(After(p, es[0]), es[1..], m, fs, q);
      assert (es + fs)[1..] == es[1..] + fs;
    }
  }

  /** Every run of this pool is a run of the other one, and so has all that holds of those. */
  lemma {:induction false} RunRefines(p: Pool, cs: seq<Call>, q: Pool)
    requires Prompt(p) && IsAsyncRun(p, cs, q)
    ensures IsRun(p, AllSteps(cs), q) && Prompt(q)
    decreases |cs|
  {
    if cs != [] {
      StepsRefine(p, cs[0]);
      RunRefines(Called(p, cs[0]), cs[1..], q);
      RunsJoin(p, Steps(cs[0]), Called(p, cs[0]), AllSteps(cs[1..]), q);
    }
  }

  /** In every reachable state a task in the queue has an awake worker, until all of them have left. */
  lemma QueueIsAttended(n: nat, cs: seq<Call>, q: Pool)
    requires IsAsyncRun(Started(n), cs, q)
    ensures Valid(q) && (q.queue != [] ==> Awake(q.workers) || AllExited(q.workers))
  {
    StartedIsValid(n);
    RunRefines(Started(n), cs, q);
    RunsStayValid(Started(n), AllSteps(cs), q);
  }

  // ---- no threads ----

  /** Without threads a push runs the task there and then: the tasks in the order they return. */
  function Inline(t: Task): seq<Task>
    decreases t, |t.spawns| + 1
  {
    InlineFrom(t, 0) + [t]
  }

  function InlineFrom(t: Task, i: nat): seq<Task>
    requires i <= |t.spawns|
    decreases t, |t.spawns| - i
  {
    if i == |t.spawns| then [] else Inline(t.spawns[i]) + InlineFrom(t, i + 1)
  }

  function InlineAll(ts: seq<Task>): seq<Task> {
    if ts == [] then [] else InlineAll(ts[..|ts| - 1]) + Inline(ts[|ts| - 1])
  }

  /** The push of a pool without threads; `log` gets each task as it returns. */
  method PushInline(t: Task, log: seq<Task>) returns (r: seq<Task>)
    ensures r == log + Inline(t)
    decreases t
  {
    r := log;
    var i := 0;
    while i < |t.spawns|
      invariant 0 <= i <= |t.spawns| && log + InlineFrom(t, 0) == r + InlineFrom(t, i)
    {
      var before := r;
      r := PushInline(t.spawns[i], r);
      assert before + (Inline(t.spawns[i]) + InlineFrom(t, i + 1)) == r + InlineFrom(t, i + 1);
      i := i + 1;
    }
    assert r + [] == r;
    r := r + [t];
  }

  lemma {:induction false} InlineAllCons(ts: seq<Task>)
    requires ts != []
    ensures InlineAll(ts) == Inline(ts[0]) + InlineAll(ts[1..])
  {
    if |ts| == 1 {
      assert ts[..0] == [] && ts[1..] == [];
    } else {
      InlineAllCons(ts[..|ts| - 1]);
      assert ts[1..][..|ts| - 2] == ts[..|ts| - 1][1..];
    }
  }

  lemma {:induction false} InlineFromAll(t: Task, i: nat)
    requires i <= |t.spawns|
    ensures InlineFrom(t, i) == InlineAll(t.spawns[i..])
    decreases |t.spawns| - i
  {
    if i < |t.spawns| {
      InlineFromAll(t, i + 1);
      InlineAllCons(t.spawns[i..]);
      assert t.spawns[i..][1..] == t.spawns[i + 1..];
    }
  }

  /** A task returns last, after all that it has pushed, and these in the order of the pushes. */
  lemma InlineNested(t: Task)
    ensures Inline(t) != [] && Inline(t)[|Inline(t)| - 1] == t
    ensures Inline(t)[..|Inline(t)| - 1] == InlineAll(t.spawns)
  {
    InlineFromAll(t, 0);
    assert t.spawns[0..] == t.spawns;
  }

  lemma {:induction false} TimesJoin(x: Task, a: seq<Task>, b: seq<Task>)
    ensures Times(x, a + b) == Times(x, a) + Times(x, b)
    decreases |b|
  {
    if b == [] {
      assert a + b == a;
    } else {
      assert (a + b)[..|a + b| - 1] == a + b[..|b| - 1];
      TimesJoin(x, a, b[..|b| - 1]);
    }
  }

  lemma {:induction false} InlineTimes(x: Task, t: Task)
    ensures Times(x, Inline(t)) == InTree(x, t)
    decreases t, |t.spawns| + 1
  {
    InlineFromTimes(x, t, 0);
    TimesJoin(x, InlineFrom(t, 0), [t]);
    assert [t][..0] == [];
  }

  lemma {:induction false} InlineFromTimes(x: Task, t: Task, i: nat)
    requires i <= |t.spawns|
    ensures Times(x, InlineFrom(t, i)) == InSpawns(x, t, i)
    decreases t, |t.spawns| - i
  {
    if i < |t.spawns| {
      InlineTimes(x, t.spawns[i]);
      InlineFromTimes(x, t, i + 1);
      TimesJoin(x, Inline(t.spawns[i]), InlineFrom(t, i + 1));
    }
  }

  lemma {:induction false} InlineAllTimes(x: Task, ts: seq<Task>)
    ensures Times(x, InlineAll(ts)) == InForest(x, ts)
  {
    if ts != [] {
      InlineAllTimes(x, ts[..|ts| - 1]);
      InlineTimes(x, ts[|ts| - 1]);
      TimesJoin(x, InlineAll(ts[..|ts| - 1]), Inline(ts[|ts| - 1]));
    }
  }

  /** A pool with threads that has shut down, with no push after its last worker left, has run what a pool without
      threads runs at once, each task as often. */
  lemma ThreadsDoNotMatter(n: nat, cs: seq<Call>, q: Pool, x: Task)
    requires IsAsyncRun(Started(n), cs, q) && AllExited(q.workers) && q.late == []
    ensures Times(x, q.finished) == Times(x, InlineAll(q.outside))
  {
    QueueIsAttended(n, cs, q);
    DrainExact(q, x);
    InlineAllTimes(x, q.outside);
  }
}
