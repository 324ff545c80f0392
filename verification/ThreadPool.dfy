/** desktop/src/qtc/ThreadPool: workers, pushes and shutdown as interleaved steps. A step is one locked section, or one
    notification, which comes after the section is left; the tasks that a task pushes while it runs are part of it. */
module ThreadPools {
  datatype Task = Task(id: int, spawns: seq<Task>)

  /** A worker is about to check the queue, waits for a notification, runs a task having pushed the first `next` tasks
      of it, the last of them perhaps not yet notified of, or has left its loop. */
  datatype Worker = Ready | Sleeping | Running(task: Task, next: nat, owes: bool) | Exited

  /** The queue and flags, the workers, how many outside pushes are still to notify, and whether shutdown is. The
      rest is history: what was pushed and popped, what returned, the tasks pushed from outside, and those of them that
      came after the last worker had left. */
  datatype Pool = Pool(queue: seq<Task>, workers: seq<Worker>, done: bool, owed: nat, notifyAll: bool,
                       pushed: seq<Task>, popped: seq<Task>, finished: seq<Task>, outside: seq<Task>, late: seq<Task>)

  datatype Event =
    | Enter(i: nat)
    | Spawn(i: nat)
    | Notify(i: nat, woken: nat)
    | Finish(i: nat)
    | NotifyOutside(woken: nat)
    | NotifyAll
    | Push(task: Task)
    | SetDone
    | Spurious(i: nat)

  function Started(n: nat): Pool {
    Pool([], seq(n, _ => Ready), false, 0, false, [], [], [], [], [])
  }

  predicate AllExited(ws: seq<Worker>) {
    forall i :: 0 <= i < |ws| ==> ws[i].Exited?
  }

  predicate NoSleeper(ws: seq<Worker>) {
    forall i :: 0 <= i < |ws| ==> !ws[i].Sleeping?
  }

  predicate Awake(ws: seq<Worker>) {
    exists i :: 0 <= i < |ws| && (ws[i].Ready? || ws[i].Running?)
  }

  /** notify_one wakes one of the waiting workers, if there is one. */
  predicate MayWake(ws: seq<Worker>, j: nat) {
    (j < |ws| && ws[j].Sleeping?) || NoSleeper(ws)
  }

  function Woken(ws: seq<Worker>, j: nat): seq<Worker> {
    if j < |ws| && ws[j].Sleeping? then ws[j := Ready] else ws
  }

  function AllWoken(ws: seq<Worker>): (r: seq<Worker>)
    ensures |r| == |ws| && forall i :: 0 <= i < |ws| ==> r[i] == if ws[i].Sleeping? then Ready else ws[i]
  {
    seq(|ws|, i requires 0 <= i < |ws| => if ws[i].Sleeping? then Ready else ws[i])
  }

  predicate Enabled(p: Pool, e: Event) {
    match e
    case Enter(i) => i < |p.workers| && p.workers[i].Ready?
    case Spawn(i) =>
      i < |p.workers| && p.workers[i].Running? && !p.workers[i].owes && p.workers[i].next < |p.workers[i].task.spawns|
    case Notify(i, j) => i < |p.workers| && p.workers[i].Running? && p.workers[i].owes && MayWake(p.workers, j)
    case Finish(i) =>
      i < |p.workers| && p.workers[i].Running? && !p.workers[i].owes && p.workers[i].next == |p.workers[i].task.spawns|
    case NotifyOutside(j) => p.owed > 0 && MayWake(p.workers, j)
    case NotifyAll => p.notifyAll
    case Push(_) => true
    case SetDone => !p.done
    case Spurious(i) => i < |p.workers| && p.workers[i].Sleeping?
  }

  /** The locked section of a worker's loop: leave, take the front task, or wait. */
  function Entered(p: Pool, i: nat): Pool
    requires i < |p.workers|
  {
    if p.queue == [] then
      p.(workers := p.workers[i := if p.done then Exited else Sleeping])
    else
      p.(
        workers := p.workers[i := Running(p.queue[0], 0, false)],
        queue := p.queue[1..],
        popped := p.popped + [p.queue[0]])
  }

  function After(p: Pool, e: Event): Pool
    requires Enabled(p, e)
  {
    match e
    case Enter(i) => Entered(p, i)
    case Spawn(i) =>
      var w := p.workers[i];
      var t := w.task.spawns[w.next];
      p.(
        queue := p.queue + [t],
        pushed := p.pushed + [t],
        workers := p.workers[i := w.(next := w.next + 1, owes := true)])
    case Notify(i, j) => p.(workers := Woken(p.workers[i := p.workers[i].(owes := false)], j))
    case Finish(i) => p.(workers := p.workers[i := Ready], finished := p.finished + [p.workers[i].task])
    case NotifyOutside(j) => p.(owed := p.owed - 1, workers := Woken(p.workers, j))
    case NotifyAll => p.(notifyAll := false, workers := AllWoken(p.workers))
    case Push(t) =>
      p.(queue := p.queue + [t], pushed := p.pushed + [t], owed := p.owed + 1, outside := p.outside + [t],
         late := if AllExited(p.workers) then p.late + [t] else p.late)
    case SetDone => p.(done := true, notifyAll := true)
    case Spurious(i) => p.(workers := p.workers[i := Ready])
  }

  ghost predicate IsRun(p: Pool, es: seq<Event>, q: Pool)
    decreases |es|
  {
    if es == [] then q == p else Enabled(p, es[0]) && IsRun(After(p, es[0]), es[1..], q)
  }

  // ---- what every step keeps ----

  /** Tasks leave the queue in the order they came, each once; only done lets a worker leave or shutdown notify; a
      running worker stays within its task. */
  ghost predicate Orderly(p: Pool) {
    && p.pushed == p.popped + p.queue
    && (p.notifyAll ==> p.done)
    && (forall i :: 0 <= i < |p.workers| && p.workers[i].Exited? ==> p.done)
    && (forall i :: 0 <= i < |p.workers| && p.workers[i].Running? ==>
          p.workers[i].next <= |p.workers[i].task.spawns| && (p.workers[i].owes ==> p.workers[i].next > 0))
  }

  /** No wake-up is lost: a task in the queue has an awake worker or a notification to come, unless all workers have
      left; after done every sleeper is still to be notified. */
  ghost predicate Attended(p: Pool) {
    && (p.queue != [] ==> Awake(p.workers) || p.owed > 0 || AllExited(p.workers))
    && (p.done ==> p.notifyAll || NoSleeper(p.workers))
  }

  /** Once all workers have left, the queue holds the late pushes and no other task. */
  ghost predicate Drained(p: Pool) {
    if AllExited(p.workers) then p.queue == p.late else p.late == []
  }

  lemma OrderlyKept(p: Pool, e: Event)
    requires Orderly(p) && Enabled(p, e)
    ensures Orderly(After(p, e)) && |After(p, e).workers| == |p.workers|
  {
    var q := After(p, e);
    assert q.pushed == q.popped + q.queue;
  }

  /** Where a worker is awake after a step that did not put it to sleep. */
  lemma StaysAwake(ws: seq<Worker>, i: nat)
    requires i < |ws| && (ws[i].Ready? || ws[i].Running?)
    ensures Awake(ws)
  {
  }

  lemma WakeKeepsAwake(ws: seq<Worker>, j: nat)
    requires MayWake(ws, j)
    ensures Awake(ws) ==> Awake(Woken(ws, j))
    ensures Awake(Woken(ws, j)) || AllExited(ws)
    ensures AllExited(ws) ==> AllExited(Woken(ws, j))
    ensures NoSleeper(ws) ==> NoSleeper(Woken(ws, j))
  {
    if Awake(ws) {
      var i :| 0 <= i < |ws| && (ws[i].Ready? || ws[i].Running?);
      StaysAwake(Woken(ws, j), i);
    } else if j < |ws| && ws[j].Sleeping? {
      StaysAwake(Woken(ws, j), j);
    }
  }

  lemma AllWokenKeepsAwake(ws: seq<Worker>)
    ensures Awake(ws) ==> Awake(AllWoken(ws))
    ensures NoSleeper(AllWoken(ws))
    ensures AllExited(AllWoken(ws)) <==> AllExited(ws)
  {
    if Awake(ws) {
      var i :| 0 <= i < |ws| && (ws[i].Ready? || ws[i].Running?);
      StaysAwake(AllWoken(ws), i);
    }
    if !AllExited(ws) {
      var i :| 0 <= i < |ws| && !ws[i].Exited?;
      assert !AllWoken(ws)[i].Exited?;
    }
  }

  lemma AttendedKept(p: Pool, e: Event)
    requires Attended(p) && Enabled(p, e)
    ensures Attended(After(p, e))
  {
    var q := After(p, e);
    match e
    case Enter(i) =>
      if p.queue != [] {
        StaysAwake(q.workers, i);
      }
    case Notify(i, j) =>
      StaysAwake(q.workers, i);
    case NotifyOutside(j) =>
      WakeKeepsAwake(p.workers, j);
    case NotifyAll =>
      AllWokenKeepsAwake(p.workers);
    case Spawn(i) => StaysAwake(q.workers, i);
    case Finish(i) => StaysAwake(q.workers, i);
    case Spurious(i) => StaysAwake(q.workers, i);
    case Push(_) =>
    case SetDone =>
  }

  lemma DrainedKept(p: Pool, e: Event)
    requires Drained(p) && Enabled(p, e)
    ensures Drained(After(p, e))
  {
    var q := After(p, e);
    match e
    case Enter(i) =>
      if AllExited(q.workers) {
        assert q.workers[i].Exited?;
      }
    case Notify(i, j) => assert q.workers[i].Running?;
    case NotifyOutside(j) => WokenExits(p.workers, j);
    case NotifyAll => AllWokenKeepsAwake(p.workers);
    case Spawn(i) => assert q.workers[i].Running?;
    case Finish(i) => assert q.workers[i].Ready?;
    case Spurious(i) => assert q.workers[i].Ready?;
    case Push(_) =>
    case SetDone =>
  }

  lemma WokenExits(ws: seq<Worker>, j: nat)
    ensures AllExited(Woken(ws, j)) <==> AllExited(ws)
  {
    if j < |ws| && ws[j].Sleeping? {
      assert Woken(ws, j)[j].Ready?;
    }
  }

  // ---- every task runs once ----

  function One(x: Task, t: Task): nat {
    if x == t then 1 else 0
  }

  /** How often task x occurs among t and all the tasks that running t leads to. */
  function InTree(x: Task, t: Task): nat
    decreases t, |t.spawns| + 1
  {
    One(x, t) + InSpawns(x, t, 0)
  }

  function InSpawns(x: Task, t: Task, i: nat): nat
    requires i <= |t.spawns|
    decreases t, |t.spawns| - i
  {
    if i == |t.spawns| then 0 else InTree(x, t.spawns[i]) + InSpawns(x, t, i + 1)
  }

  function InForest(x: Task, ts: seq<Task>): nat {
    if ts == [] then 0 else InForest(x, ts[..|ts| - 1]) + InTree(x, ts[|ts| - 1])
  }

  function Times(x: Task, ts: seq<Task>): nat {
    if ts == [] then 0 else Times(x, ts[..|ts| - 1]) + One(x, ts[|ts| - 1])
  }

  /** What a worker has still to bring to an end or to push. */
  function Held(x: Task, w: Worker): nat {
    if w.Running? && w.next <= |w.task.spawns| then One(x, w.task) + InSpawns(x, w.task, w.next) else 0
  }

  function AllHeld(x: Task, ws: seq<Worker>): nat {
    if ws == [] then 0 else AllHeld(x, ws[..|ws| - 1]) + Held(x, ws[|ws| - 1])
  }

  /** All that was ever pushed from outside, with all it leads to, has returned, is being run or waits in the queue. */
  ghost predicate Conserved(x: Task, p: Pool) {
    InForest(x, p.outside) == Times(x, p.finished) + InForest(x, p.queue) + AllHeld(x, p.workers)
  }

  lemma ForestPush(x: Task, ts: seq<Task>, t: Task)
    ensures InForest(x, ts + [t]) == InForest(x, ts) + InTree(x, t)
  {
    assert (ts + [t])[..|ts|] == ts;
  }

  lemma {:induction false} ForestPop(x: Task, ts: seq<Task>)
    requires ts != []
    ensures InForest(x, ts) == InTree(x, ts[0]) + InForest(x, ts[1..])
  {
    if |ts| == 1 {
      assert ts[..0] == [] && ts[1..] == [];
    } else {
      ForestPop(x, ts[..|ts| - 1]);
      assert ts[1..][..|ts| - 2] == ts[..|ts| - 1][1..];
    }
  }

  lemma {:induction false} HeldUpdate(x: Task, ws: seq<Worker>, i: nat, w: Worker)
    requires i < |ws|
    ensures AllHeld(x, ws[i := w]) + Held(x, ws[i]) == AllHeld(x, ws) + Held(x, w)
  {
    var n := |ws| - 1;
    if i == n {
      assert ws[i := w][..n] == ws[..n];
    } else {
      HeldUpdate(x, ws[..n], i, w);
      assert ws[i := w][..n] == ws[..n][i := w];
    }
  }

  lemma {:induction false} SameHeld(x: Task, ws: seq<Worker>, ws': seq<Worker>)
    requires |ws| == |ws'| && forall i :: 0 <= i < |ws| ==> Held(x, ws[i]) == Held(x, ws'[i])
    ensures AllHeld(x, ws) == AllHeld(x, ws')
  {
    if ws != [] {
      SameHeld(x, ws[..|ws| - 1], ws'[..|ws| - 1]);
    }
  }

  lemma {:induction false} NothingHeld(x: Task, ws: seq<Worker>)
    requires forall i :: 0 <= i < |ws| ==> !ws[i].Running?
    ensures AllHeld(x, ws) == 0
  {
    if ws != [] {
      NothingHeld(x, ws[..|ws| - 1]);
    }
  }

  lemma EnterConserves(x: Task, p: Pool, i: nat)
    requires Conserved(x, p) && Enabled(p, Enter(i))
    ensures Conserved(x, After(p, Enter(i)))
  {
    HeldUpdate(x, p.workers, i, After(p, Enter(i)).workers[i]);
    if p.queue != [] {
      ForestPop(x, p.queue);
    }
  }

  lemma SpawnConserves(x: Task, p: Pool, i: nat)
    requires Conserved(x, p) && Enabled(p, Spawn(i))
    ensures Conserved(x, After(p, Spawn(i)))
  {
    var w := p.workers[i];
    var t, w' := w.task.spawns[w.next], w.(next := w.next + 1, owes := true);
    assert InSpawns(x, w.task, w.next) == InTree(x, t) + InSpawns(x, w.task, w.next + 1);
    assert Held(x, w) == Held(x, w') + InTree(x, t);
    HeldUpdate(x, p.workers, i, w');
    ForestPush(x, p.queue, t);
  }

  lemma FinishConserves(x: Task, p: Pool, i: nat)
    requires Conserved(x, p) && Enabled(p, Finish(i))
    ensures Conserved(x, After(p, Finish(i)))
  {
    HeldUpdate(x, p.workers, i, Ready);
    assert (p.finished + [p.workers[i].task])[..|p.finished|] == p.finished;
  }

  lemma ConservedKept(x: Task, p: Pool, e: Event)
    requires Conserved(x, p) && Enabled(p, e)
    ensures Conserved(x, After(p, e))
  {
    match e
    case Enter(i) => EnterConserves(x, p, i);
    case Spawn(i) => SpawnConserves(x, p, i);
    case Finish(i) => FinishConserves(x, p, i);
    case Push(t) =>
      ForestPush(x, p.queue, t);
      ForestPush(x, p.outside, t);
    case _ => SameHeld(x, p.workers, After(p, e).workers);
  }

  // ---- all runs ----

  ghost predicate Valid(p: Pool) {
    Orderly(p) && Attended(p) && Drained(p) && forall x :: Conserved(x, p)
  }

  lemma StartedIsValid(n: nat)
    ensures Valid(Started(n))
  {
    forall x ensures Conserved(x, Started(n)) {
      NothingHeld(x, Started(n).workers);
    }
  }

  lemma ValidKept(p: Pool, e: Event)
    requires Valid(p) && Enabled(p, e)
    ensures Valid(After(p, e))
  {
    OrderlyKept(p, e);
    AttendedKept(p, e);
    DrainedKept(p, e);
    forall x ensures Conserved(x, After(p, e)) {
      ConservedKept(x, p, e);
    }
  }

  /** In every interleaving of any length, every state has all of these properties. */
  lemma {:induction false} RunsStayValid(p: Pool, es: seq<Event>, q: Pool)
    requires Valid(p) && IsRun(p, es, q)
    ensures Valid(q)
    decreases |es|
  {
    if es != [] {
      ValidKept(p, es[0]);
      RunsStayValid(After(p, es[0]), es[1..], q);
    }
  }

  /** When all workers have left, the tasks left the queue in the order they were pushed, and every task has run as
      often as it was pushed, from outside or by another task, but for pushes after the last worker had left. */
  lemma DrainExact(p: Pool, x: Task)
    requires Valid(p) && AllExited(p.workers)
    ensures p.pushed == p.popped + p.late
    ensures Times(x, p.finished) + InForest(x, p.late) == InForest(x, p.outside)
  {
    NothingHeld(x, p.workers);
    assert Conserved(x, p);
  }

  /** So all of it has run if and only if no push came after the last worker had left. */
  lemma AllRunExact(p: Pool)
    requires Valid(p) && AllExited(p.workers)
    ensures (forall x :: Times(x, p.finished) == InForest(x, p.outside)) <==> p.late == []
  {
    forall x ensures Times(x, p.finished) + InForest(x, p.late) == InForest(x, p.outside) {
      DrainExact(p, x);
    }
    if p.late != [] {
      var x := p.late[0];
      ForestPop(x, p.late);
      assert Times(x, p.finished) + InForest(x, p.late) == InForest(x, p.outside);
      assert Times(x, p.finished) != InForest(x, p.outside);
    }
  }

  lemma LateStep(p: Pool, e: Event)
    requires AllExited(p.workers) && Enabled(p, e)
    ensures var q := After(p, e);
            AllExited(q.workers) && q.popped == p.popped && q.finished == p.finished && p.queue <= q.queue
  {
    AllWokenKeepsAwake(p.workers);
  }

  /** A push that comes after the last worker has left is never run: whatever follows, the queue only grows. */
  lemma {:induction false} LateIsLost(p: Pool, es: seq<Event>, q: Pool)
    requires AllExited(p.workers) && IsRun(p, es, q)
    ensures AllExited(q.workers) && q.popped == p.popped && q.finished == p.finished && p.queue <= q.queue
    decreases |es|
  {
    if es != [] {
      LateStep(p, es[0]);
      LateIsLost(After(p, es[0]), es[1..], q);
    }
  }

  // ---- progress and termination ----

  /** The steps a pool takes by itself: no new outside push, no shutdown, and no spurious wake-up. */
  predicate Progress(e: Event) {
    !e.Push? && !e.SetDone? && !e.Spurious?
  }

  /** Nothing is left to do: shut down, all workers gone, all notifications made. */
  predicate Final(p: Pool) {
    p.done && AllExited(p.workers) && p.owed == 0 && !p.notifyAll
  }

  /** Waiting for work: all workers wait and no notification is to come. */
  predicate Idle(p: Pool) {
    && !p.done && p.owed == 0
    && forall i :: 0 <= i < |p.workers| ==> p.workers[i].Sleeping?
  }

  ghost predicate Stuck(p: Pool) {
    forall e :: Progress(e) ==> !Enabled(p, e)
  }

  lemma WakeChoice(ws: seq<Worker>) returns (j: nat)
    ensures MayWake(ws, j)
  {
    j := 0;
    if !NoSleeper(ws) {
      j :| 0 <= j < |ws| && ws[j].Sleeping?;
    }
  }

  /** A worker that is awake can take a step. */
  lemma AwakeMoves(p: Pool, i: nat) returns (e: Event)
    requires Orderly(p) && i < |p.workers| && (p.workers[i].Ready? || p.workers[i].Running?)
    ensures Progress(e) && Enabled(p, e)
  {
    var w := p.workers[i];
    if w.Ready? {
      e := Enter(i);
    } else if w.owes {
      var j := WakeChoice(p.workers);
      e := Notify(i, j);
    } else if w.next < |w.task.spawns| {
      e := Spawn(i);
    } else {
      e := Finish(i);
    }
  }

  /** No state is stuck but the final ones, and those in which the pool waits for work with an empty queue. */
  lemma StuckExact(p: Pool)
    requires Valid(p) && p.workers != []
    ensures Stuck(p) <==> Final(p) || Idle(p)
    ensures Idle(p) ==> p.queue == []
  {
    if !Final(p) && !Idle(p) {
      if Awake(p.workers) {
        var i :| 0 <= i < |p.workers| && (p.workers[i].Ready? || p.workers[i].Running?);
        var e := AwakeMoves(p, i);
      } else if p.owed > 0 {
        var j := WakeChoice(p.workers);
        assert Enabled(p, NotifyOutside(j));
      } else if p.notifyAll {
        assert Enabled(p, NotifyAll);
      }
    } else if Idle(p) {
      assert p.workers[0].Sleeping?;
    }
  }

  /** The steps that a task and all it leads to can still cause. */
  function Cost(t: Task): nat
    decreases t, |t.spawns| + 1
  {
    2 + SpawnsCost(t, 0)
  }

  function SpawnsCost(t: Task, i: nat): nat
    requires i <= |t.spawns|
    decreases t, |t.spawns| - i
  {
    if i == |t.spawns| then 0 else 3 + Cost(t.spawns[i]) + SpawnsCost(t, i + 1)
  }

  function QueueCost(ts: seq<Task>): nat {
    if ts == [] then 0 else QueueCost(ts[..|ts| - 1]) + Cost(ts[|ts| - 1])
  }

  function WorkerCost(w: Worker): nat {
    match w
    case Ready => 1
    case Sleeping => 0
    case Exited => 0
    case Running(t, next, owes) => 2 + (if next <= |t.spawns| then SpawnsCost(t, next) else 0) + (if owes then 2 else 0)
  }

  function WorkersCost(ws: seq<Worker>): nat {
    if ws == [] then 0 else WorkersCost(ws[..|ws| - 1]) + WorkerCost(ws[|ws| - 1])
  }

  function Measure(p: Pool): nat {
    QueueCost(p.queue) + WorkersCost(p.workers) + 2 * p.owed + if p.notifyAll then |p.workers| + 1 else 0
  }

  lemma QueueCostPush(ts: seq<Task>, t: Task)
    ensures QueueCost(ts + [t]) == QueueCost(ts) + Cost(t)
  {
    assert (ts + [t])[..|ts|] == ts;
  }

  lemma {:induction false} QueueCostPop(ts: seq<Task>)
    requires ts != []
    ensures QueueCost(ts) == Cost(ts[0]) + QueueCost(ts[1..])
  {
    if |ts| == 1 {
      assert ts[..0] == [] && ts[1..] == [];
    } else {
      QueueCostPop(ts[..|ts| - 1]);
      assert ts[1..][..|ts| - 2] == ts[..|ts| - 1][1..];
    }
  }

  lemma {:induction false} CostUpdate(ws: seq<Worker>, i: nat, w: Worker)
    requires i < |ws|
    ensures WorkersCost(ws[i := w]) + WorkerCost(ws[i]) == WorkersCost(ws) + WorkerCost(w)
  {
    var n := |ws| - 1;
    if i == n {
      assert ws[i := w][..n] == ws[..n];
    } else {
      CostUpdate(ws[..n], i, w);
      assert ws[i := w][..n] == ws[..n][i := w];
    }
  }

  lemma {:induction false} AllWokenCost(ws: seq<Worker>)
    ensures WorkersCost(AllWoken(ws)) <= WorkersCost(ws) + |ws|
  {
    if ws != [] {
      AllWokenCost(ws[..|ws| - 1]);
      assert AllWoken(ws)[..|ws| - 1] == AllWoken(ws[..|ws| - 1]);
    }
  }

  lemma WokenCost(ws: seq<Worker>, j: nat)
    ensures WorkersCost(Woken(ws, j)) <= WorkersCost(ws) + 1
  {
    if j < |ws| && ws[j].Sleeping? {
      CostUpdate(ws, j, Ready);
    }
  }

  lemma EnterCosts(p: Pool, i: nat)
    requires Enabled(p, Enter(i))
    ensures Measure(After(p, Enter(i))) < Measure(p)
  {
    CostUpdate(p.workers, i, After(p, Enter(i)).workers[i]);
    if p.queue != [] {
      QueueCostPop(p.queue);
    }
  }

  lemma SpawnCosts(p: Pool, i: nat)
    requires Enabled(p, Spawn(i))
    ensures Measure(After(p, Spawn(i))) < Measure(p)
  {
    var w := p.workers[i];
    CostUpdate(p.workers, i, w.(next := w.next + 1, owes := true));
    QueueCostPush(p.queue, w.task.spawns[w.next]);
  }

  lemma NotifyCosts(p: Pool, i: nat, j: nat)
    requires Enabled(p, Notify(i, j))
    ensures Measure(After(p, Notify(i, j))) < Measure(p)
  {
    var quiet := p.workers[i].(owes := false);
    CostUpdate(p.workers, i, quiet);
    WokenCost(p.workers[i := quiet], j);
    assert |Woken(p.workers[i := quiet], j)| == |p.workers|;
  }

  /** Every step the pool takes by itself uses up some of the measure; a spurious wake-up adds one to it. */
  lemma MeasureFalls(p: Pool, e: Event)
    requires Enabled(p, e)
    ensures Progress(e) ==> Measure(After(p, e)) < Measure(p)
    ensures e.Spurious? ==> Measure(After(p, e)) == Measure(p) + 1
  {
    match e
    case Enter(i) => EnterCosts(p, i);
    case Spawn(i) => SpawnCosts(p, i);
    case Notify(i, j) => NotifyCosts(p, i, j);
    case Finish(i) => CostUpdate(p.workers, i, Ready);
    case NotifyOutside(j) => WokenCost(p.workers, j);
    case NotifyAll => AllWokenCost(p.workers);
    case Spurious(i) => CostUpdate(p.workers, i, Ready);
    case Push(_) =>
    case SetDone =>
  }

  function SpuriousOf(es: seq<Event>): nat {
    if es == [] then 0 else (if es[0].Spurious? then 1 else 0) + SpuriousOf(es[1..])
  }

  /** Without further pushes a pool comes to rest: the number of steps is bounded by the measure at the start, plus two
      for every spurious wake-up. */
  lemma {:induction false} RunsEnd(p: Pool, es: seq<Event>, q: Pool)
    requires IsRun(p, es, q) && forall i :: 0 <= i < |es| ==> Progress(es[i]) || es[i].Spurious?
    ensures |es| + Measure(q) <= Measure(p) + 2 * SpuriousOf(es)
    decreases |es|
  {
    if es != [] {
      MeasureFalls(p, es[0]);
      RunsEnd(After(p, es[0]), es[1..], q);
    }
  }

  /** Every run after shutdown that goes on as long as it can, with no more outside pushes, ends with all workers
      gone and everything done that was pushed in time. */
  lemma ShutdownCompletes(p: Pool, es: seq<Event>, q: Pool, x: Task)
    requires Valid(p) && p.done && p.workers != [] && IsRun(p, es, q) && Stuck(q)
    requires forall i :: 0 <= i < |es| ==> Progress(es[i]) || es[i].Spurious?
    ensures Final(q) && Times(x, q.finished) + InForest(x, p.late) == InForest(x, p.outside)
  {
    RunsStayValid(p, es, q);
    QuietRuns(p, es, q);
    StuckExact(q);
    DrainExact(q, x);
  }

  lemma {:induction false} QuietRuns(p: Pool, es: seq<Event>, q: Pool)
    requires IsRun(p, es, q) && forall i :: 0 <= i < |es| ==> Progress(es[i]) || es[i].Spurious?
    ensures q.done == p.done && q.outside == p.outside && q.late == p.late && |q.workers| == |p.workers|
    decreases |es|
  {
    if es != [] {
      QuietRuns(After(p, es[0]), es[1..], q);
    }
  }

  // ---- the class ----

  /** One worker's locked section, one push, one notification at a time; who goes next is up to the caller. */
  class ThreadPool {
    var functors: seq<Task>
    var workers: seq<Worker>
    var done: bool
    var owed: nat
    var notifyAll: bool
    ghost var pushed: seq<Task>
    ghost var popped: seq<Task>
    ghost var finished: seq<Task>
    ghost var outside: seq<Task>
    ghost var late: seq<Task>

    ghost function Now(): Pool
      reads this
    {
      Pool(functors, workers, done, owed, notifyAll, pushed, popped, finished, outside, late)
    }

    constructor (threadCount: nat)
      ensures Now() == Started(threadCount) && Valid(Now())
    {
      functors, done, owed, notifyAll := [], false, 0, false;
      pushed, popped, finished, outside, late := [], [], [], [], [];
      workers := [];
      new;
      var i := 0;
      while i < threadCount
        invariant 0 <= i <= threadCount && workers == seq(i, _ => Ready)
        invariant Now() == Started(threadCount).(workers := workers)
      {
        workers := workers + [Ready];
        i := i + 1;
      }
      StartedIsValid(threadCount);
    }

    /** push, up to leaving the lock, by a thread that is not a worker. */
    method PushOutside(functor: Task)
      requires Valid(Now())
      modifies this
      ensures Valid(Now()) && Now() == After(old(Now()), Push(functor))
    {
      ghost var next := After(Now(), Push(functor));
      ValidKept(Now(), Push(functor));
      late := if AllExited(workers) then late + [functor] else late;
      functors, pushed, outside := functors + [functor], pushed + [functor], outside + [functor];
      owed := owed + 1;
      assert Now() == next;
    }

    /** push, up to leaving the lock, by the task that worker i runs. */
    method PushFrom(i: nat)
      requires Valid(Now()) && Enabled(Now(), Spawn(i))
      modifies this
      ensures Valid(Now()) && Now() == After(old(Now()), Spawn(i))
    {
      ValidKept(Now(), Spawn(i));
      var w := workers[i];
      functors, pushed := functors + [w.task.spawns[w.next]], pushed + [w.task.spawns[w.next]];
      workers := workers[i := w.(next := w.next + 1, owes := true)];
    }

    /** notify_one: the scheduler says which waiting worker is woken. */
    method NotifyOne(from: nat, woken: nat)
      requires Valid(Now())
      requires if from < |workers| then Enabled(Now(), Notify(from, woken)) else Enabled(Now(), NotifyOutside(woken))
      modifies this
      ensures Valid(Now())
      ensures Now() == After(old(Now()), if from < |old(workers)| then Notify(from, woken) else NotifyOutside(woken))
    {
      ValidKept(Now(), if from < |workers| then Notify(from, woken) else NotifyOutside(woken));
      if from < |workers| {
        workers := workers[from := workers[from].(owes := false)];
      } else {
        owed := owed - 1;
      }
      if woken < |workers| && workers[woken].Sleeping? {
        workers := workers[woken := Ready];
      }
    }

    /** The locked section of worker i: it waits, leaves, or takes the task at the front and runs it. */
    method WorkerLocked(i: nat)
      requires Valid(Now()) && Enabled(Now(), Enter(i))
      modifies this
      ensures Valid(Now()) && Now() == After(old(Now()), Enter(i))
    {
      ValidKept(Now(), Enter(i));
      if !(done || functors != []) {
        workers := workers[i := Sleeping];
      } else if done && functors == [] {
        workers := workers[i := Exited];
      } else {
        workers := workers[i := Running(functors[0], 0, false)];
        popped := popped + [functors[0]];
        functors := functors[1..];
      }
    }

    /** The task of worker i returns, or throws and is logged. */
    method TaskReturns(i: nat)
      requires Valid(Now()) && Enabled(Now(), Finish(i))
      modifies this
      ensures Valid(Now()) && Now() == After(old(Now()), Finish(i))
    {
      ValidKept(Now(), Finish(i));
      finished := finished + [workers[i].task];
      workers := workers[i := Ready];
    }

    method ShutdownLocked()
      requires Valid(Now()) && !done
      modifies this
      ensures Valid(Now()) && Now() == After(old(Now()), SetDone)
    {
      ValidKept(Now(), SetDone);
      done, notifyAll := true, true;
    }

    /** notify_all */
    method NotifyEveryone()
      requires Valid(Now()) && notifyAll
      modifies this
      ensures Valid(Now()) && Now() == After(old(Now()), NotifyAll)
    {
      ValidKept(Now(), NotifyAll);
      notifyAll := false;
      workers := WakeAll(workers);
    }
  }

  method WakeAll(workers: seq<Worker>) returns (r: seq<Worker>)
    ensures r == AllWoken(workers)
  {
    r := workers;
    var i := 0;
    while i < |r|
      invariant 0 <= i <= |r| == |workers|
      invariant forall k :: 0 <= k < i ==> r[k] == if workers[k].Sleeping? then Ready else workers[k]
      invariant forall k :: i <= k < |r| ==> r[k] == workers[k]
    {
      if r[i].Sleeping? {
        r := r[i := Ready];
      }
      i := i + 1;
    }
  }
}
