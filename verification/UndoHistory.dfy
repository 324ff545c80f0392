/** What undo and redo are for: the recorded stacks follow a timeline of the values the actionable nodes had. */
module UndoHistory {
  import opened Wrappers
  import opened UndoRedo

  type Valuation<V> = map<Key, V>

  /** The values undo and redo are about. */
  function Vals<V>(nodes: map<Key, Node<V>>): Valuation<V> {
    map k | k in nodes && nodes[k].actionable :: nodes[k].value
  }

  // ---- the timeline ----

  /** The values at the end of each action that can be undone, oldest first, before it the values the oldest of
      them started from; the values now; and the values that redo leads to, nearest last. */
  datatype Timeline<V> = Timeline(past: seq<Valuation<V>>, now: Valuation<V>, open: bool, future: seq<Valuation<V>>)

  datatype Op<V> = Edit(key: Key, value: V) | Start | End | Undoing | Redoing

  function Keep<T>(xs: seq<T>, n: nat): (r: seq<T>)
    ensures |r| <= n && |r| <= |xs| && r == xs[|xs| - |r|..]
  {
    if |xs| > n then xs[|xs| - n..] else xs
  }

  function Close<V>(t: Timeline<V>): Timeline<V> {
    if t.open then t.(past := Keep(t.past + [t.now], LIMIT + 1), open := false) else t
  }

  /** An edit ends an action of its own unless a group is open, and there is no future after it; undo goes to the
      values before the last action, redo to the values ahead. */
  function Follow<V(==)>(t: Timeline<V>, op: Op<V>): Timeline<V> {
    match op
    case Edit(k, v) =>
      if k !in t.now || t.now[k] == v then t
      else
        var now := t.now[k := v];
        t.(now := now, past := if t.open then t.past else Keep(t.past + [now], LIMIT + 1), future := [])
    case Start => t.(open := true)
    case End => Close(t)
    case Undoing =>
      var c := Close(t);
      if |c.past| < 2 then c
      else c.(past := c.past[..|c.past| - 1], now := c.past[|c.past| - 2], future := Keep(c.future + [c.now], LIMIT))
    case Redoing =>
      if t.future == [] then t
      else
        var now := t.future[|t.future| - 1];
        t.(past := Keep(t.past + [now], LIMIT + 1), now := now, future := t.future[..|t.future| - 1])
  }

  ghost function FollowAll<V>(t: Timeline<V>, ops: seq<Op<V>>): Timeline<V>
    decreases |ops|
  {
    if ops == [] then t else Follow(FollowAll(t, ops[..|ops| - 1]), ops[|ops| - 1])
  }

  function Undos<V>(n: nat): (ops: seq<Op<V>>)
    ensures |ops| == n && forall i :: 0 <= i < n ==> ops[i] == Undoing
  {
    seq(n, _ => Undoing)
  }

  lemma ShorterPrefix<T>(xs: seq<T>, n: nat)
    requires 0 < n < |xs|
    ensures var ys := xs[..|xs| - (n - 1)];
            ys[..|ys| - 1] == xs[..|xs| - n] && ys[|ys| - 2] == xs[|xs| - 1 - n]
  {
  }

  lemma UndoOnce<V>(t: Timeline<V>)
    requires !t.open && |t.past| >= 2
    ensures Follow(t, Undoing)
            == Timeline(t.past[..|t.past| - 1], t.past[|t.past| - 2], false, Keep(t.future + [t.now], LIMIT))
  {
  }

  /** As many undos as there are actions kept lead back to the values at the end of each. */
  lemma {:induction false} UndosRewind<V>(t: Timeline<V>, n: nat)
    requires !t.open && n < |t.past| && t.now == t.past[|t.past| - 1]
    ensures FollowAll(t, Undos(n)).now == t.past[|t.past| - 1 - n]
    ensures FollowAll(t, Undos(n)).past == t.past[..|t.past| - n] && !FollowAll(t, Undos(n)).open
  {
    if n > 0 {
      UndosRewind(t, n - 1);
      assert Undos<V>(n)[..n - 1] == Undos(n - 1);
      UndoOnce(FollowAll(t, Undos(n - 1)));
      ShorterPrefix(t.past, n);
    }
  }

  // ---- what an action does to the values ----

  function Put<V>(v: Valuation<V>, xs: seq<Assignment<V>>): Valuation<V>
    decreases |xs|
  {
    if xs == [] then v else Put(v, xs[..|xs| - 1])[xs[|xs| - 1].key := xs[|xs| - 1].value]
  }

  function Forward<V>(v: Valuation<V>, a: Action<V>): Valuation<V>
    decreases |a|
  {
    if a == [] then v else Forward(v, a[..|a| - 1])[a[|a| - 1].key := a[|a| - 1].newValue]
  }

  function Backward<V>(v: Valuation<V>, a: Action<V>): Valuation<V>
    decreases |a|
  {
    if a == [] then v else Backward(v[a[|a| - 1].key := a[|a| - 1].oldValue], a[..|a| - 1])
  }

  /** The old value of every change is the value there was when it was made, starting from v. */
  ghost predicate Fits<V>(v: Valuation<V>, a: Action<V>)
    decreases |a|
  {
    a != [] ==>
      var c := a[|a| - 1];
      Fits(v, a[..|a| - 1]) && c.key in Forward(v, a[..|a| - 1]) && Forward(v, a[..|a| - 1])[c.key] == c.oldValue
  }

  lemma {:induction false} BackwardForward<V>(v: Valuation<V>, a: Action<V>)
    requires Fits(v, a)
    ensures Backward(Forward(v, a), a) == v
    decreases |a|
  {
    if a != [] {
      var c := a[|a| - 1];
      var w := Forward(v, a[..|a| - 1]);
      assert w[c.key := c.newValue][c.key := c.oldValue] == w;
      BackwardForward(v, a[..|a| - 1]);
    }
  }

  lemma {:induction false} PutFront<V>(v: Valuation<V>, x: Assignment<V>, xs: seq<Assignment<V>>)
    ensures Put(v, [x] + xs) == Put(v[x.key := x.value], xs)
    decreases |xs|
  {
    var all := [x] + xs;
    if xs == [] {
      assert all[..0] == [];
    } else {
      assert all[..|all| - 1] == [x] + xs[..|xs| - 1];
      PutFront(v, x, xs[..|xs| - 1]);
    }
  }

  lemma {:induction false} PutNews<V>(v: Valuation<V>, a: Action<V>)
    ensures Put(v, News(a)) == Forward(v, a)
    decreases |a|
  {
    if a != [] {
      assert News(a)[..|a| - 1] == News(a[..|a| - 1]);
      PutNews(v, a[..|a| - 1]);
    }
  }

  lemma {:induction false} PutOlds<V>(v: Valuation<V>, a: Action<V>)
    ensures Put(v, Olds(a)) == Backward(v, a)
    decreases |a|
  {
    if a != [] {
      var x := Assignment(a[|a| - 1].key, a[|a| - 1].oldValue);
      assert Olds(a) == [x] + Olds(a[..|a| - 1]);
      PutFront(v, x, Olds(a[..|a| - 1]));
      PutOlds(v[x.key := x.value], a[..|a| - 1]);
    }
  }

  ghost predicate OfActionable<V>(nodes: map<Key, Node<V>>, xs: seq<Assignment<V>>) {
    forall x :: x in xs ==> x.key in nodes && nodes[x.key].actionable
  }

  lemma SetVals<V>(s: State<V>, k: Key, v: V)
    requires k in s.nodes && s.nodes[k].actionable
    ensures Vals(SetValue(s, k, v).nodes) == Vals(s.nodes)[k := v]
    ensures SameNodes(s.nodes, SetValue(s, k, v).nodes)
    ensures forall j :: j in s.nodes && j != k ==> SetValue(s, k, v).nodes[j] == s.nodes[j]
  {
    assert Vals(s.nodes[k := s.nodes[k].(value := v)]) == Vals(s.nodes)[k := v];
    if s.nodes[k].value == v {
      assert Vals(s.nodes)[k := v] == Vals(s.nodes);
    }
  }

  /** Assigning to actionable nodes changes their values as said, and no other node. */
  lemma {:induction false} AssignVals<V>(s: State<V>, xs: seq<Assignment<V>>)
    requires OfActionable(s.nodes, xs)
    ensures Vals(Assign(s, xs).nodes) == Put(Vals(s.nodes), xs)
    ensures SameNodes(s.nodes, Assign(s, xs).nodes)
    ensures forall k :: k in s.nodes && !s.nodes[k].actionable ==> Assign(s, xs).nodes[k] == s.nodes[k]
    decreases |xs|
  {
    if xs != [] {
      var x := xs[|xs| - 1];
      assert x in xs;
      AssignVals(s, xs[..|xs| - 1]);
      SetVals(Assign(s, xs[..|xs| - 1]), x.key, x.value);
    }
  }

  lemma ValsKeys<V>(nodes: map<Key, Node<V>>, k: Key)
    ensures k in Vals(nodes) <==> k in nodes && nodes[k].actionable
    ensures k in Vals(nodes) ==> Vals(nodes)[k] == nodes[k].value
  {
  }

  /** What undo does once the group is closed: the values go backward through the last action, and it changes stacks. */
  ghost predicate Undone<V>(e: State<V>, r: State<V>) {
    && e.undoStack != []
    && var n := |e.undoStack| - 1;
       var a := e.undoStack[n];
       && Vals(r.nodes) == Backward(Vals(e.nodes), a)
       && r.undoStack == e.undoStack[..n] && r.redoStack == Limit(e.redoStack + [a])
       && r.active.None? && r.initialized == e.initialized && !r.ignoreChanges
  }

  /** What redo does: the values go forward through the action. */
  ghost predicate Redone<V>(s: State<V>, r: State<V>) {
    && s.redoStack != []
    && var n := |s.redoStack| - 1;
       var a := s.redoStack[n];
       && Vals(r.nodes) == Forward(Vals(s.nodes), a)
       && r.redoStack == s.redoStack[..n] && r.undoStack == Limit(s.undoStack + [a])
       && r.active == s.active && r.initialized == s.initialized && !r.ignoreChanges
  }

  /** A node that is not actionable stays as it is, and no node changes in anything but its value. */
  ghost predicate OthersKept<V>(s: State<V>, r: State<V>) {
    && SameNodes(s.nodes, r.nodes)
    && forall k :: k in s.nodes && !s.nodes[k].actionable ==> r.nodes[k] == s.nodes[k]
  }

  lemma UndoEffect<V(!new)>(convert: (Key, V) -> Option<V>, s: State<V>)
    requires Good(convert, s) && Ready(s) && EndAction(s).undoStack != []
    ensures Undone(EndAction(s), Undo(s)) && OthersKept(s, Undo(s))
  {
    GoodEndAction(convert, s);
    var stack := EndAction(s).undoStack;
    var a := stack[|stack| - 1];
    assert a in stack;
    PutOlds(Vals(s.nodes), a);
    AssignVals(BeginUndo(s), Olds(a));
    AssignQuiet(BeginUndo(s), Olds(a));
  }

  lemma RedoEffect<V(!new)>(convert: (Key, V) -> Option<V>, s: State<V>)
    requires Good(convert, s) && Ready(s) && s.redoStack != []
    ensures Redone(s, Redo(s)) && OthersKept(s, Redo(s))
  {
    var a := s.redoStack[|s.redoStack| - 1];
    assert a in s.redoStack;
    PutNews(Vals(s.nodes), a);
    AssignVals(BeginRedo(s), News(a));
    AssignQuiet(BeginRedo(s), News(a));
  }

  // ---- stacks and timeline ----

  /** Each action of the undo stack leads from the values before it to the values after it. */
  ghost predicate Chain<V>(stack: seq<Action<V>>, past: seq<Valuation<V>>) {
    && |past| == |stack| + 1
    && forall i :: 0 <= i < |stack| ==> Fits(past[i], stack[i]) && Forward(past[i], stack[i]) == past[i + 1]
  }

  /** The nearest actions of the redo stack lead through the future, one after the other. Older ones may not. */
  ghost predicate Ahead<V>(now: Valuation<V>, stack: seq<Action<V>>, future: seq<Valuation<V>>)
    decreases |future|
  {
    && |future| <= |stack|
    && (future != [] ==>
          var a, next := stack[|stack| - 1], future[|future| - 1];
          Fits(now, a) && Forward(now, a) == next && Ahead(next, stack[..|stack| - 1], future[..|future| - 1]))
  }

  ghost predicate Matches<V>(now: Valuation<V>, undoStack: seq<Action<V>>, redoStack: seq<Action<V>>,
                             active: Option<Action<V>>, t: Timeline<V>) {
    && t.now == now
    && t.open == active.Some?
    && Chain(undoStack, t.past)
    && Ahead(now, redoStack, t.future)
    && var group := if active.Some? then active.value else [];
       var last := t.past[|t.past| - 1];
       Fits(last, group) && Forward(last, group) == now && (t.future != [] ==> group == [])
  }

  /** The state follows the timeline. */
  ghost predicate On<V>(s: State<V>, t: Timeline<V>) {
    Matches(Vals(s.nodes), s.undoStack, s.redoStack, s.active, t)
  }

  lemma ChainPush<V>(stack: seq<Action<V>>, past: seq<Valuation<V>>, a: Action<V>, now: Valuation<V>)
    requires Chain(stack, past) && Fits(past[|past| - 1], a) && Forward(past[|past| - 1], a) == now && |stack| <= LIMIT
    ensures Chain(Limit(stack + [a]), Keep(past + [now], LIMIT + 1))
    ensures var kept := Keep(past + [now], LIMIT + 1); kept[|kept| - 1] == now
  {
    assert Chain(stack + [a], past + [now]);
  }

  lemma {:induction false} AheadDrop<V>(now: Valuation<V>, stack: seq<Action<V>>, future: seq<Valuation<V>>, i: nat,
                                        j: nat)
    requires Ahead(now, stack, future) && i <= |stack| && j <= |future| && |future| - j <= |stack| - i
    ensures Ahead(now, stack[i..], future[j..])
    decreases |future|
  {
    if j < |future| {
      AheadDrop(future[|future| - 1], stack[..|stack| - 1], future[..|future| - 1], i, j);
      assert stack[i..][..|stack| - i - 1] == stack[..|stack| - 1][i..];
      assert future[j..][..|future| - j - 1] == future[..|future| - 1][j..];
    }
  }

  lemma AheadCons<V>(before: Valuation<V>, stack: seq<Action<V>>, future: seq<Valuation<V>>, a: Action<V>,
                     now: Valuation<V>)
    requires Ahead(now, stack, future) && Fits(before, a) && Forward(before, a) == now
    ensures Ahead(before, stack + [a], future + [now])
  {
    assert (stack + [a])[..|stack|] == stack && (future + [now])[..|future|] == future;
  }

  /** Dropping the oldest of more than 100 drops nothing that is nearer. */
  lemma AheadKept<V>(now: Valuation<V>, stack: seq<Action<V>>, future: seq<Valuation<V>>)
    requires Ahead(now, stack, future)
    ensures Ahead(now, Limit(stack), Keep(future, LIMIT))
  {
    if |stack| > LIMIT {
      var i, j := |stack| - LIMIT, if |future| > LIMIT then |future| - LIMIT else 0;
      AheadDrop(now, stack, future, i, j);
      assert Limit(stack) == stack[i..];
      assert Keep(future, LIMIT) == future[j..];
    } else {
      assert Limit(stack) == stack && Keep(future, LIMIT) == future;
    }
  }

  lemma AheadPush<V>(before: Valuation<V>, stack: seq<Action<V>>, future: seq<Valuation<V>>, a: Action<V>,
                     now: Valuation<V>)
    requires Ahead(now, stack, future) && Fits(before, a) && Forward(before, a) == now
    ensures Ahead(before, Limit(stack + [a]), Keep(future + [now], LIMIT))
  {
    AheadCons(before, stack, future, a, now);
    AheadKept(before, stack + [a], future + [now]);
  }

  lemma CloseOn<V(!new)>(convert: (Key, V) -> Option<V>, s: State<V>, t: Timeline<V>)
    requires Good(convert, s) && On(s, t)
    ensures On(EndAction(s), Close(t))
  {
    if s.active.Some? {
      ChainPush(s.undoStack, t.past, s.active.value, t.now);
    }
  }

  lemma ChainPop<V>(stack: seq<Action<V>>, past: seq<Valuation<V>>)
    requires Chain(stack, past) && stack != []
    ensures var n := |stack| - 1;
            Chain(stack[..n], past[..n + 1]) && Backward(past[n + 1], stack[n]) == past[n]
  {
    BackwardForward(past[|stack| - 1], stack[|stack| - 1]);
  }

  lemma ClosedMatches<V>(undoStack: seq<Action<V>>, redoStack: seq<Action<V>>, t: Timeline<V>)
    requires !t.open && Chain(undoStack, t.past) && Ahead(t.now, redoStack, t.future) && t.now == t.past[|t.past| - 1]
    ensures Matches(t.now, undoStack, redoStack, None, t)
  {
  }

  lemma UndoMatches<V>(undoStack: seq<Action<V>>, redoStack: seq<Action<V>>, t: Timeline<V>)
    requires Matches(t.now, undoStack, redoStack, None, t) && undoStack != []
    ensures var n := |undoStack| - 1;
            var a := undoStack[n];
            Matches(Backward(t.now, a), undoStack[..n], Limit(redoStack + [a]), None, Follow(t, Undoing))
  {
    var n := |undoStack| - 1;
    var a := undoStack[n];
    ChainPop(undoStack, t.past);
    UndoOnce(t);
    AheadPush(t.past[n], redoStack, t.future, a, t.now);
    ClosedMatches(undoStack[..n], Limit(redoStack + [a]), Follow(t, Undoing));
  }

  lemma RedoMatches<V>(undoStack: seq<Action<V>>, redoStack: seq<Action<V>>, active: Option<Action<V>>, t: Timeline<V>)
    requires Matches(t.now, undoStack, redoStack, active, t) && t.future != [] && |undoStack| <= LIMIT
    ensures var n := |redoStack| - 1;
            var a := redoStack[n];
            Matches(Forward(t.now, a), Limit(undoStack + [a]), redoStack[..n], active, Follow(t, Redoing))
  {
    ChainPush(undoStack, t.past, redoStack[|redoStack| - 1], t.future[|t.future| - 1]);
  }

  lemma UndoneOn<V>(e: State<V>, r: State<V>, t: Timeline<V>)
    requires On(e, t) && e.active.None? && Undone(e, r)
    ensures On(r, Follow(t, Undoing))
  {
    UndoMatches(e.undoStack, e.redoStack, t);
  }

  lemma RedoneOn<V>(s: State<V>, r: State<V>, t: Timeline<V>)
    requires On(s, t) && t.future != [] && |s.undoStack| <= LIMIT && Redone(s, r)
    ensures On(r, Follow(t, Redoing))
  {
    RedoMatches(s.undoStack, s.redoStack, s.active, t);
  }

  lemma UndoOn<V(!new)>(convert: (Key, V) -> Option<V>, s: State<V>, t: Timeline<V>)
    requires Good(convert, s) && Ready(s) && On(s, t)
    ensures On(Undo(s), Follow(t, Undoing))
  {
    CloseOn(convert, s, t);
    if EndAction(s).undoStack != [] {
      UndoEffect(convert, s);
      UndoneOn(EndAction(s), Undo(s), Close(t));
    }
  }

  lemma RedoOn<V(!new)>(convert: (Key, V) -> Option<V>, s: State<V>, t: Timeline<V>)
    requires Good(convert, s) && Ready(s) && On(s, t) && (t.future != [] || s.redoStack == [])
    ensures On(Redo(s), Follow(t, Redoing))
  {
    if t.future != [] {
      RedoEffect(convert, s);
      RedoneOn(s, Redo(s), t);
    }
  }

  lemma FitsSnoc<V>(v: Valuation<V>, a: Action<V>, c: Change<V>)
    requires Fits(v, a) && c.key in Forward(v, a) && Forward(v, a)[c.key] == c.oldValue
    ensures Fits(v, a + [c]) && Forward(v, a + [c]) == Forward(v, a)[c.key := c.newValue]
  {
    assert (a + [c])[..|a|] == a;
  }

  /** Initialized, and between two calls. */
  ghost predicate Live<V(!new)>(convert: (Key, V) -> Option<V>, s: State<V>) {
    Good(convert, s) && s.initialized && !s.ignoreChanges
  }

  /** What an edit that changes an actionable node does: it joins the open group or makes an action of its own. */
  ghost predicate Edited<V>(s: State<V>, r: State<V>, c: Change<V>) {
    && Vals(r.nodes) == Vals(s.nodes)[c.key := c.newValue]
    && r.redoStack == s.redoStack
    && match s.active
       case Some(a) => r.active == Some(a + [c]) && r.undoStack == s.undoStack
       case None => r.active.None? && r.undoStack == Limit(s.undoStack + [[c]])
  }

  lemma EditEffect<V(!new)>(convert: (Key, V) -> Option<V>, s: State<V>, k: Key, v: V)
    requires Live(convert, s) && k in s.nodes && s.nodes[k].actionable && s.nodes[k].value != v
    ensures Edited(s, SetValue(s, k, v), Change(k, s.nodes[k].value, v))
  {
    SetVals(s, k, v);
  }

  lemma FitsOne<V>(v: Valuation<V>, c: Change<V>)
    requires c.key in v && v[c.key] == c.oldValue
    ensures Fits(v, [c]) && Forward(v, [c]) == v[c.key := c.newValue]
  {
    assert [c][..0] == [];
  }

  lemma OpenEditOn<V>(s: State<V>, r: State<V>, t: Timeline<V>, c: Change<V>)
    requires On(s, t) && Edited(s, r, c) && s.active.Some?
    requires c.key in t.now && t.now[c.key] == c.oldValue && c.oldValue != c.newValue
    ensures On(r, Follow(t, Edit(c.key, c.newValue)))
  {
    FitsSnoc(t.past[|t.past| - 1], s.active.value, c);
  }

  lemma LoneEditOn<V>(s: State<V>, r: State<V>, t: Timeline<V>, c: Change<V>)
    requires On(s, t) && Edited(s, r, c) && s.active.None? && |s.undoStack| <= LIMIT
    requires c.key in t.now && t.now[c.key] == c.oldValue && c.oldValue != c.newValue
    ensures On(r, Follow(t, Edit(c.key, c.newValue)))
  {
    var now := t.now[c.key := c.newValue];
    assert t.past[|t.past| - 1] == t.now;
    FitsOne(t.now, c);
    ChainPush(s.undoStack, t.past, [c], now);
    ClosedMatches(r.undoStack, r.redoStack, Follow(t, Edit(c.key, c.newValue)));
  }

  lemma SetOther<V>(s: State<V>, k: Key, v: V)
    requires k in s.nodes && !s.nodes[k].actionable
    ensures Vals(SetValue(s, k, v).nodes) == Vals(s.nodes)
  {
  }

  lemma EditOn<V(!new)>(convert: (Key, V) -> Option<V>, s: State<V>, t: Timeline<V>, k: Key, v: V)
    requires Live(convert, s) && On(s, t) && k in s.nodes
    ensures On(SetValue(s, k, v), Follow(t, Edit(k, v)))
  {
    ValsKeys(s.nodes, k);
    if s.nodes[k].value != v {
      if s.nodes[k].actionable {
        EditEffect(convert, s, k, v);
        var c := Change(k, s.nodes[k].value, v);
        if s.active.Some? {
          OpenEditOn(s, SetValue(s, k, v), t, c);
        } else {
          LoneEditOn(s, SetValue(s, k, v), t, c);
        }
      } else {
        SetOther(s, k, v);
      }
    }
  }

  // ---- runs ----

  ghost predicate Applies<V(!new)>(convert: (Key, V) -> Option<V>, nodes: map<Key, Node<V>>, op: Op<V>) {
    op.Edit? ==> op.key in nodes && Typed(convert, op.key, op.value)
  }

  ghost predicate AllApply<V(!new)>(convert: (Key, V) -> Option<V>, nodes: map<Key, Node<V>>, ops: seq<Op<V>>) {
    forall i :: 0 <= i < |ops| ==> Applies(convert, nodes, ops[i])
  }

  /** A call of the model. A reset to the default is an edit with the default value. */
  ghost function Do<V>(s: State<V>, op: Op<V>): State<V>
    requires Ready(s) && (op.Edit? ==> op.key in s.nodes)
  {
    match op
    case Edit(k, v) => SetValue(s, k, v)
    case Start => StartAction(s)
    case End => EndAction(s)
    case Undoing => Undo(s)
    case Redoing => Redo(s)
  }

  lemma LiveUndo<V(!new)>(convert: (Key, V) -> Option<V>, s: State<V>)
    requires Live(convert, s)
    ensures Ready(s) && Live(convert, Undo(s)) && SameNodes(s.nodes, Undo(s).nodes)
  {
    GoodUndo(convert, s);
    if EndAction(s).undoStack != [] {
      UndoEffect(convert, s);
    }
  }

  lemma LiveRedo<V(!new)>(convert: (Key, V) -> Option<V>, s: State<V>)
    requires Live(convert, s)
    ensures Ready(s) && Live(convert, Redo(s)) && SameNodes(s.nodes, Redo(s).nodes)
  {
    GoodRedo(convert, s);
    if s.redoStack != [] {
      RedoEffect(convert, s);
    }
  }

  lemma LiveDo<V(!new)>(convert: (Key, V) -> Option<V>, s: State<V>, op: Op<V>)
    requires Live(convert, s) && Applies(convert, s.nodes, op)
    ensures Ready(s) && Live(convert, Do(s, op)) && SameNodes(s.nodes, Do(s, op).nodes)
  {
    GoodIsReady(convert, s);
    match op
    case Edit(k, v) => GoodSetValue(convert, s, k, v);
    case Start => GoodEndAction(convert, s);
    case End => GoodEndAction(convert, s);
    case Undoing => LiveUndo(convert, s);
    case Redoing => LiveRedo(convert, s);
  }

  /** Every state of every run of calls: among other things the store reloads to the live values in it, and both
      stacks stay within 100. */
  ghost function Run<V(!new)>(convert: (Key, V) -> Option<V>, s: State<V>, ops: seq<Op<V>>): (r: State<V>)
    requires Live(convert, s) && AllApply(convert, s.nodes, ops)
    ensures Live(convert, r) && SameNodes(s.nodes, r.nodes)
    decreases |ops|
  {
    if ops == [] then s
    else
      var before := Run(convert, s, ops[..|ops| - 1]);
      LiveDo(convert, before, ops[|ops| - 1]);
      Do(before, ops[|ops| - 1])
  }

  /** No redo of an action that an edit has come after: what redo would repeat lies ahead on the timeline, or
      there is nothing to redo. */
  ghost predicate Legal<V(!new)>(convert: (Key, V) -> Option<V>, s: State<V>, t: Timeline<V>, ops: seq<Op<V>>)
    requires Live(convert, s) && AllApply(convert, s.nodes, ops)
    decreases |ops|
  {
    ops != [] ==>
      var first := ops[..|ops| - 1];
      && Legal(convert, s, t, first)
      && (ops[|ops| - 1] == Redoing ==> FollowAll(t, first).future != [] || Run(convert, s, first).redoStack == [])
  }

  lemma DoOn<V(!new)>(convert: (Key, V) -> Option<V>, s: State<V>, t: Timeline<V>, op: Op<V>)
    requires Live(convert, s) && Applies(convert, s.nodes, op) && Ready(s) && On(s, t)
    requires op == Redoing ==> t.future != [] || s.redoStack == []
    ensures On(Do(s, op), Follow(t, op))
  {
    match op
    case Edit(k, v) => EditOn(convert, s, t, k, v);
    case Start =>
    case End => CloseOn(convert, s, t);
    case Undoing => UndoOn(convert, s, t);
    case Redoing => RedoOn(convert, s, t);
  }

  /** The model follows the timeline through every such run. */
  lemma {:induction false} RunFollows<V(!new)>(convert: (Key, V) -> Option<V>, s: State<V>, t: Timeline<V>,
                                        ops: seq<Op<V>>)
    requires Live(convert, s) && On(s, t) && AllApply(convert, s.nodes, ops)
    requires Legal(convert, s, t, ops)
    ensures On(Run(convert, s, ops), FollowAll(t, ops))
    decreases |ops|
  {
    if ops != [] {
      var first, op := ops[..|ops| - 1], ops[|ops| - 1];
      RunFollows(convert, s, t, first);
      LiveDo(convert, Run(convert, s, first), op);
      DoOn(convert, Run(convert, s, first), FollowAll(t, first), op);
    }
  }

  function Beginning<V>(s: State<V>): Timeline<V> {
    Timeline([Vals(s.nodes)], Vals(s.nodes), false, [])
  }

  lemma StartsOn<V(!new)>(convert: (Key, V) -> Option<V>, s: State<V>)
    requires Converts(convert) && Fresh(convert, s)
    ensures var t := Initialize(convert, s);
            Live(convert, t) && On(t, Beginning(t)) && t.nodes.Keys == s.nodes.Keys
  {
    InitializeIsGood(convert, s);
    var t := Initialize(convert, s);
    ClosedMatches(t.undoStack, t.redoStack, Beginning(t));
  }

  ghost predicate OnlyReplays<V>(ops: seq<Op<V>>) {
    forall i :: 0 <= i < |ops| ==> ops[i].Undoing? || ops[i].Redoing?
  }

  lemma OthersKeptByBoth<V>(s: State<V>, m: State<V>, r: State<V>)
    requires OthersKept(s, m) && OthersKept(m, r)
    ensures OthersKept(s, r)
  {
  }

  lemma ReplayKeepsOthers<V(!new)>(convert: (Key, V) -> Option<V>, s: State<V>, op: Op<V>)
    requires Good(convert, s) && Ready(s) && (op.Undoing? || op.Redoing?)
    ensures OthersKept(s, Do(s, op))
  {
    if op.Undoing? && EndAction(s).undoStack != [] {
      UndoEffect(convert, s);
    }
    if op.Redoing? && s.redoStack != [] {
      RedoEffect(convert, s);
    }
  }

  /** Nodes that are not actionable never change by undoing and redoing. */
  lemma {:induction false} ReplaysKeepOthers<V(!new)>(convert: (Key, V) -> Option<V>, s: State<V>, ops: seq<Op<V>>)
    requires Live(convert, s) && AllApply(convert, s.nodes, ops) && OnlyReplays(ops)
    ensures OthersKept(s, Run(convert, s, ops))
    decreases |ops|
  {
    if ops != [] {
      var m := Run(convert, s, ops[..|ops| - 1]);
      ReplaysKeepOthers(convert, s, ops[..|ops| - 1]);
      LiveDo(convert, m, ops[|ops| - 1]);
      ReplayKeepsOthers(convert, m, ops[|ops| - 1]);
      OthersKeptByBoth(s, m, Do(m, ops[|ops| - 1]));
    }
  }

  lemma {:induction false} UndosAreLegal<V(!new)>(convert: (Key, V) -> Option<V>, s: State<V>, t: Timeline<V>, n: nat)
    requires Live(convert, s)
    ensures AllApply(convert, s.nodes, Undos(n)) && Legal(convert, s, t, Undos(n))
  {
    if n > 0 {
      UndosAreLegal(convert, s, t, n - 1);
      assert Undos<V>(n)[..n - 1] == Undos(n - 1);
    }
  }

  /** From state r, n undos rewind the actionable nodes to their values n actions ago and touch no other node. */
  ghost predicate Rewinds<V(!new)>(convert: (Key, V) -> Option<V>, r: State<V>, past: seq<Valuation<V>>, n: nat)
    requires Live(convert, r)
  {
    && AllApply(convert, r.nodes, Undos(n)) && n < |past|
    && Vals(Run(convert, r, Undos(n)).nodes) == past[|past| - 1 - n]
    && OthersKept(r, Run(convert, r, Undos(n)))
  }

  lemma RewindsFrom<V(!new)>(convert: (Key, V) -> Option<V>, r: State<V>, t: Timeline<V>, n: nat)
    requires Live(convert, r) && On(r, t) && !t.open && n <= |r.undoStack|
    ensures Rewinds(convert, r, t.past, n)
  {
    UndosAreLegal(convert, r, t, n);
    RunFollows(convert, r, t, Undos(n));
    UndosRewind(t, n);
    ReplaysKeepOthers(convert, r, Undos(n));
  }

  /** After any run that redoes nothing stale and leaves no group open, for every n up to the number of actions kept. */
  lemma RewindsRun<V(!new)>(convert: (Key, V) -> Option<V>, s: State<V>, t: Timeline<V>, ops: seq<Op<V>>, n: nat)
    requires Live(convert, s) && On(s, t) && AllApply(convert, s.nodes, ops) && Legal(convert, s, t, ops)
    requires !FollowAll(t, ops).open && n <= |Run(convert, s, ops).undoStack|
    ensures Rewinds(convert, Run(convert, s, ops), FollowAll(t, ops).past, n)
  {
    RunFollows(convert, s, t, ops);
    RewindsFrom(convert, Run(convert, s, ops), FollowAll(t, ops), n);
  }

  /** A new model, initialized. */
  ghost function Begun<V(!new)>(convert: (Key, V) -> Option<V>, s: State<V>): (t: State<V>)
    requires Converts(convert) && Fresh(convert, s)
    ensures Live(convert, t) && On(t, Beginning(t)) && t.nodes.Keys == s.nodes.Keys
  {
    StartsOn(convert, s);
    Initialize(convert, s)
  }

  /** And for a new model from its first call on; the first values are those it has loaded from the store. */
  lemma RewindsFromStart<V(!new)>(convert: (Key, V) -> Option<V>, s: State<V>, t: State<V>, ops: seq<Op<V>>, n: nat)
    requires Converts(convert) && Fresh(convert, s) && t == Begun(convert, s)
    requires AllApply(convert, t.nodes, ops) && Legal(convert, t, Beginning(t), ops)
    requires !FollowAll(Beginning(t), ops).open && n <= |Run(convert, t, ops).undoStack|
    ensures Rewinds(convert, Run(convert, t, ops), FollowAll(Beginning(t), ops).past, n)
  {
    RewindsRun(convert, t, Beginning(t), ops, n);
  }

  lemma SameVals<V>(s: State<V>, r: State<V>)
    requires OthersKept(s, r)
    ensures s.nodes == r.nodes <==> Vals(s.nodes) == Vals(r.nodes)
  {
    if Vals(s.nodes) == Vals(r.nodes) {
      forall k | k in s.nodes ensures s.nodes[k] == r.nodes[k] {
        ValsKeys(s.nodes, k);
        ValsKeys(r.nodes, k);
      }
      SameMap(s.nodes, r.nodes);
    }
  }

  lemma BackAndForth<V>(t: Timeline<V>)
    requires |Close(t).past| >= 2 && Close(t).past[|Close(t).past| - 1] == t.now
    ensures Follow(t, Undoing).future != [] && Follow(Follow(t, Undoing), Redoing).now == t.now
  {
    UndoOnce(Close(t));
  }

  lemma UndoThenRedoOn<V(!new)>(convert: (Key, V) -> Option<V>, s: State<V>, t: Timeline<V>)
    requires Live(convert, s) && On(s, t) && EndAction(s).undoStack != []
    ensures Ready(s) && Live(convert, Undo(s)) && Ready(Undo(s)) && Vals(Redo(Undo(s)).nodes) == Vals(s.nodes)
  {
    LiveUndo(convert, s);
    GoodIsReady(convert, Undo(s));
    CloseOn(convert, s, t);
    BackAndForth(t);
    UndoOn(convert, s, t);
    RedoOn(convert, Undo(s), Follow(t, Undoing));
  }

  lemma RedoKeepsOthers<V(!new)>(convert: (Key, V) -> Option<V>, s: State<V>, m: State<V>)
    requires OthersKept(s, m) && Good(convert, m) && Ready(m)
    ensures OthersKept(s, Redo(m))
  {
    if m.redoStack != [] {
      RedoEffect(convert, m);
      OthersKeptByBoth(s, m, Redo(m));
    }
  }

  /** Undo followed by redo leaves every node as it was. */
  lemma UndoThenRedo<V(!new)>(convert: (Key, V) -> Option<V>, s: State<V>, t: Timeline<V>)
    requires Live(convert, s) && On(s, t) && EndAction(s).undoStack != []
    ensures Ready(s) && Ready(Undo(s)) && Redo(Undo(s)).nodes == s.nodes
  {
    UndoThenRedoOn(convert, s, t);
    UndoEffect(convert, s);
    RedoKeepsOthers(convert, s, Undo(s));
    SameVals(s, Redo(Undo(s)));
  }

  // ---- redo after an edit ----

  /** The old value of the first change of a node. */
  function FirstOld<V>(a: Action<V>, k: Key): Option<V>
    decreases |a|
  {
    if a == [] then None
    else
      match FirstOld(a[..|a| - 1], k)
      case Some(v) => Some(v)
      case None => if a[|a| - 1].key == k then Some(a[|a| - 1].oldValue) else None
  }

  ghost predicate InDomain<V>(v: Valuation<V>, a: Action<V>) {
    forall i :: 0 <= i < |a| ==> a[i].key in v
  }

  lemma {:induction false} BackwardAt<V>(v: Valuation<V>, a: Action<V>, k: Key)
    requires InDomain(v, a) && k in v
    ensures Backward(v, a).Keys == v.Keys
    ensures Backward(v, a)[k] == if FirstOld(a, k).Some? then FirstOld(a, k).value else v[k]
    decreases |a|
  {
    if a != [] {
      var c := a[|a| - 1];
      BackwardAt(v[c.key := c.oldValue], a[..|a| - 1], k);
    }
  }

  lemma {:induction false} ForwardAt<V>(v: Valuation<V>, a: Action<V>, k: Key)
    requires InDomain(v, a) && k in v
    ensures Forward(v, a).Keys == v.Keys
    ensures FirstOld(a, k).None? ==> Forward(v, a)[k] == v[k]
    decreases |a|
  {
    if a != [] {
      ForwardAt(v, a[..|a| - 1], k);
    }
  }

  /** Every node the action touches has, in v, the old value of its first change. */
  ghost predicate StartsFrom<V>(v: Valuation<V>, a: Action<V>) {
    forall k :: k in v && FirstOld(a, k).Some? ==> FirstOld(a, k).value == v[k]
  }

  lemma BackAgainExact<V>(v: Valuation<V>, a: Action<V>)
    requires InDomain(v, a)
    ensures Backward(Forward(v, a), a) == v <==> StartsFrom(v, a)
  {
    var r := Backward(Forward(v, a), a);
    forall k | k in v
      ensures Forward(v, a).Keys == v.Keys && r.Keys == v.Keys
      ensures r[k] == if FirstOld(a, k).Some? then FirstOld(a, k).value else v[k]
    {
      ForwardAt(v, a, k);
      BackwardAt(Forward(v, a), a, k);
    }
    if a != [] {
      ForwardAt(v, a, a[0].key);
      BackwardAt(Forward(v, a), a, a[0].key);
    }
    if StartsFrom(v, a) {
      SameMap(r, v);
    }
  }

  lemma ActionInDomain<V(!new)>(convert: (Key, V) -> Option<V>, nodes: map<Key, Node<V>>, a: Action<V>)
    requires GoodAction(convert, nodes, a)
    ensures InDomain(Vals(nodes), a)
  {
    forall i | 0 <= i < |a| ensures a[i].key in Vals(nodes) {
      ValsKeys(nodes, a[i].key);
    }
  }

  lemma RedoneThenUndone<V>(s: State<V>, m: State<V>, r: State<V>)
    requires Redone(s, m) && m.active.None? && Undone(m, r)
    ensures var a := s.redoStack[|s.redoStack| - 1];
            Vals(r.nodes) == Backward(Forward(Vals(s.nodes), a), a)
  {
  }

  /** Redo is exact only where it belongs: undoing it gives the nodes back if and only if each node it touches has
      the value the action started from. An edit made after the undo does not clear the redo stack, so this can fail. */
  lemma RedoThenUndoExact<V(!new)>(convert: (Key, V) -> Option<V>, s: State<V>)
    requires Live(convert, s) && s.active.None? && s.redoStack != []
    ensures Ready(s) && Ready(Redo(s))
    ensures Undo(Redo(s)).nodes == s.nodes <==> StartsFrom(Vals(s.nodes), s.redoStack[|s.redoStack| - 1])
  {
    LiveRedo(convert, s);
    GoodIsReady(convert, Redo(s));
    RedoEffect(convert, s);
    UndoEffect(convert, Redo(s));
    OthersKeptByBoth(s, Redo(s), Undo(Redo(s)));
    SameVals(s, Undo(Redo(s)));
    RedoneThenUndone(s, Redo(s), Undo(Redo(s)));
    assert s.redoStack[|s.redoStack| - 1] in s.redoStack;
    ActionInDomain(convert, s.nodes, s.redoStack[|s.redoStack| - 1]);
    BackAgainExact(Vals(s.nodes), s.redoStack[|s.redoStack| - 1]);
  }

  lemma OneChange<V>(v: Valuation<V>, c: Change<V>)
    ensures Backward(v, [c]) == v[c.key := c.oldValue] && Forward(v, [c]) == v[c.key := c.newValue]
  {
    assert [c][..0] == [];
  }

  lemma LastKept<T>(xs: seq<T>, x: T)
    ensures Limit(xs + [x]) != [] && Limit(xs + [x])[|Limit(xs + [x])| - 1] == x
  {
  }

  lemma UndoneEdit<V>(s: State<V>, edited: State<V>, undone: State<V>, c: Change<V>)
    requires s.active.None? && Edited(s, edited, c) && Undone(edited, undone)
    ensures undone.redoStack != [] && undone.redoStack[|undone.redoStack| - 1] == [c] && undone.active.None?
    ensures Vals(undone.nodes) == Vals(s.nodes)[c.key := c.newValue][c.key := c.oldValue]
  {
    LastKept(s.undoStack, [c]);
    LastKept(edited.redoStack, [c]);
    OneChange(Vals(edited.nodes), c);
  }

  /** The values that edit c, undo, edit d of the same node, redo, undo lead through, as the effects of the calls
      say. */
  lemma StaleValues<V>(s: State<V>, edited: State<V>, undone: State<V>, again: State<V>, redone: State<V>, r: State<V>,
                       c: Change<V>, d: Change<V>)
    requires s.active.None? && d.key == c.key && c.key in Vals(s.nodes)
    requires Edited(s, edited, c) && Undone(edited, undone) && Edited(undone, again, d)
    requires Redone(again, redone) && Undone(redone, r)
    ensures d.key in Vals(again.nodes) && Vals(again.nodes)[d.key] == d.newValue
    ensures c.key in Vals(r.nodes) && Vals(r.nodes)[c.key] == c.oldValue
  {
    UndoneEdit(s, edited, undone, c);
    RedoneThenUndone(again, redone, r);
    OneChange(Vals(again.nodes), c);
    OneChange(Vals(redone.nodes), c);
  }

  /** The first edit and its undo. */
  lemma EditThenUndo<V(!new)>(convert: (Key, V) -> Option<V>, s: State<V>, k: Key, v: V)
    requires Live(convert, s) && s.active.None? && k in s.nodes && s.nodes[k].actionable
    requires Typed(convert, k, v) && v != s.nodes[k].value
    ensures var e, c := SetValue(s, k, v), Change(k, s.nodes[k].value, v);
            && Edited(s, e, c) && Ready(e) && Undone(e, Undo(e)) && Live(convert, Undo(e))
  {
    EditEffect(convert, s, k, v);
    LiveDo(convert, s, Edit(k, v));
    var e := SetValue(s, k, v);
    LiveUndo(convert, e);
    LastKept(s.undoStack, [Change(k, s.nodes[k].value, v)]);
    UndoEffect(convert, e);
  }

  /** Redo of what was undone before the second edit, and its undo. */
  lemma RedoThenUndo<V(!new)>(convert: (Key, V) -> Option<V>, a: State<V>)
    requires Live(convert, a) && a.active.None? && a.redoStack != []
    ensures Ready(a) && Ready(Redo(a)) && Redone(a, Redo(a)) && Undone(Redo(a), Undo(Redo(a)))
  {
    LiveRedo(convert, a);
    RedoEffect(convert, a);
    LiveUndo(convert, Redo(a));
    LastKept(a.undoStack, a.redoStack[|a.redoStack| - 1]);
    UndoEffect(convert, Redo(a));
  }

  /** Edit, undo, edit, redo, undo, in any state with no group open: the node is back at the value before the first
      edit, and the second edit is lost. */
  lemma StaleRedoLosesEdit<V(!new)>(convert: (Key, V) -> Option<V>, s: State<V>, k: Key, v: V, w: V)
    requires Live(convert, s) && s.active.None? && k in s.nodes && s.nodes[k].actionable
    requires Typed(convert, k, v) && Typed(convert, k, w) && v != s.nodes[k].value && w != s.nodes[k].value
    ensures Ready(SetValue(s, k, v))
    ensures var u := Undo(SetValue(s, k, v));
            k in u.nodes && Ready(SetValue(u, k, w)) && Ready(Redo(SetValue(u, k, w)))
    ensures var a := SetValue(Undo(SetValue(s, k, v)), k, w);
            && k in a.nodes && a.nodes[k].value == w
            && k in Undo(Redo(a)).nodes && Undo(Redo(a)).nodes[k].value == s.nodes[k].value
  {
    EditThenUndo(convert, s, k, v);
    StaleRedoAfter(convert, s, SetValue(s, k, v), Undo(SetValue(s, k, v)), k, v, w);
  }

  lemma StaleRedoAfter<V(!new)>(convert: (Key, V) -> Option<V>, s: State<V>, e: State<V>, u: State<V>,
                                k: Key, v: V, w: V)
    requires s.active.None? && k in s.nodes && s.nodes[k].actionable && Live(convert, u) && Typed(convert, k, w)
    requires Edited(s, e, Change(k, s.nodes[k].value, v)) && Undone(e, u) && w != s.nodes[k].value
    ensures k in u.nodes && Ready(SetValue(u, k, w)) && Ready(Redo(SetValue(u, k, w)))
    ensures var a := SetValue(u, k, w);
            && k in a.nodes && a.nodes[k].value == w
            && k in Undo(Redo(a)).nodes && Undo(Redo(a)).nodes[k].value == s.nodes[k].value
  {
    var c := Change(k, s.nodes[k].value, v);
    ValsKeys(s.nodes, k);
    UndoneEdit(s, e, u, c);
    ValsKeys(u.nodes, k);
    EditEffect(convert, u, k, w);
    LiveDo(convert, u, Edit(k, w));
    var a := SetValue(u, k, w);
    RedoThenUndo(convert, a);
    StaleValues(s, e, u, a, Redo(a), Undo(Redo(a)), c, Change(k, u.nodes[k].value, w));
    ValsKeys(a.nodes, k);
    ValsKeys(Undo(Redo(a)).nodes, k);
  }
}
