/** desktop/src/qtc: Model, the methods of the class. Each leaves the state the functions of UndoRedo give. */
module Models {
  import opened Wrappers
  import opened Records = UndoRedo

  method LimitActions<T>(actions: seq<T>) returns (r: seq<T>)
    ensures r == Limit(actions)
    ensures r == if |actions| > 100 then actions[|actions| - 100..] else actions
  {
    r := actions;
    while |r| > LIMIT
      invariant |r| <= |actions| && r == actions[|actions| - |r|..]
      invariant |r| < |actions| ==> |r| >= LIMIT
    {
      r := r[1..];
    }
  }

  class Model<V(==)> {
    var nodes: map<Key, Node<V>>
    var settings: map<SettingsPath, V>
    var undoStack: seq<Action<V>>
    var redoStack: seq<Action<V>>
    var active: Option<Action<V>>
    var ignoreChanges: bool
    var initialized: bool

    function Now(): State<V>
      reads this
    {
      State(nodes, settings, undoStack, redoStack, active, ignoreChanges, initialized)
    }

    constructor (nodes: map<Key, Node<V>>, settings: map<SettingsPath, V>)
      ensures Now() == State(nodes, settings, [], [], None, true, false)
    {
      this.nodes, this.settings := nodes, settings;
      undoStack, redoStack, active := [], [], None;
      ignoreChanges, initialized := true, false;
    }

    method StartAction()
      modifies this
      ensures Now() == Records.StartAction(old(Now()))
    {
      if active.None? {
        active := Some([]);
      }
    }

    method EndAction()
      modifies this
      ensures Now() == Records.EndAction(old(Now()))
    {
      if active.Some? {
        undoStack := undoStack + [active.value];
        active := None;
        undoStack := LimitActions(undoStack);
      }
    }

    method TrackValueChange(k: Key, v: V)
      requires k in nodes
      modifies this
      ensures Now() == Track(old(Now()), k, v)
    {
      if !initialized {
        return;
      }
      if nodes[k].actionable && !ignoreChanges {
        var groupingChanges := active.Some?;
        if !groupingChanges {
          StartAction();
        }
        var change := Change(k, nodes[k].value, v);
        assert [] + [change] == [change];
        active := Some(active.value + [change]);
        if !groupingChanges {
          EndAction();
        }
      }
      if nodes[k].persistent {
        if v == nodes[k].default_ {
          settings := Forget(settings, FullPath(k));
        } else {
          settings := settings[FullPath(k) := v];
        }
      }
    }

    /** The node is given the value, after the change has been tracked. */
    method SetValueUnsafe(k: Key, v: V)
      requires k in nodes
      modifies this
      ensures Now() == Records.SetValue(old(Now()), k, v)
    {
      if nodes[k].value != v {
        TrackValueChange(k, v);
        nodes := nodes[k := nodes[k].(value := v)];
      }
    }

    method SetValue(k: Key, v: V)
      requires k in nodes
      modifies this
      ensures Now() == Records.SetValue(old(Now()), k, v)
      ensures nodes == old(nodes)[k := old(nodes[k]).(value := v)]
      ensures !old(nodes[k]).persistent ==> settings == old(settings)
      ensures !old(nodes[k]).actionable ==> undoStack == old(undoStack) && active == old(active)
      ensures redoStack == old(redoStack)
    {
      EditSets(Now(), k, v);
      EditRecords(Now(), k, v);
      EditStores(Now(), k, v);
      SetValueUnsafe(k, v);
    }

    method AssignDefault(k: Key)
      requires k in nodes
      modifies this
      ensures Now() == Records.SetValue(old(Now()), k, old(nodes[k].default_))
      ensures nodes == old(nodes)[k := old(nodes[k]).(value := old(nodes[k].default_))]
      ensures !old(nodes[k]).persistent ==> settings == old(settings)
      ensures !old(nodes[k]).actionable ==> undoStack == old(undoStack) && active == old(active)
      ensures redoStack == old(redoStack)
    {
      SetValue(k, nodes[k].default_);
    }

    method Initialize(convert: (Key, V) -> Option<V>)
      modifies this
      ensures Now() == Records.Initialize(convert, old(Now()))
    {
      if !initialized {
        LoadNodes(convert);
        ignoreChanges := false;
        initialized := true;
        SameMap(nodes, Records.Initialize(convert, old(Now())).nodes);
      }
    }

    method LoadNode(convert: (Key, V) -> Option<V>, k: Key)
      requires !initialized && k in nodes
      modifies this
      ensures Now() == old(Now()).(nodes := old(nodes)[k := old(nodes[k]).(value :=
                Load(convert, settings, k, old(nodes[k])))])
    {
      SetValueUnsafe(k, Load(convert, settings, k, nodes[k]));
      SameMap(nodes, old(nodes)[k := nodes[k]]);
    }

    /** The loop of initialize, in any order of the nodes. */
    method LoadNodes(convert: (Key, V) -> Option<V>)
      requires !initialized
      modifies this
      ensures Now() == old(Now()).(nodes := nodes) && nodes.Keys == old(nodes.Keys)
      ensures forall k :: k in nodes ==> nodes[k] == old(nodes)[k].(value := Load(convert, settings, k, old(nodes)[k]))
    {
      ghost var was := Now();
      var left := nodes.Keys;
      while left != {}
        invariant left <= nodes.Keys == was.nodes.Keys
        invariant Now() == was.(nodes := nodes)
        invariant forall k :: k in left ==> nodes[k] == was.nodes[k]
        invariant forall k :: k in nodes && k !in left ==>
          nodes[k] == was.nodes[k].(value := Load(convert, was.settings, k, was.nodes[k]))
        decreases |left|
      {
        var k :| k in left;
        LoadNode(convert, k);
        left := left - {k};
      }
    }

    /** One assignment of those that undo or redo make from the state `begun` on. */
    method Replay(ghost begun: State<V>, ghost xs: seq<Assignment<V>>, ghost j: nat, k: Key, v: V)
      requires Known(begun.nodes, xs) && j < |xs| && xs[j] == Assignment(k, v) && Now() == Assign(begun, xs[..j])
      modifies this
      ensures Now() == Assign(begun, xs[..j + 1])
    {
      AssignNext(begun, xs, j);
      assert xs[j] in xs;
      SetValueUnsafe(k, v);
    }

    /** The old values of an action, last change first. */
    method TakeBack(action: Action<V>)
      requires forall c :: c in action ==> c.key in nodes
      modifies this
      ensures Known(old(nodes), Olds(action)) && Now() == Assign(old(Now()), Olds(action))
    {
      ghost var begun, xs, j: nat := Now(), Olds(action), 0;
      var i := |action|;
      while i > 0
        invariant 0 <= i <= |action| && j + i == |action| && Known(begun.nodes, xs)
        invariant Now() == Assign(begun, xs[..j])
      {
        i := i - 1;
        Replay(begun, xs, j, action[i].key, action[i].oldValue);
        j := j + 1;
      }
      assert xs[..|action|] == xs;
    }

    /** The new values of an action, first change first. */
    method Repeat(action: Action<V>)
      requires forall c :: c in action ==> c.key in nodes
      modifies this
      ensures Known(old(nodes), News(action)) && Now() == Assign(old(Now()), News(action))
    {
      ghost var begun, xs := Now(), News(action);
      var i := 0;
      while i < |action|
        invariant 0 <= i <= |action| && Known(begun.nodes, xs)
        invariant Now() == Assign(begun, xs[..i])
      {
        Replay(begun, xs, i, action[i].key, action[i].newValue);
        i := i + 1;
      }
      assert xs[..|action|] == xs;
    }

    method PushRedo(action: Action<V>)
      modifies this
      ensures Now() == old(Now()).(redoStack := Limit(old(redoStack) + [action]), ignoreChanges := false)
    {
      redoStack := redoStack + [action];
      redoStack := LimitActions(redoStack);
      ignoreChanges := false;
    }

    method PushUndo(action: Action<V>)
      modifies this
      ensures Now() == old(Now()).(undoStack := Limit(old(undoStack) + [action]), ignoreChanges := false)
    {
      undoStack := undoStack + [action];
      undoStack := LimitActions(undoStack);
      ignoreChanges := false;
    }

    method Undo()
      requires Ready(Now())
      modifies this
      ensures Now() == Records.Undo(old(Now()))
    {
      EndAction();
      if undoStack == [] {
        return;
      }
      var lastAction := undoStack[|undoStack| - 1];
      assert lastAction in undoStack;
      undoStack := undoStack[..|undoStack| - 1];
      ignoreChanges := true;
      TakeBack(lastAction);
      PushRedo(lastAction);
    }

    method Redo()
      requires Ready(Now())
      modifies this
      ensures Now() == Records.Redo(old(Now()))
    {
      if redoStack == [] {
        return;
      }
      var lastAction := redoStack[|redoStack| - 1];
      assert lastAction in redoStack;
      redoStack := redoStack[..|redoStack| - 1];
      ignoreChanges := true;
      Repeat(lastAction);
      PushUndo(lastAction);
    }
  }
}
