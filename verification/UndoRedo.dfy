/** desktop/src/qtc: Model and NodeBase, as a state and the functions its methods compute. Values are of
    any type V; `convert` is the conversion of a stored value to the type of a node. */
module UndoRedo {
  import opened Wrappers

  datatype Key = Key(endpoint: string, name: string)

  /** The settings store drops leading, trailing and repeated slashes of a path. What is left are its segments, and a
      setting is below another if the segments of that one are a prefix of its own. */
  type SettingsPath = seq<string>

  function SegmentsFrom(s: string, segment: string): SettingsPath {
    var ended := if segment == "" then [] else [segment];
    if s == "" then ended
    else if s[0] == '/' then ended + SegmentsFrom(s[1..], "")
    else SegmentsFrom(s[1..], segment + [s[0]])
  }

  function Segments(s: string): SettingsPath {
    SegmentsFrom(s, "")
  }

  lemma {:induction false} SegmentsFromPlain(s: string, segment: string)
    requires '/' !in s
    ensures SegmentsFrom(s, segment) == if segment + s == "" then [] else [segment + s]
  {
    if s == "" {
      assert segment + s == segment;
    } else {
      assert segment + s == segment + [s[0]] + s[1..];
      SegmentsFromPlain(s[1..], segment + [s[0]]);
    }
  }

  /** With PathJoins this determines the segments of every text. */
  lemma SegmentsPlain(s: string)
    requires '/' !in s
    ensures Segments(s) == if s == "" then [] else [s]
  {
    SegmentsFromPlain(s, "");
    assert "" + s == s;
  }

  function FullPath(k: Key): SettingsPath {
    Segments(k.endpoint + "/" + k.name)
  }

  lemma {:induction false} SegmentsJoin(a: string, segment: string, b: string)
    ensures SegmentsFrom(a + "/" + b, segment) == SegmentsFrom(a, segment) + Segments(b)
  {
    if a == "" {
      assert a + "/" + b == "/" + b && ("/" + b)[1..] == b;
    } else {
      assert (a + "/" + b)[1..] == a[1..] + "/" + b && (a + "/" + b)[0] == a[0];
      SegmentsJoin(a[1..], if a[0] == '/' then "" else segment + [a[0]], b);
    }
  }

  /** A path is the segments of the endpoint, then those of the name, wherever slashes are. */
  lemma PathJoins(k: Key)
    ensures FullPath(k) == Segments(k.endpoint) + Segments(k.name)
  {
    SegmentsJoin(k.endpoint, "", k.name);
  }

  datatype Node<V> = Node(value: V, default_: V, actionable: bool, persistent: bool)
  datatype Change<V> = Change(key: Key, oldValue: V, newValue: V)
  type Action<V> = seq<Change<V>>

  datatype State<V> = State(
    nodes: map<Key, Node<V>>,
    settings: map<SettingsPath, V>,
    undoStack: seq<Action<V>>,
    redoStack: seq<Action<V>>,
    active: Option<Action<V>>,
    ignoreChanges: bool,
    initialized: bool)

  const LIMIT := 100

  /** limitActions: drops the oldest. */
  function Limit<T>(actions: seq<T>): (r: seq<T>)
    ensures |r| <= LIMIT
  {
    if |actions| > LIMIT then actions[|actions| - LIMIT..] else actions
  }

  // ---- the operations ----

  function StartAction<V>(s: State<V>): State<V> {
    if s.active.None? then s.(active := Some([])) else s
  }

  function EndAction<V>(s: State<V>): State<V> {
    match s.active
    case Some(a) => s.(undoStack := Limit(s.undoStack + [a]), active := None)
    case None => s
  }

  /** A change joins the open action, or makes one of its own. */
  function Record<V>(s: State<V>, c: Change<V>): State<V> {
    match s.active
    case Some(a) => s.(active := Some(a + [c]))
    case None => s.(undoStack := Limit(s.undoStack + [[c]]))
  }

  /** Removing a setting removes all settings below it. */
  function Forget<V>(settings: map<SettingsPath, V>, path: SettingsPath): map<SettingsPath, V> {
    map p | p in settings && !(path <= p) :: settings[p]
  }

  /** The store forgets a value equal to the default. */
  function Store<V(==)>(settings: map<SettingsPath, V>, path: SettingsPath, v: V, default_: V): map<SettingsPath, V> {
    if v == default_ then Forget(settings, path) else settings[path := v]
  }

  /** trackValueChange */
  function Track<V(==)>(s: State<V>, k: Key, v: V): State<V>
    requires k in s.nodes
  {
    if !s.initialized then s
    else
      var n := s.nodes[k];
      var s1 := if n.actionable && !s.ignoreChanges then Record(s, Change(k, n.value, v)) else s;
      if n.persistent then s1.(settings := Store(s1.settings, FullPath(k), v, n.default_)) else s1
  }

  /** setValueUnsafe */
  function SetValue<V(==)>(s: State<V>, k: Key, v: V): State<V>
    requires k in s.nodes
  {
    if s.nodes[k].value == v then s
    else Track(s, k, v).(nodes := s.nodes[k := s.nodes[k].(value := v)])
  }

  // ---- what an edit does, in any state ----

  /** The node has the value, whatever its flags; all else about the nodes stays. */
  lemma EditSets<V>(s: State<V>, k: Key, v: V)
    requires k in s.nodes
    ensures SetValue(s, k, v).nodes == s.nodes[k := s.nodes[k].(value := v)]
    ensures SetValue(s, k, v).redoStack == s.redoStack && SetValue(s, k, v).ignoreChanges == s.ignoreChanges
    ensures SetValue(s, k, v).initialized == s.initialized
  {
    if s.nodes[k].value == v {
      assert s.nodes[k] == s.nodes[k].(value := v);
    }
  }

  /** The change is recorded if and only if it is one, of an actionable node, after initialize, and not made by undo or
      redo: it joins the open group, or is the newest of at most 100 actions. */
  lemma EditRecords<V>(s: State<V>, k: Key, v: V)
    requires k in s.nodes
    ensures var r, n, c := SetValue(s, k, v), s.nodes[k], Change(k, s.nodes[k].value, v);
            if n.value == v || !n.actionable || !s.initialized || s.ignoreChanges then
              r.undoStack == s.undoStack && r.active == s.active
            else if s.active.Some? then
              r.undoStack == s.undoStack && r.active == Some(s.active.value + [c])
            else
              var all := s.undoStack + [[c]];
              r.undoStack == (if |all| > 100 then all[|all| - 100..] else all) && r.active.None?
  {
  }

  /** The store changes if and only if the value of a persistent node does after initialize: it has the value at the
      node's path, or, for the default, nothing at the path and below it; and all else stays. */
  lemma EditStores<V>(s: State<V>, k: Key, v: V)
    requires k in s.nodes
    ensures var r, n := SetValue(s, k, v), s.nodes[k];
            if n.value == v || !n.persistent || !s.initialized then r.settings == s.settings
            else if v != n.default_ then r.settings == s.settings[FullPath(k) := v]
            else
              && (forall p :: p in r.settings <==> p in s.settings && !(FullPath(k) <= p))
              && forall p :: p in r.settings ==> r.settings[p] == s.settings[p]
  {
  }

  datatype Assignment<V> = Assignment(key: Key, value: V)

  ghost predicate Known<V>(nodes: map<Key, Node<V>>, xs: seq<Assignment<V>>) {
    forall x :: x in xs ==> x.key in nodes
  }

  ghost function Assign<V>(s: State<V>, xs: seq<Assignment<V>>): (r: State<V>)
    requires Known(s.nodes, xs)
    ensures r.nodes.Keys == s.nodes.Keys
    decreases |xs|
  {
    if xs == [] then s
    else SetValue(Assign(s, xs[..|xs| - 1]), xs[|xs| - 1].key, xs[|xs| - 1].value)
  }

  lemma AssignNext<V>(s: State<V>, xs: seq<Assignment<V>>, j: nat)
    requires Known(s.nodes, xs) && j < |xs|
    ensures Assign(s, xs[..j + 1]) == SetValue(Assign(s, xs[..j]), xs[j].key, xs[j].value)
  {
    assert xs[..j + 1][..j] == xs[..j];
  }

  /** What undo assigns: the old values, last change first. */
  function Olds<V>(a: Action<V>): (r: seq<Assignment<V>>)
    ensures |r| == |a| && forall i :: 0 <= i < |a| ==> r[i] == Assignment(a[|a| - 1 - i].key, a[|a| - 1 - i].oldValue)
  {
    seq(|a|, i requires 0 <= i < |a| => Assignment(a[|a| - 1 - i].key, a[|a| - 1 - i].oldValue))
  }

  /** What redo assigns: the new values, first change first. */
  function News<V>(a: Action<V>): (r: seq<Assignment<V>>)
    ensures |r| == |a| && forall i :: 0 <= i < |a| ==> r[i] == Assignment(a[i].key, a[i].newValue)
  {
    seq(|a|, i requires 0 <= i < |a| => Assignment(a[i].key, a[i].newValue))
  }

  /** Every recorded change is of a node the model has. */
  ghost predicate Ready<V>(s: State<V>) {
    && (forall a, c :: a in s.undoStack && c in a ==> c.key in s.nodes)
    && (forall a, c :: a in s.redoStack && c in a ==> c.key in s.nodes)
    && (s.active.Some? ==> forall c :: c in s.active.value ==> c.key in s.nodes)
  }

  /** What is left for undo to assign: the state after the open group is closed and the action is taken off the
      stack. */
  function BeginUndo<V>(s: State<V>): State<V> {
    var e := EndAction(s);
    if e.undoStack == [] then e else e.(undoStack := e.undoStack[..|e.undoStack| - 1], ignoreChanges := true)
  }

  function BeginRedo<V>(s: State<V>): State<V> {
    if s.redoStack == [] then s else s.(redoStack := s.redoStack[..|s.redoStack| - 1], ignoreChanges := true)
  }

  ghost function Undo<V>(s: State<V>): State<V>
    requires Ready(s)
  {
    var e := EndAction(s);
    if e.undoStack == [] then e
    else
      var a := e.undoStack[|e.undoStack| - 1];
      assert a in e.undoStack;
      var t := Assign(BeginUndo(s), Olds(a));
      t.(redoStack := Limit(t.redoStack + [a]), ignoreChanges := false)
  }

  ghost function Redo<V>(s: State<V>): State<V>
    requires Ready(s)
  {
    if s.redoStack == [] then s
    else
      var a := s.redoStack[|s.redoStack| - 1];
      assert a in s.redoStack;
      var t := Assign(BeginRedo(s), News(a));
      t.(undoStack := Limit(t.undoStack + [a]), ignoreChanges := false)
  }

  // ---- well-formed states ----

  /** A value of the node's type is what the conversion leaves alone. */
  ghost predicate Typed<V(!new)>(convert: (Key, V) -> Option<V>, k: Key, v: V) {
    convert(k, v) == Some(v)
  }

  ghost predicate GoodAction<V(!new)>(convert: (Key, V) -> Option<V>, nodes: map<Key, Node<V>>, a: Action<V>) {
    forall c :: c in a ==>
      c.key in nodes && nodes[c.key].actionable
      && Typed(convert, c.key, c.oldValue) && Typed(convert, c.key, c.newValue)
  }

  /** What loading a node from the store gives: the stored value if there is one that converts. */
  function Load<V>(convert: (Key, V) -> Option<V>, settings: map<SettingsPath, V>, k: Key, n: Node<V>): V {
    if FullPath(k) in settings then
      match convert(k, settings[FullPath(k)])
      case Some(v) => v
      case None => n.default_
    else n.default_
  }

  /** Loading every persistent node from the store gives its live value. */
  ghost predicate Reloads<V(!new)>(convert: (Key, V) -> Option<V>, s: State<V>) {
    forall k :: k in s.nodes && s.nodes[k].persistent ==> Load(convert, s.settings, k, s.nodes[k]) == s.nodes[k].value
  }

  /** No persistent node has the path of another one, or a path below it. */
  ghost predicate ApartPaths<V>(nodes: map<Key, Node<V>>) {
    forall k, k' ::
      k in nodes && k' in nodes && nodes[k].persistent && nodes[k'].persistent && FullPath(k) <= FullPath(k')
      ==> k == k'
  }

  ghost predicate GoodNodes<V(!new)>(convert: (Key, V) -> Option<V>, nodes: map<Key, Node<V>>) {
    && ApartPaths(nodes)
    && forall k :: k in nodes ==> Typed(convert, k, nodes[k].value) && Typed(convert, k, nodes[k].default_)
  }

  ghost predicate GoodStacks<V(!new)>(convert: (Key, V) -> Option<V>, nodes: map<Key, Node<V>>, s: State<V>) {
    && |s.undoStack| <= LIMIT && |s.redoStack| <= LIMIT
    && (forall a :: a in s.undoStack ==> GoodAction(convert, nodes, a))
    && (forall a :: a in s.redoStack ==> GoodAction(convert, nodes, a))
    && (s.active.Some? ==> GoodAction(convert, nodes, s.active.value))
  }

  /** Holds in every state: recorded changes are of actionable nodes and of their type, both stacks stay
      within 100, and once initialized the store reloads to the live values. */
  ghost predicate Good<V(!new)>(convert: (Key, V) -> Option<V>, s: State<V>) {
    GoodNodes(convert, s.nodes) && GoodStacks(convert, s.nodes, s) && (s.initialized ==> Reloads(convert, s))
  }

  /** Nodes differ only in their values. */
  ghost predicate SameNodes<V>(a: map<Key, Node<V>>, b: map<Key, Node<V>>) {
    a.Keys == b.Keys && forall k :: k in a ==> b[k] == a[k].(value := b[k].value)
  }

  lemma GoodRecord<V(!new)>(convert: (Key, V) -> Option<V>, nodes: map<Key, Node<V>>, s: State<V>, c: Change<V>)
    requires GoodStacks(convert, nodes, s) && GoodAction(convert, nodes, [c])
    ensures GoodStacks(convert, nodes, Record(s, c))
  {
    GoodPush(convert, nodes, s.undoStack, [c]);
  }

  lemma GoodPush<V(!new)>(convert: (Key, V) -> Option<V>, nodes: map<Key, Node<V>>, stack: seq<Action<V>>, a: Action<V>)
    requires (forall b :: b in stack ==> GoodAction(convert, nodes, b)) && GoodAction(convert, nodes, a)
    ensures forall b :: b in Limit(stack + [a]) ==> GoodAction(convert, nodes, b)
  {
    forall b | b in Limit(stack + [a]) ensures b in stack || b == a {
    }
  }

  lemma GoodEndAction<V(!new)>(convert: (Key, V) -> Option<V>, s: State<V>)
    requires Good(convert, s)
    ensures Good(convert, EndAction(s)) && Good(convert, StartAction(s))
  {
    if s.active.Some? {
      GoodPush(convert, s.nodes, s.undoStack, s.active.value);
    }
  }

  lemma SameNodesStacks<V(!new)>(convert: (Key, V) -> Option<V>, nodes: map<Key, Node<V>>, nodes': map<Key, Node<V>>,
                          s: State<V>)
    requires SameNodes(nodes, nodes') && GoodStacks(convert, nodes, s)
    ensures GoodStacks(convert, nodes', s)
  {
    forall a | GoodAction(convert, nodes, a) ensures GoodAction(convert, nodes', a) {
    }
  }

  lemma GoodTrack<V(!new)>(convert: (Key, V) -> Option<V>, s: State<V>, k: Key, v: V)
    requires Good(convert, s) && k in s.nodes && Typed(convert, k, v)
    ensures GoodStacks(convert, s.nodes, Track(s, k, v))
  {
    if s.initialized && s.nodes[k].actionable && !s.ignoreChanges {
      GoodRecord(convert, s.nodes, s, Change(k, s.nodes[k].value, v));
    }
  }

  lemma StoredReloads<V(!new)>(convert: (Key, V) -> Option<V>, s: State<V>, k: Key, v: V)
    requires GoodNodes(convert, s.nodes) && Reloads(convert, s) && k in s.nodes && Typed(convert, k, v)
    ensures var n := s.nodes[k];
            var settings := if n.persistent then Store(s.settings, FullPath(k), v, n.default_) else s.settings;
            Reloads(convert, s.(settings := settings, nodes := s.nodes[k := n.(value := v)]))
  {
  }

  lemma GoodSetValue<V(!new)>(convert: (Key, V) -> Option<V>, s: State<V>, k: Key, v: V)
    requires Good(convert, s) && k in s.nodes && Typed(convert, k, v)
    ensures Good(convert, SetValue(s, k, v)) && SameNodes(s.nodes, SetValue(s, k, v).nodes)
  {
    if s.nodes[k].value != v {
      var nodes := s.nodes[k := s.nodes[k].(value := v)];
      GoodTrack(convert, s, k, v);
      SameNodesStacks(convert, s.nodes, nodes, Track(s, k, v));
      if s.initialized {
        StoredReloads(convert, s, k, v);
      }
    }
  }

  ghost predicate GoodAssignments<V(!new)>(convert: (Key, V) -> Option<V>, nodes: map<Key, Node<V>>,
                                    xs: seq<Assignment<V>>) {
    forall x :: x in xs ==> x.key in nodes && nodes[x.key].actionable && Typed(convert, x.key, x.value)
  }

  lemma {:induction false} GoodAssign<V(!new)>(convert: (Key, V) -> Option<V>, s: State<V>, xs: seq<Assignment<V>>)
    requires Good(convert, s) && GoodAssignments(convert, s.nodes, xs)
    ensures Good(convert, Assign(s, xs)) && SameNodes(s.nodes, Assign(s, xs).nodes)
    decreases |xs|
  {
    if xs != [] {
      var x := xs[|xs| - 1];
      assert x in xs;
      GoodAssign(convert, s, xs[..|xs| - 1]);
      GoodSetValue(convert, Assign(s, xs[..|xs| - 1]), x.key, x.value);
    }
  }

  /** While changes are ignored an assignment reaches the nodes and the store and nothing else. */
  lemma {:induction false} AssignQuiet<V>(s: State<V>, xs: seq<Assignment<V>>)
    requires s.ignoreChanges && Known(s.nodes, xs)
    ensures Assign(s, xs) == s.(nodes := Assign(s, xs).nodes, settings := Assign(s, xs).settings)
    decreases |xs|
  {
    if xs != [] {
      AssignQuiet(s, xs[..|xs| - 1]);
    }
  }

  lemma GoodIsReady<V(!new)>(convert: (Key, V) -> Option<V>, s: State<V>)
    requires Good(convert, s)
    ensures Ready(s)
  {
  }

  /** Replaying an action while changes are ignored, and then moving it to the other stack, keeps the invariant. */
  lemma GoodReplay<V(!new)>(convert: (Key, V) -> Option<V>, s: State<V>, a: Action<V>, xs: seq<Assignment<V>>)
    requires Good(convert, s) && s.ignoreChanges && GoodAction(convert, s.nodes, a)
    requires GoodAssignments(convert, s.nodes, xs)
    ensures var t := Assign(s, xs);
            && Good(convert, t.(undoStack := Limit(t.undoStack + [a]), ignoreChanges := false))
            && Good(convert, t.(redoStack := Limit(t.redoStack + [a]), ignoreChanges := false))
            && SameNodes(s.nodes, t.nodes)
  {
    GoodAssign(convert, s, xs);
    AssignQuiet(s, xs);
    var t := Assign(s, xs);
    assert GoodAction(convert, t.nodes, a);
    GoodPush(convert, t.nodes, t.undoStack, a);
    GoodPush(convert, t.nodes, t.redoStack, a);
  }

  lemma GoodBeginUndo<V(!new)>(convert: (Key, V) -> Option<V>, s: State<V>)
    requires Good(convert, s) && EndAction(s).undoStack != []
    ensures var stack := EndAction(s).undoStack;
            var a := stack[|stack| - 1];
            && Good(convert, BeginUndo(s)) && GoodAction(convert, s.nodes, a)
            && GoodAssignments(convert, s.nodes, Olds(a))
  {
    GoodEndAction(convert, s);
    var e := EndAction(s);
    assert e.undoStack[|e.undoStack| - 1] in e.undoStack;
    forall a | a in e.undoStack[..|e.undoStack| - 1] ensures GoodAction(convert, s.nodes, a) {
      assert a in e.undoStack;
    }
  }

  /** Undo keeps the invariant: in particular the store still reloads to the live values. */
  lemma GoodUndo<V(!new)>(convert: (Key, V) -> Option<V>, s: State<V>)
    requires Good(convert, s)
    ensures Ready(s) && Good(convert, Undo(s)) && SameNodes(s.nodes, Undo(s).nodes)
  {
    GoodIsReady(convert, s);
    var e := EndAction(s);
    if e.undoStack == [] {
      GoodEndAction(convert, s);
    } else {
      var a := e.undoStack[|e.undoStack| - 1];
      GoodBeginUndo(convert, s);
      GoodReplay(convert, BeginUndo(s), a, Olds(a));
    }
  }

  lemma GoodRedo<V(!new)>(convert: (Key, V) -> Option<V>, s: State<V>)
    requires Good(convert, s)
    ensures Ready(s) && Good(convert, Redo(s)) && SameNodes(s.nodes, Redo(s).nodes)
  {
    GoodIsReady(convert, s);
    if s.redoStack != [] {
      var a := s.redoStack[|s.redoStack| - 1];
      assert a in s.redoStack;
      GoodReplay(convert, BeginRedo(s), a, News(a));
    }
  }

  // ---- starting up ----

  /** Every node takes the value the store has for it; from then on changes are recorded. */
  function Initialize<V>(convert: (Key, V) -> Option<V>, s: State<V>): State<V> {
    if s.initialized then s
    else s.(nodes := map k | k in s.nodes :: s.nodes[k].(value := Load(convert, s.settings, k, s.nodes[k])),
            ignoreChanges := false, initialized := true)
  }

  /** initialize gives every node, persistent or not, the stored value at its path as its type, or else its default, and
      records nothing; a second call does nothing. */
  lemma InitializeExact<V>(convert: (Key, V) -> Option<V>, s: State<V>, k: Key)
    requires k in s.nodes
    ensures var t := Initialize(convert, s);
            && k in t.nodes && t.nodes[k] == s.nodes[k].(value := t.nodes[k].value) && t.initialized
            && t.nodes[k].value == (
                 if s.initialized then s.nodes[k].value
                 else if FullPath(k) in s.settings && convert(k, s.settings[FullPath(k)]).Some? then
                   convert(k, s.settings[FullPath(k)]).value
                 else s.nodes[k].default_)
            && t.settings == s.settings && t.undoStack == s.undoStack && t.redoStack == s.redoStack
            && t.active == s.active && t.ignoreChanges == (s.initialized && s.ignoreChanges)
  {
  }

  /** A conversion to the type of a node yields a value of that type. */
  ghost predicate Converts<V(!new)>(convert: (Key, V) -> Option<V>) {
    forall k, raw :: convert(k, raw).Some? ==> Typed(convert, k, convert(k, raw).value)
  }

  /** The state of a newly built model: defaults everywhere, nothing recorded. */
  ghost predicate Fresh<V(!new)>(convert: (Key, V) -> Option<V>, s: State<V>) {
    && !s.initialized && s.undoStack == [] && s.redoStack == [] && s.active.None?
    && ApartPaths(s.nodes)
    && forall k :: k in s.nodes ==> Typed(convert, k, s.nodes[k].default_) && s.nodes[k].value == s.nodes[k].default_
  }

  lemma InitializeIsGood<V(!new)>(convert: (Key, V) -> Option<V>, s: State<V>)
    requires Converts(convert) && Fresh(convert, s)
    ensures Good(convert, s) && Good(convert, Initialize(convert, s))
    ensures SameNodes(s.nodes, Initialize(convert, s).nodes)
  {
    var t := Initialize(convert, s);
    forall k | k in s.nodes ensures Typed(convert, k, Load(convert, s.settings, k, s.nodes[k])) {
      if FullPath(k) in s.settings {
        var read := convert(k, s.settings[FullPath(k)]);
      }
    }
  }

  /** A model built anew over the same store comes back with the live values of every persistent node. */
  lemma RestartRestores<V(!new)>(convert: (Key, V) -> Option<V>, s: State<V>, t: State<V>, k: Key)
    requires Good(convert, s) && s.initialized && Fresh(convert, t) && t.settings == s.settings
    requires k in s.nodes && k in t.nodes && s.nodes[k].persistent && t.nodes[k].default_ == s.nodes[k].default_
    ensures Initialize(convert, t).nodes[k].value == s.nodes[k].value
  {
    assert Load(convert, s.settings, k, s.nodes[k]) == s.nodes[k].value;
  }

  /** What loading node j gives once v has been stored at the path of node k, or forgotten there. */
  function LoadAfter<V(==)>(convert: (Key, V) -> Option<V>, s: State<V>, k: Key, v: V, j: Key): V
    requires j in s.nodes && k in s.nodes
  {
    if v == s.nodes[k].default_ then s.nodes[j].default_
    else
      match convert(j, v)
      case Some(w) => w
      case None => s.nodes[j].default_
  }

  /** Another persistent node whose setting is touched when k is set to v: one with the same path, and, when the setting
      is removed, every one below it. */
  ghost predicate Touched<V>(s: State<V>, k: Key, v: V, j: Key)
    requires k in s.nodes
  {
    && j in s.nodes && j != k && s.nodes[j].persistent
    && (if v == s.nodes[k].default_ then FullPath(k) <= FullPath(j) else FullPath(k) == FullPath(j))
  }

  /** Why paths have to be apart: an edit of a persistent node keeps the store reloading to the live values if and only
      if every other node whose setting it touches has the value it then loads. */
  lemma SharedPathExact<V(!new)>(convert: (Key, V) -> Option<V>, s: State<V>, k: Key, v: V)
    requires s.initialized && Reloads(convert, s) && k in s.nodes && s.nodes[k].persistent
    requires Typed(convert, k, v) && s.nodes[k].value != v
    ensures Reloads(convert, SetValue(s, k, v)) <==>
      forall j :: Touched(s, k, v, j) ==> LoadAfter(convert, s, k, v, j) == s.nodes[j].value
  {
    var r := SetValue(s, k, v);
    forall j | j in s.nodes && j != k && s.nodes[j].persistent
      ensures r.nodes[j] == s.nodes[j]
      ensures Load(convert, r.settings, j, r.nodes[j]) ==
        if Touched(s, k, v, j) then LoadAfter(convert, s, k, v, j) else Load(convert, s.settings, j, s.nodes[j])
    {
    }
    assert Load(convert, r.settings, k, r.nodes[k]) == v;
  }

  /** From any state in which the store reloads, wherever a persistent node lies below another: give both a value that
      is not the default, and reset the upper one; then the lower one is lost at the next start. */
  lemma ResetLosesBelow<V(!new)>(convert: (Key, V) -> Option<V>, s: State<V>, k: Key, v: V, j: Key, w: V)
    requires s.initialized && k in s.nodes && j in s.nodes && s.nodes[k].persistent && s.nodes[j].persistent
    requires FullPath(k) < FullPath(j) && v != s.nodes[k].default_ && w != s.nodes[j].default_
    ensures var r := SetValue(SetValue(SetValue(s, j, w), k, v), k, s.nodes[k].default_);
            && k in r.nodes && j in r.nodes && r.nodes[j].value == w
            && Load(convert, r.settings, j, r.nodes[j]) == s.nodes[j].default_ && !Reloads(convert, r)
  {
    var r := SetValue(SetValue(SetValue(s, j, w), k, v), k, s.nodes[k].default_);
    assert FullPath(j) !in r.settings;
  }

  /** Two keys can have one path, and one can lie below another, even of the same endpoint. */
  lemma PathsCanMeet()
    ensures FullPath(Key("a", "b/c")) == FullPath(Key("a/b", "c")) == FullPath(Key("/a", "b//c"))
    ensures FullPath(Key("e", "x")) < FullPath(Key("e", "x/y"))
  {
    PathJoins(Key("a", "b/c"));
    PathJoins(Key("a/b", "c"));
    PathJoins(Key("/a", "b//c"));
    PathJoins(Key("e", "x"));
    PathJoins(Key("e", "x/y"));
    SegmentsJoin("a", "", "b");
    SegmentsJoin("b", "", "c");
    SegmentsJoin("", "", "a");
    SegmentsJoin("b", "", "/c");
    SegmentsJoin("", "", "c");
    SegmentsJoin("x", "", "y");
  }
}
