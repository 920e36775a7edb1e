/** What a `DialogueTree` does, as functions of its state: the lazily built
    instance cache, the focused node and the emitted events. The scene-tree
    host the actions and conditions live in is a parameter. */
module Machine {
  import opened Variants
  import opened NodeData
  import opened TreeDoc
  import opened Settings
  import opened VariableTypes
  import opened Instances

  /** The scene tree around the dialogue tree: the node paths that resolve to
      a `DialogueAction`, and those that resolve to a `DialogueCondition`
      together with the value its `Invoke` returns. */
  datatype Host = Host(actions: set<string>, conditions: map<string, bool>)

  /** What the tree reads and never changes: its `TreeData` (null or the
      document it holds), the settings' node type list and the host. */
  datatype Env = Env(doc: Option<Doc>, entries: seq<DialogueNodeData?>, host: Host)

  /** What the tree changes: `FocusedNode` (by node index; `None` is null),
      the instance cache and the signal log. */
  datatype State = State(focused: Option<nat>, cache: seq<Instance>, events: seq<Event>)

  /** A lookup's new state and the instance it returns (`None` is null). */
  datatype Got = Got(st: State, instance: Option<nat>)

  /** A traversal's new state; `exhausted` when it stopped for lack of fuel
      with a connection still to follow. */
  datatype Out = Out(st: State, exhausted: bool)

  const InitialState: State := State(None, [], [])

  function NodesCount(env: Env): nat
  {
    if env.doc.Some? then |env.doc.value.nodeTypes| else 0
  }

  // ---------------------------------------------------------------------
  // What the source relies on without checking

  /** The settings list an entry with this save name, and the search for it
      reads no null entry first. */
  predicate IsRegistered(entries: seq<DialogueNodeData?>, name: string)
  {
    ScanSafe(entries, name) && FindBySaveName(entries, name) != null
  }

  /** Node types can be read and every node's type is registered. */
  predicate AllRegistered(env: Env)
  {
    env.doc.Some? ==>
      && DocOk(env.doc.value)
      && forall x :: 0 <= x < NodeCount(env.doc.value) ==> IsRegistered(env.entries, TypeAt(env.doc.value, x))
  }

  /** The variant `TryInstantiateDialogueNodeInstance` builds for node `x`,
      or `None` when it fails. */
  function KindAt(env: Env, x: int): Option<InstanceKind>
    requires AllRegistered(env) && 0 <= x < NodesCount(env)
  {
    FindBySaveName(env.entries, TypeAt(env.doc.value, x)).TryInstantiateDialogueNodeInstance()
  }

  /** The stored payload of node `x`. */
  function Payload(env: Env, x: nat): Variant
    requires AllRegistered(env) && x < NodesCount(env)
  {
    env.doc.value.saveData[x]
  }

  /** Whether the registry gives a variable of type `t` a setter script
      (`setter`) or a condition script (otherwise). */
  predicate HasScriptFor(t: string, setter: bool)
  {
    if setter then GetVariableDataForType(t).variableSetterInstanceScript.Some?
    else GetVariableDataForType(t).variableConditionInstanceScript.Some?
  }

  /** A setter's or condition's payload that names variable node `v`: the
      node exists and is a variable node, and when its type has a script the
      payload holds that script's own non-empty payload in `data[1]`. */
  predicate BindingOk(env: Env, data: Variant, setter: bool)
    requires AllRegistered(env) && HasItems(data, 1)
  {
    var v := AsInt32(data.items[0]);
    v != -1 ==>
      && 0 <= v < NodesCount(env)
      && KindAt(env, v) == Some(VariableKind)
      && HasItems(Payload(env, v), 2)
      && (HasScriptFor(AsString(Payload(env, v).items[1]), setter) ==>
            |data.items| >= 2 && |AsGodotArray(data.items[1])| >= 1)
  }

  /** The payload entries each variant's `Ready` reads. */
  predicate PayloadOk(env: Env, x: nat)
    requires AllRegistered(env) && x < NodesCount(env)
  {
    var data := Payload(env, x);
    match KindAt(env, x)
    case None => true
    case Some(k) =>
      match k
      case OutputKind => HasItems(data, 2)
      case SwitchKind => HasItems(data, 1)
      case ActionKind => HasItems(data, 1)
      case ConditionKind => HasItems(data, 1)
      case CallKind => HasItems(data, 1)
      case VariableKind => HasItems(data, 4)
      case VariableSetterKind => HasItems(data, 1) && BindingOk(env, data, true)
      case VariableConditionKind => HasItems(data, 1) && BindingOk(env, data, false)
      case StartKind => true
      case FunctionKind => true
  }

  /** Node `t` exists and instantiates. */
  predicate TargetOk(env: Env, t: int)
    requires AllRegistered(env)
  {
    0 <= t < NodesCount(env) && KindAt(env, t).Some?
  }

  /** `SendPortOutput` calls into the target of every connection it can
      follow, so those targets must instantiate. */
  ghost predicate TargetsOk(env: Env)
    requires AllRegistered(env)
  {
    env.doc.Some? ==>
      forall node: int, port: int :: FirstConnection(Connections(env.doc.value), node, port).Some? ==>
        TargetOk(env, FirstConnection(Connections(env.doc.value), node, port).value.toNode)
  }

  /** The documents and settings the runtime can walk without dereferencing
      null or reading past a payload. This is asked of every node and every
      first connection, whether a walk reaches it or not. */
  ghost predicate WellFormed(env: Env)
  {
    && AllRegistered(env)
    && (forall x :: 0 <= x < NodesCount(env) ==> PayloadOk(env, x))
    && TargetsOk(env)
  }

  /** `StartDialogue` looks up "Srt" in the settings, reads its save name
      when there is a node to compare it with, and casts the first such node
      to a start instance. */
  predicate StartOk(env: Env)
    requires AllRegistered(env)
  {
    env.doc.Some? ==>
      && ScanSafe(env.entries, "Srt")
      && (NodesCount(env) > 0 ==> FindBySaveName(env.entries, "Srt") != null)
      && var x := FirstNodeOfType(env.doc.value, "Srt", 0);
         x.Some? ==> KindAt(env, x.value) == None || KindAt(env, x.value) == Some(StartKind)
  }

  // ---------------------------------------------------------------------
  // Instances

  /** Setter and condition nodes look up a variable node while they get
      ready; every other variant is a leaf. */
  function Rank(env: Env, index: int): nat
    requires AllRegistered(env)
  {
    if 0 <= index < NodesCount(env) && KindAt(env, index) in {Some(VariableSetterKind), Some(VariableConditionKind)}
    then 1 else 0
  }

  function WriteState(st: State, index: nat, s: NodeState): State
  {
    st.(cache := SetStateOf(st.cache, index, s))
  }

  /** `GetDialogueNodeInstance`: null out of range or without a tree; the
      cached instance when there is one; otherwise a new instance. */
  function GetInstance(env: Env, st: State, index: int): (g: Got)
    requires WellFormed(env)
    decreases Rank(env, index), 2
    ensures index < 0 || env.doc.None? || index >= NodesCount(env) ==> g == Got(st, None)
    ensures g.instance.Some? ==> g.instance.value == index
  {
    if index < 0 || env.doc.None? || index >= NodesCount(env) then Got(st, None)
    else if FindCached(st.cache, index).Some? then Got(st, Some(index))
    else Instantiate(env, st, index)
  }

  /** `InstantiateDialogueNodeInstance`: a failed instantiation reports an
      error and gives null; otherwise the new instance enters the cache,
      at the position chosen by the placement loop, before it gets ready. */
  function Instantiate(env: Env, st: State, index: nat): (g: Got)
    requires WellFormed(env) && index < NodesCount(env)
    decreases Rank(env, index), 1
    ensures KindAt(env, index).None? ==> g == Got(st.(events := st.events + [InstantiationError(index)]), None)
    ensures KindAt(env, index).Some? ==> g.instance == Some(index)
  {
    var kind := KindAt(env, index);
    if kind.None? then Got(st.(events := st.events + [InstantiationError(index)]), None)
    else
      var k := PlacementAsWritten(st.cache, index);
      var st1 := st.(cache := InsertAt(st.cache, k, Instance(index, Unready(kind.value))));
      Got(Ready(env, st1, index), Some(index))
  }

  /** The node path `path` resolved to an action, or null. */
  function ResolveAction(host: Host, path: string): Option<string>
  {
    if path in host.actions then Some(path) else None
  }

  /** The node path `path` resolved to a condition, or null. */
  function ResolveCondition(host: Host, path: string): Option<string>
  {
    if path in host.conditions then Some(path) else None
  }

  /** `GetDialogueNodeInstance<DialogueVariableNodeInstance>`: the instance,
      when it is a variable node. */
  function AsVariableNode(cache: seq<Instance>, instance: Option<nat>): Option<nat>
  {
    if instance.Some? && StateOf(cache, instance.value).Some? && StateOf(cache, instance.value).value.VariableNode?
    then instance else None
  }

  /** The fields the `Ready` of a variant without a variable binding
      decodes from the node's payload. */
  function LeafFields(env: Env, index: nat): (s: NodeState)
    requires WellFormed(env) && index < NodesCount(env) && KindAt(env, index).Some?
    requires KindAt(env, index).value != VariableSetterKind && KindAt(env, index).value != VariableConditionKind
    ensures KindOf(s) == KindAt(env, index).value && !s.Unready?
  {
    assert PayloadOk(env, index);
    var data := Payload(env, index);
    match KindAt(env, index).value
    case StartKind => StartNode
    case OutputKind => OutputNode(AsString(data.items[0]), AsString(data.items[1]))
    case SwitchKind => SwitchNode(AsStringArray(data.items[0]))
    case ActionKind => ActionNode(ResolveAction(env.host, AsNodePath(data.items[0])))
    case ConditionKind => ConditionNode(ResolveCondition(env.host, AsNodePath(data.items[0])))
    case CallKind => CallNode(AsInt32(data.items[0]))
    case FunctionKind => FunctionNode
    case VariableKind => VariableNode(AsString(data.items[0]), AsString(data.items[1]), data.items[2], data.items[3])
  }

  /** The fields a setter's (`setter`) or condition's `Ready` writes, from
      its payload `data`, once the lookup of the variable node named by
      `data[0]` has given `g`: the variable node when it is one, and the
      setter or condition its type's script builds from `data[1]`. */
  function BoundFields(data: Variant, g: Got, setter: bool): (s: NodeState)
    requires HasItems(data, 1)
    ensures KindOf(s) == (if setter then VariableSetterKind else VariableConditionKind) && !s.Unready?
  {
    var variable := AsVariableNode(g.st.cache, g.instance);
    var entry := GetVariableDataForType(VariableTypeOf(g.st.cache, AsInt32(data.items[0])));
    var bound := variable.Some? && |data.items| >= 2 && |AsGodotArray(data.items[1])| >= 1;
    if setter then
      var script := entry.variableSetterInstanceScript;
      VariableSetterNode(variable, if bound && script.Some? then Some(ReadySetter(script.value, AsGodotArray(data.items[1]))) else None)
    else
      var script := entry.variableConditionInstanceScript;
      VariableConditionNode(variable, if bound && script.Some? then Some(ReadyCondition(script.value, AsGodotArray(data.items[1]))) else None)
  }

  /** Each variant's `Ready`. A setter or condition with `data[0] == -1`
      binds nothing; otherwise it first looks up the variable node, which
      may build that instance. */
  function Ready(env: Env, st: State, index: nat): State
    requires WellFormed(env) && index < NodesCount(env) && KindAt(env, index).Some?
    decreases Rank(env, index), 0
  {
    assert PayloadOk(env, index);
    var data := Payload(env, index);
    var kind := KindAt(env, index).value;
    if kind == VariableSetterKind || kind == VariableConditionKind then
      var v := AsInt32(data.items[0]);
      if v == -1 then
        WriteState(st, index, if kind == VariableSetterKind then VariableSetterNode(None, None) else VariableConditionNode(None, None))
      else
        var g := GetInstance(env, st, v);
        WriteState(g.st, index, BoundFields(data, g, kind == VariableSetterKind))
    else WriteState(st, index, LeafFields(env, index))
  }

  // ---------------------------------------------------------------------
  // Traversal

  /** `EndDialogue`: no focused node and one ended signal. */
  function Ended(st: State): State
  {
    st.(focused := None, events := st.events + [DialogueEnded])
  }

  /** `GetConnectionToPort`: the first connection leaving `(node, port)`. */
  function ConnectionToPort(env: Env, node: int, port: int): Option<Connection>
  {
    if env.doc.None? then None else FirstConnection(Connections(env.doc.value), node, port)
  }

  /** `SendDialogueOutput`: one output signal. */
  function Output(st: State, dialogue: string, character: string, parameters: seq<Variant>): State
  {
    st.(events := st.events + [DialogueOutput(dialogue, character, parameters)])
  }

  /** The `VariableValue` setter: the changing signal carries the new value
      and fires while the old value is still stored. */
  function SetValue(st: State, variable: nat, value: Variant): State
  {
    var s := StateOf(st.cache, variable);
    var st1 := st.(events := st.events + [VariableValueChanging(variable, value)]);
    if s.Some? && s.value.VariableNode? then WriteState(st1, variable, s.value.(variableValue := value)) else st1
  }

  /** `SendPortOutput` from node `from`: the dialogue ends without a
      connection; otherwise the target is focused and receives the input on
      the connection's input port. Following a connection costs one unit of
      fuel. */
  function SendPort(env: Env, st: State, from: int, port: int, fuel: nat): Out
    requires WellFormed(env)
    decreases fuel, 0
  {
    var c := ConnectionToPort(env, from, port);
    if c.None? then Out(Ended(st), false)
    else if fuel == 0 then Out(st, true)
    else Follow(env, st, c.value, fuel - 1)
  }

  /** The rest of `SendPortOutput` once connection `c` is found: the
      target's instance is looked up, focused and receives the input. */
  function Follow(env: Env, st: State, c: Connection, fuel: nat): Out
    requires WellFormed(env)
    decreases fuel, 2
  {
    var g := GetInstance(env, st, c.toNode);
    ReceivePort(env, g.st.(focused := g.instance), c.toNode, c.toPort, fuel)
  }

  /** Each variant's `RecievePortInput`; the variants that do not override it
      do nothing. */
  function ReceivePort(env: Env, st: State, index: int, port: int, fuel: nat): Out
    requires WellFormed(env)
    decreases fuel, 1
  {
    var s := StateOf(st.cache, index);
    if s.None? then Out(st, false)
    else
      match s.value
      case OutputNode(text, character) => Out(Output(st, text, character, []), false)
      case ActionNode(action) =>
        var st1 := if action.Some? then st.(events := st.events + [ActionInvoked(action.value)]) else st;
        SendPort(env, st1, index, 0, fuel)
      case ConditionNode(condition) =>
        var st1 := if condition.Some? then st.(events := st.events + [ConditionInvoked(condition.value)]) else st;
        var holds := condition.Some? && condition.value in env.host.conditions && env.host.conditions[condition.value];
        SendPort(env, st1, index, if holds then 0 else 1, fuel)
      case CallNode(f) =>
        var g := GetInstance(env, st, f);
        if g.instance.None? || StateOf(g.st.cache, f) != Some(FunctionNode) then Out(Ended(g.st), false)
        else SendPort(env, g.st, f, 0, fuel)
      case VariableSetterNode(variable, setter) =>
        var st1 :=
          if variable.Some? && setter.Some?
          then SetValue(st, variable.value, SetVariable(setter.value, ValueOf(st.cache, variable.value)))
          else st;
        SendPort(env, st1, index, 0, fuel)
      case VariableConditionNode(variable, condition) =>
        var holds := variable.Some? && condition.Some? && RunCondition(condition.value, ValueOf(st.cache, variable.value));
        SendPort(env, st, index, if holds then 0 else 1, fuel)
      case _ => Out(st, false)
  }

  /** Each variant's `RecieveDialogueInput`: an output node continues through
      port 0, a switch node through the chosen case; the others ignore it. */
  function ReceiveDialogue(env: Env, st: State, index: nat, input: string, fuel: nat): Out
    requires WellFormed(env)
  {
    var s := StateOf(st.cache, index);
    if s.None? then Out(st, false)
    else
      match s.value
      case OutputNode(_, _) => SendPort(env, st, index, 0, fuel)
      case SwitchNode(cases) => SendPort(env, st, index, ChoosePort(cases, input), fuel)
      case _ => Out(st, false)
  }

  /** `SendInput`: passed to the focused node, if any. */
  function Input(env: Env, st: State, input: string, parameters: seq<Variant>, fuel: nat): Out
    requires WellFormed(env)
  {
    if st.focused.None? then Out(st, false) else ReceiveDialogue(env, st, st.focused.value, input, fuel)
  }

  /** `GetInputOptions`: empty without a focused node, else the focused
      node's options. */
  function Options(st: State): (r: seq<InputOption>)
    ensures st.focused.None? || StateOf(st.cache, st.focused.value).None? ==> r == []
    ensures r != [] ==> st.focused.Some? && StateOf(st.cache, st.focused.value).Some?
  {
    if st.focused.None? then []
    else
      var s := StateOf(st.cache, st.focused.value);
      if s.None? then [] else NodeInputOptions(s.value)
  }

  /** `GetFirstDialogueNodeOfType`: the instance of the first node whose
      type is `data`'s save name, or null when there is none. */
  function FirstOfType(env: Env, st: State, data: DialogueNodeData?): (g: Got)
    requires WellFormed(env) && (NodesCount(env) > 0 ==> data != null)
    ensures env.doc.None? || NodesCount(env) == 0 ==> g == Got(st, None)
    ensures g.instance.Some? ==>
      && data != null && g.instance.value < NodesCount(env)
      && TypeAt(env.doc.value, g.instance.value) == data.dialogueNodeSaveName
      && forall y :: 0 <= y < g.instance.value ==> TypeAt(env.doc.value, y) != data.dialogueNodeSaveName
  {
    if env.doc.None? || NodesCount(env) == 0 then Got(st, None)
    else
      var x := FirstNodeOfType(env.doc.value, data.dialogueNodeSaveName, 0);
      if x.None? then Got(st, None) else GetInstance(env, st, x.value)
  }

  /** `StartDialogue`: ends at once without a tree or without a start node
      that instantiates; otherwise focuses the start node and sends through
      its port 0. */
  function Start(env: Env, st: State, fuel: nat): Out
    requires WellFormed(env) && StartOk(env)
  {
    if env.doc.None? then Out(Ended(st), false)
    else
      var g := FirstOfType(env, st, FindBySaveName(env.entries, "Srt"));
      if g.instance.None? then Out(Ended(g.st), false)
      else SendPort(env, g.st.(focused := g.instance), g.instance.value, 0, fuel)
  }

  /** The result of `FindDialogueNodeInstances`. */
  datatype Found = Found(st: State, instances: seq<Option<nat>>)

  /** The nodes from `x` on whose type and payload satisfy `matches`, in
      increasing order: the ones whose instances `FindDialogueNodeInstances`
      collects. */
  function MatchingNodes(env: Env, matches: (string, Variant) -> bool, x: nat): (r: seq<nat>)
    requires AllRegistered(env)
    decreases NodesCount(env) - x
    ensures forall k :: 0 <= k < |r| ==> x <= r[k] < NodesCount(env)
  {
    if x >= NodesCount(env) then []
    else if matches(TypeAt(env.doc.value, x), Payload(env, x)) then [x] + MatchingNodes(env, matches, x + 1)
    else MatchingNodes(env, matches, x + 1)
  }

  /** The node loop of `FindDialogueNodeInstances` from node `x` on: the
      instance of each node whose type and payload satisfy `matches`. */
  function FindFrom(env: Env, st: State, matches: (string, Variant) -> bool, x: nat, found: seq<Option<nat>>): Found
    requires WellFormed(env)
    decreases NodesCount(env) - x
  {
    if x >= NodesCount(env) then Found(st, found)
    else if matches(TypeAt(env.doc.value, x), Payload(env, x)) then
      var g := GetInstance(env, st, x);
      FindFrom(env, g.st, matches, x + 1, found + [g.instance])
    else FindFrom(env, st, matches, x + 1, found)
  }

  function Find(env: Env, st: State, matches: (string, Variant) -> bool): Found
    requires WellFormed(env)
  {
    if env.doc.None? then Found(st, []) else FindFrom(env, st, matches, 0, [])
  }
}
