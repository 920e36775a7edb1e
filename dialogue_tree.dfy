/** `DialogueTree`: the runtime that walks a `DialogueTreeData`. It keeps the
    focused node, the cache of node instances (each instance modelled by its
    node index and its fields) and the log of signals it emits. Every method
    is proved to change the state exactly as the function of the same step
    in `Machine` says. */
module Engine {
  import opened Variants
  import opened NodeData
  import opened TreeDoc
  import opened Settings
  import opened TreeData
  import opened VariableTypes
  import opened Instances
  import opened Machine
  import opened MachineLemmas

  class DialogueTree {
    const treeData: DialogueTreeData?
    const dialogueTreeSettings: DialogueTreeSettings
    const host: Host

    /** `FocusedNode`, by node index. */
    var focusedNode: Option<nat>
    /** `_dialogueNodeInstances`. */
    var dialogueNodeInstances: seq<Instance>
    /** The signals emitted and the host calls made so far. */
    var events: seq<Event>

    function EnvOf(): Env
      reads treeData, dialogueTreeSettings
    {
      Env(if treeData == null then None else Some(treeData.Doc()), dialogueTreeSettings.dialogueNodeData, host)
    }

    function St(): State
      reads this
    {
      State(focusedNode, dialogueNodeInstances, events)
    }

    constructor (treeData: DialogueTreeData?, settings: DialogueTreeSettings, host: Host)
      ensures this.treeData == treeData && dialogueTreeSettings == settings && this.host == host
      ensures St() == InitialState
    {
      this.treeData := treeData;
      dialogueTreeSettings := settings;
      this.host := host;
      focusedNode := None;
      dialogueNodeInstances := [];
      events := [];
    }

    /** `DialogueActive`: a node is focused. */
    function DialogueActive(): (active: bool)
      reads this
      ensures active <==> St().focused.Some?
    {
      focusedNode.Some?
    }

    method EndDialogue()
      modifies this
      ensures St() == Ended(old(St()))
    {
      focusedNode := None;
      events := events + [DialogueEnded];
    }

    /** The connection loop of `GetConnectionToPort`. */
    method GetConnectionToPort(node: int, port: int) returns (connection: Option<Connection>)
      ensures connection == ConnectionToPort(EnvOf(), node, port)
    {
      if treeData == null {
        return None;
      }
      ghost var cs := Connections(treeData.Doc());
      for x := 0 to treeData.GetConnectionsCount()
        invariant forall j :: 0 <= j < x ==> !Leaves(cs[j], node, port)
      {
        var c := treeData.GetConnection(x);
        if c.fromNode == node && c.fromPort == port {
          FirstConnectionIndexAt(cs, node, port, x);
          return Some(c);
        }
      }
      return None;
    }

    /** `GetDialogueNodeInstance`: the range check, the search of the cache,
        and otherwise a new instance. */
    method GetDialogueNodeInstance(index: int) returns (instance: Option<nat>)
      requires WellFormed(EnvOf())
      modifies this
      decreases Rank(EnvOf(), index), 3
      ensures Got(St(), instance) == GetInstance(EnvOf(), old(St()), index)
    {
      if index < 0 || treeData == null || index >= treeData.GetNodesCount() {
        return None;
      }
      for x := 0 to |dialogueNodeInstances|
        invariant forall j :: 0 <= j < x ==> dialogueNodeInstances[j].index != index
      {
        if dialogueNodeInstances[x].index == index {
          return Some(index);
        }
      }
      instance := InstantiateDialogueNodeInstance(index);
    }

    /** `InstantiateDialogueNodeInstance`, with the placement loop as
        written: the new instance goes after the last adjacent pair that
        brackets its index, else at the end. */
    method InstantiateDialogueNodeInstance(index: nat) returns (instance: Option<nat>)
      requires WellFormed(EnvOf()) && index < NodesCount(EnvOf())
      modifies this
      decreases Rank(EnvOf(), index), 2
      ensures Got(St(), instance) == Instantiate(EnvOf(), old(St()), index)
    {
      assert IsRegistered(EnvOf().entries, TypeAt(treeData.Doc(), index));
      var dialogueNodeData := dialogueTreeSettings.GetDialogueNodeData(treeData.GetNodeType(index));
      var kind := dialogueNodeData.TryInstantiateDialogueNodeInstance();
      if kind.None? {
        events := events + [InstantiationError(index)];
        return None;
      }
      var insertIndex := InsertIndexAsWritten(dialogueNodeInstances, index);
      dialogueNodeInstances := InsertAt(dialogueNodeInstances, insertIndex, Instance(index, Unready(kind.value)));
      Ready(index);
      return Some(index);
    }

    /** The instance's `Ready`, given the node's stored payload. */
    method Ready(index: nat)
      requires WellFormed(EnvOf()) && index < NodesCount(EnvOf()) && KindAt(EnvOf(), index).Some?
      modifies this
      decreases Rank(EnvOf(), index), 1
      ensures St() == Machine.Ready(EnvOf(), old(St()), index)
    {
      assert PayloadOk(EnvOf(), index);
      var data := treeData.saveData[index];
      var s: NodeState;
      match KindAt(EnvOf(), index).value {
        case StartKind =>
          s := StartNode;
        case OutputKind =>
          s := OutputNode(AsString(data.items[0]), AsString(data.items[1]));
        case SwitchKind =>
          s := SwitchNode(AsStringArray(data.items[0]));
        case ActionKind =>
          s := ActionNode(ResolveAction(host, AsNodePath(data.items[0])));
        case ConditionKind =>
          s := ConditionNode(ResolveCondition(host, AsNodePath(data.items[0])));
        case CallKind =>
          s := CallNode(AsInt32(data.items[0]));
        case FunctionKind =>
          s := FunctionNode;
        case VariableKind =>
          s := VariableNode(AsString(data.items[0]), AsString(data.items[1]), data.items[2], data.items[3]);
        case VariableSetterKind =>
          if AsInt32(data.items[0]) == -1 {
            s := VariableSetterNode(None, None);
          } else {
            s := BindVariable(index, true);
          }
        case VariableConditionKind =>
          if AsInt32(data.items[0]) == -1 {
            s := VariableConditionNode(None, None);
          } else {
            s := BindVariable(index, false);
          }
      }
      dialogueNodeInstances := SetStateOf(dialogueNodeInstances, index, s);
    }

    /** The shared part of the setter's and the condition's `Ready` once
        the payload names a variable node: look that instance up, then build
        the setter or condition from the registry entry for its type. */
    method BindVariable(index: nat, setter: bool) returns (s: NodeState)
      requires WellFormed(EnvOf()) && index < NodesCount(EnvOf())
      requires KindAt(EnvOf(), index) == Some(if setter then VariableSetterKind else VariableConditionKind)
      requires HasItems(Payload(EnvOf(), index), 1)
      requires AsInt32(Payload(EnvOf(), index).items[0]) != -1
      modifies this
      decreases Rank(EnvOf(), index), 0
      ensures var g := GetInstance(EnvOf(), old(St()), AsInt32(Payload(EnvOf(), index).items[0]));
        St() == g.st && s == BoundFields(Payload(EnvOf(), index), g, setter)
    {
      var data := treeData.saveData[index];
      var variableNodeIndex := AsInt32(data.items[0]);
      assert Rank(EnvOf(), variableNodeIndex) < Rank(EnvOf(), index) by {
        assert PayloadOk(EnvOf(), index);
      }
      var found := GetDialogueNodeInstance(variableNodeIndex);
      var variableNode := AsVariableNode(dialogueNodeInstances, found);
      var variableData := GetVariableDataForType(VariableTypeOf(dialogueNodeInstances, variableNodeIndex));
      var bound := variableNode.Some? && |data.items| >= 2 && |AsGodotArray(data.items[1])| >= 1;
      if setter {
        var script := variableData.variableSetterInstanceScript;
        var readied: Option<Setter> := None;
        if bound && script.Some? {
          readied := Some(ReadySetter(script.value, AsGodotArray(data.items[1])));
        }
        s := VariableSetterNode(variableNode, readied);
      } else {
        var script := variableData.variableConditionInstanceScript;
        var readied: Option<Condition> := None;
        if bound && script.Some? {
          readied := Some(ReadyCondition(script.value, AsGodotArray(data.items[1])));
        }
        s := VariableConditionNode(variableNode, readied);
      }
    }

    /** `SendDialogueOutput`. */
    method SendDialogueOutput(dialogue: string, character: string, parameters: seq<Variant>)
      modifies this
      ensures St() == Output(old(St()), dialogue, character, parameters)
    {
      events := events + [DialogueOutput(dialogue, character, parameters)];
    }

    /** The `VariableValue` setter of the variable node `variable`. */
    method SetVariableValue(variable: nat, value: Variant)
      modifies this
      ensures St() == SetValue(old(St()), variable, value)
    {
      events := events + [VariableValueChanging(variable, value)];
      var s := StateOf(dialogueNodeInstances, variable);
      if s.Some? && s.value.VariableNode? {
        dialogueNodeInstances := SetStateOf(dialogueNodeInstances, variable, s.value.(variableValue := value));
      }
    }

    /** `SendPortOutput` of the instance of node `from`. */
    method SendPortOutput(from: int, port: int, fuel: nat) returns (exhausted: bool)
      requires WellFormed(EnvOf())
      modifies this
      decreases fuel, 1
      ensures Out(St(), exhausted) == SendPort(EnvOf(), old(St()), from, port, fuel)
    {
      var portConnection := GetConnectionToPort(from, port);
      if portConnection.None? {
        EndDialogue();
        return false;
      }
      if fuel == 0 {
        return true;
      }
      exhausted := FollowConnection(portConnection.value, fuel - 1);
    }

    /** The rest of `SendPortOutput` once the connection is found: focus the
        connected node's instance and pass the input on to it. */
    method FollowConnection(connection: Connection, fuel: nat) returns (exhausted: bool)
      requires WellFormed(EnvOf())
      modifies this
      decreases fuel, 4
      ensures Out(St(), exhausted) == Follow(EnvOf(), old(St()), connection, fuel)
    {
      var connectedNode := GetDialogueNodeInstance(connection.toNode);
      focusedNode := connectedNode;
      exhausted := RecievePortInput(connection.toNode, connection.toPort, fuel);
    }

    /** The `RecievePortInput` of the instance of node `index`. */
    method RecievePortInput(index: int, portIndex: int, fuel: nat) returns (exhausted: bool)
      requires WellFormed(EnvOf())
      modifies this
      decreases fuel, 3
      ensures Out(St(), exhausted) == ReceivePort(EnvOf(), old(St()), index, portIndex, fuel)
    {
      var s := StateOf(dialogueNodeInstances, index);
      if s.None? {
        return false;
      }
      match s.value {
        case OutputNode(outputText, character) =>
          SendDialogueOutput(outputText, character, []);
          return false;
        case ActionNode(_) =>
          exhausted := ActionRecievePortInput(index, portIndex, fuel);
        case ConditionNode(_) =>
          exhausted := ConditionRecievePortInput(index, portIndex, fuel);
        case CallNode(_) =>
          exhausted := CallRecievePortInput(index, portIndex, fuel);
        case VariableSetterNode(_, _) =>
          exhausted := SetterRecievePortInput(index, portIndex, fuel);
        case VariableConditionNode(_, _) =>
          exhausted := VariableConditionRecievePortInput(index, portIndex, fuel);
        case _ =>
          return false;
      }
    }

    /** The action node's override: invoke the action, when it resolved,
        and continue through port 0. */
    method ActionRecievePortInput(index: int, portIndex: int, fuel: nat) returns (exhausted: bool)
      requires WellFormed(EnvOf())
      requires StateOf(dialogueNodeInstances, index).Some? && StateOf(dialogueNodeInstances, index).value.ActionNode?
      modifies this
      decreases fuel, 2
      ensures Out(St(), exhausted) == ReceivePort(EnvOf(), old(St()), index, portIndex, fuel)
    {
      var connectedAction := StateOf(dialogueNodeInstances, index).value.connectedAction;
      if connectedAction.Some? {
        events := events + [ActionInvoked(connectedAction.value)];
      }
      exhausted := SendPortOutput(index, 0, fuel);
    }

    /** The condition node's override: invoke the condition, when it
        resolved, and continue through port 0 when it holds, port 1 when not. */
    method ConditionRecievePortInput(index: int, portIndex: int, fuel: nat) returns (exhausted: bool)
      requires WellFormed(EnvOf())
      requires StateOf(dialogueNodeInstances, index).Some? && StateOf(dialogueNodeInstances, index).value.ConditionNode?
      modifies this
      decreases fuel, 2
      ensures Out(St(), exhausted) == ReceivePort(EnvOf(), old(St()), index, portIndex, fuel)
    {
      var connectedCondition := StateOf(dialogueNodeInstances, index).value.connectedCondition;
      var holds := false;
      if connectedCondition.Some? {
        events := events + [ConditionInvoked(connectedCondition.value)];
        holds := connectedCondition.value in host.conditions && host.conditions[connectedCondition.value];
      }
      if holds {
        exhausted := SendPortOutput(index, 0, fuel);
      } else {
        exhausted := SendPortOutput(index, 1, fuel);
      }
    }

    /** The call node's override: continue at the function node, or end the
        dialogue when there is none. */
    method CallRecievePortInput(index: int, portIndex: int, fuel: nat) returns (exhausted: bool)
      requires WellFormed(EnvOf())
      requires StateOf(dialogueNodeInstances, index).Some? && StateOf(dialogueNodeInstances, index).value.CallNode?
      modifies this
      decreases fuel, 2
      ensures Out(St(), exhausted) == ReceivePort(EnvOf(), old(St()), index, portIndex, fuel)
    {
      var connectedFunctionIndex := StateOf(dialogueNodeInstances, index).value.connectedFunctionIndex;
      var connectedFunction := GetDialogueNodeInstance(connectedFunctionIndex);
      if connectedFunction.None? || StateOf(dialogueNodeInstances, connectedFunctionIndex) != Some(FunctionNode) {
        EndDialogue();
        return false;
      }
      exhausted := SendPortOutput(connectedFunctionIndex, 0, fuel);
    }

    /** The variable setter node's override: apply the setter to the
        variable's value, when both are bound, and continue through port 0. */
    method SetterRecievePortInput(index: int, portIndex: int, fuel: nat) returns (exhausted: bool)
      requires WellFormed(EnvOf())
      requires StateOf(dialogueNodeInstances, index).Some? && StateOf(dialogueNodeInstances, index).value.VariableSetterNode?
      modifies this
      decreases fuel, 2
      ensures Out(St(), exhausted) == ReceivePort(EnvOf(), old(St()), index, portIndex, fuel)
    {
      var s := StateOf(dialogueNodeInstances, index).value;
      var variableNode, setter := s.variableNode, s.variableSetterInstance;
      if variableNode.Some? && setter.Some? {
        var previous := ValueOf(dialogueNodeInstances, variableNode.value);
        SetVariableValue(variableNode.value, SetVariable(setter.value, previous));
      }
      exhausted := SendPortOutput(index, 0, fuel);
    }

    /** The variable condition node's override: continue through port 0 when
        the condition holds of the variable's value, port 1 otherwise. */
    method VariableConditionRecievePortInput(index: int, portIndex: int, fuel: nat) returns (exhausted: bool)
      requires WellFormed(EnvOf())
      requires StateOf(dialogueNodeInstances, index).Some? && StateOf(dialogueNodeInstances, index).value.VariableConditionNode?
      modifies this
      decreases fuel, 2
      ensures Out(St(), exhausted) == ReceivePort(EnvOf(), old(St()), index, portIndex, fuel)
    {
      var s := StateOf(dialogueNodeInstances, index).value;
      var variableNode, condition := s.variableNode, s.variableConditionInstance;
      if variableNode.Some? && condition.Some? && RunCondition(condition.value, ValueOf(dialogueNodeInstances, variableNode.value)) {
        exhausted := SendPortOutput(index, 0, fuel);
        return;
      }
      exhausted := SendPortOutput(index, 1, fuel);
    }

    /** The `RecieveDialogueInput` of the instance of node `index`. */
    method RecieveDialogueInput(index: nat, input: string, parameters: seq<Variant>, fuel: nat) returns (exhausted: bool)
      requires WellFormed(EnvOf())
      modifies this
      ensures Out(St(), exhausted) == ReceiveDialogue(EnvOf(), old(St()), index, input, fuel)
    {
      var s := StateOf(dialogueNodeInstances, index);
      if s.None? {
        return false;
      }
      match s.value {
        case OutputNode(_, _) =>
          exhausted := SendPortOutput(index, 0, fuel);
        case SwitchNode(caseTexts) =>
          var port := ChooseCase(caseTexts, input);
          exhausted := SendPortOutput(index, port, fuel);
        case _ =>
          return false;
      }
    }

    /** `SendInput`: to the focused node, if any. */
    method SendInput(input: string, parameters: seq<Variant>, fuel: nat) returns (exhausted: bool)
      requires WellFormed(EnvOf())
      modifies this
      ensures Out(St(), exhausted) == Input(EnvOf(), old(St()), input, parameters, fuel)
    {
      exhausted := false;
      if focusedNode.Some? {
        exhausted := RecieveDialogueInput(focusedNode.value, input, parameters, fuel);
      }
    }

    /** `GetInputOptions` together with the focused node's
        `GetDialogueInputOptions`. */
    method GetInputOptions() returns (options: seq<InputOption>)
      ensures options == Options(St())
    {
      if focusedNode.None? {
        return [];
      }
      var s := StateOf(dialogueNodeInstances, focusedNode.value);
      if s.None? {
        return [];
      }
      match s.value {
        case OutputNode(_, _) =>
          options := [InputOption("", Some([]))];
        case SwitchNode(caseTexts) =>
          options := ConstructInputOptions(caseTexts, None);
        case _ =>
          options := [];
      }
    }

    /** `GetFirstDialogueNodeOfType`: the instance of the lowest-index node
        with the entry's save name. */
    method GetFirstDialogueNodeOfType(dialogueNodeData: DialogueNodeData?) returns (instance: Option<nat>)
      requires WellFormed(EnvOf())
      requires NodesCount(EnvOf()) > 0 ==> dialogueNodeData != null
      modifies this
      ensures Got(St(), instance) == FirstOfType(EnvOf(), old(St()), dialogueNodeData)
    {
      if treeData == null {
        return None;
      }
      ghost var d := treeData.Doc();
      for x := 0 to treeData.GetNodesCount()
        invariant forall y :: 0 <= y < x ==> TypeAt(d, y) != dialogueNodeData.dialogueNodeSaveName
      {
        if treeData.GetNodeType(x) == dialogueNodeData.dialogueNodeSaveName {
          FirstNodeOfTypeAt(d, dialogueNodeData.dialogueNodeSaveName, 0, x);
          instance := GetDialogueNodeInstance(x);
          return;
        }
      }
      return None;
    }

    /** `StartDialogue`. */
    method StartDialogue(fuel: nat) returns (exhausted: bool)
      requires WellFormed(EnvOf()) && StartOk(EnvOf())
      modifies this
      ensures Out(St(), exhausted) == Start(EnvOf(), old(St()), fuel)
    {
      if treeData == null {
        EndDialogue();
        return false;
      }
      var startData := dialogueTreeSettings.GetDialogueNodeData("Srt");
      var startNode := GetFirstDialogueNodeOfType(startData);
      if startNode.None? {
        EndDialogue();
        return false;
      }
      focusedNode := startNode;
      exhausted := SendPortOutput(startNode.value, 0, fuel);
    }

    /** `FindDialogueNodeInstances`: the instances of the nodes whose type and
        payload satisfy `matches`, node by node. */
    method FindDialogueNodeInstances(matches: (string, Variant) -> bool) returns (foundInstances: seq<Option<nat>>)
      requires WellFormed(EnvOf())
      modifies this
      ensures Found(St(), foundInstances) == Find(EnvOf(), old(St()), matches)
    {
      foundInstances := [];
      if treeData == null {
        return;
      }
      for x := 0 to treeData.GetNodesCount()
        invariant treeData.Doc() == old(treeData.Doc())
        invariant Find(EnvOf(), old(St()), matches) == FindFrom(EnvOf(), St(), matches, x, foundInstances)
      {
        if matches(treeData.GetNodeType(x), treeData.saveData[x]) {
          var instance := GetDialogueNodeInstance(x);
          foundInstances := foundInstances + [instance];
        }
      }
    }
  }
}
