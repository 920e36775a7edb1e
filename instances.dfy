/** The runtime node instances: one variant per instance class with the
    fields its `Ready` fills in, the events the tree signals, the input
    options a node offers, the switch node's case selection and the cache
    the tree keeps its instances in. */
module Instances {
  import opened Variants
  import opened NodeData
  import opened VariableTypes

  /** The fields of one node instance, by variant. `Unready(kind)` is an
      instance that has been created and cached but whose `Ready` has not
      finished yet. Bound variable nodes are named by their node index,
      which identifies their cached instance. */
  datatype NodeState =
    | StartNode
    | OutputNode(outputText: string, character: string)
    | SwitchNode(caseTexts: seq<string>)
    | ActionNode(connectedAction: Option<string>)
    | ConditionNode(connectedCondition: Option<string>)
    | CallNode(connectedFunctionIndex: int)
    | FunctionNode
    | VariableNode(variableName: string, variableType: string, variableValue: Variant, variableDefinition: Variant)
    | VariableSetterNode(variableNode: Option<nat>, variableSetterInstance: Option<Setter>)
    | VariableConditionNode(variableNode: Option<nat>, variableConditionInstance: Option<Condition>)
    | Unready(kind: InstanceKind)

  /** The class an instance belongs to. */
  function KindOf(s: NodeState): InstanceKind
  {
    match s
    case StartNode => StartKind
    case OutputNode(_, _) => OutputKind
    case SwitchNode(_) => SwitchKind
    case ActionNode(_) => ActionKind
    case ConditionNode(_) => ConditionKind
    case CallNode(_) => CallKind
    case FunctionNode => FunctionKind
    case VariableNode(_, _, _, _) => VariableKind
    case VariableSetterNode(_, _) => VariableSetterKind
    case VariableConditionNode(_, _) => VariableConditionKind
    case Unready(k) => k
  }

  /** A cached instance: its node index and its fields. */
  datatype Instance = Instance(index: nat, state: NodeState)

  /** The signals the tree and its instances emit, and the calls they make
      into the host, in the order they happen. */
  datatype Event =
    | DialogueEnded
    | DialogueOutput(dialogue: string, character: string, parameters: seq<Variant>)
    | VariableValueChanging(variableNode: nat, newValue: Variant)
    | ActionInvoked(action: string)
    | ConditionInvoked(condition: string)
    | InstantiationError(index: nat)

  // ---------------------------------------------------------------------
  // Input options

  /** `DialogueInputOption`: an input text and its parameters, which may be
      null. */
  datatype InputOption = InputOption(input: string, parameters: Option<seq<Variant>>)

  /** The parameters `ConstructInputOptions` gives option `x`: none without a
      parameter table, the table's entry when it is long enough, else none. */
  function OptionParameters(parameters: Option<seq<Option<seq<Variant>>>>, x: nat): Option<seq<Variant>>
  {
    if parameters.None? || x >= |parameters.value| then None else parameters.value[x]
  }

  /** `ConstructInputOptions`: one option per input, in input order. */
  function InputOptions(inputs: seq<string>, parameters: Option<seq<Option<seq<Variant>>>>): (r: seq<InputOption>)
    ensures |r| == |inputs|
    ensures forall x :: 0 <= x < |r| ==> r[x].input == inputs[x]
    ensures parameters.None? ==> forall x :: 0 <= x < |r| ==> r[x].parameters.None?
    ensures parameters.Some? ==> forall x :: 0 <= x < |r| && x < |parameters.value| ==> r[x].parameters == parameters.value[x]
    ensures forall x :: 0 <= x < |r| && (parameters.None? || x >= |parameters.value|) ==> r[x].parameters.None?
  {
    seq(|inputs|, x requires 0 <= x < |inputs| => InputOption(inputs[x], OptionParameters(parameters, x)))
  }

  /** `DialogueInputOption.ConstructInputOptions`, filling an array. */
  method ConstructInputOptions(inputs: seq<string>, parameters: Option<seq<Option<seq<Variant>>>>)
    returns (options: seq<InputOption>)
    ensures options == InputOptions(inputs, parameters)
  {
    var dialogueInputOptions := new InputOption[|inputs|](_ => InputOption("", None));
    if parameters.None? {
      for x := 0 to |inputs|
        invariant forall y :: 0 <= y < x ==> dialogueInputOptions[y] == InputOption(inputs[y], None)
      {
        dialogueInputOptions[x] := InputOption(inputs[x], None);
      }
    } else {
      var parametersLength := |parameters.value|;
      for x := 0 to |inputs|
        invariant forall y :: 0 <= y < x ==>
          dialogueInputOptions[y] == InputOption(inputs[y], if parametersLength > y then parameters.value[y] else None)
      {
        dialogueInputOptions[x] := InputOption(inputs[x], if parametersLength > x then parameters.value[x] else None);
      }
    }
    options := dialogueInputOptions[..];
  }

  /** The options of a node's `GetDialogueInputOptions`. */
  function NodeInputOptions(s: NodeState): (r: seq<InputOption>)
    ensures s.OutputNode? ==> r == [InputOption("", Some([]))]
    ensures s.SwitchNode? ==> r == InputOptions(s.caseTexts, None)
    ensures !s.OutputNode? && !s.SwitchNode? ==> r == []
  {
    match s
    case OutputNode(_, _) => [InputOption("", Some([]))]
    case SwitchNode(cases) => InputOptions(cases, None)
    case _ => []
  }

  /** A switch node offers its case texts, in order, with no parameters. */
  lemma SwitchOptionsAreCases(cases: seq<string>)
    ensures |NodeInputOptions(SwitchNode(cases))| == |cases|
    ensures forall x :: 0 <= x < |cases| ==>
      NodeInputOptions(SwitchNode(cases))[x] == InputOption(cases[x], None)
  {
  }

  // ---------------------------------------------------------------------
  // Switch case selection

  /** ASCII lower-casing of one character. */
  function LowerChar(c: char): (d: char)
    ensures 'A' <= c <= 'Z' ==> d as int == c as int + 32
    ensures !('A' <= c <= 'Z') ==> d == c
  {
    if 'A' <= c <= 'Z' then (c as int + 32) as char else c
  }

  function ToLower(s: string): (r: string)
    ensures |r| == |s| && forall i :: 0 <= i < |s| ==> r[i] == LowerChar(s[i])
  {
    seq(|s|, i requires 0 <= i < |s| => LowerChar(s[i]))
  }

  /** `pattern` occurs in `text` starting at `i`. */
  predicate OccursAt(text: string, pattern: string, i: nat)
  {
    i + |pattern| <= |text| && text[i..i + |pattern|] == pattern
  }

  predicate Contains(text: string, pattern: string)
  {
    exists i: nat :: i <= |text| && OccursAt(text, pattern, i)
  }

  /** The compiled pattern `(?i)` + case text finds a match in the input. A
      case text without regular-expression syntax matches when it occurs in
      the input up to letter case. */
  predicate CaseMatches(caseText: string, input: string)
  {
    Contains(ToLower(input), ToLower(caseText))
  }

  /** An empty case text matches every input. */
  lemma EmptyCaseMatches(input: string)
    ensures CaseMatches("", input)
  {
    assert OccursAt(ToLower(input), ToLower(""), 0);
  }

  /** The port the switch node routes an input to: the first matching case,
      or the else port `|cases|`. */
  function ChoosePort(cases: seq<string>, input: string): (port: nat)
    ensures port <= |cases|
    ensures port < |cases| ==> CaseMatches(cases[port], input)
    ensures forall x :: 0 <= x < port ==> !CaseMatches(cases[x], input)
  {
    if cases == [] then 0
    else if CaseMatches(cases[0], input) then 0
    else 1 + ChoosePort(cases[1..], input)
  }

  /** The else port is taken exactly when no case matches. */
  lemma ElsePortIffNoMatch(cases: seq<string>, input: string)
    ensures ChoosePort(cases, input) == |cases| <==> forall x :: 0 <= x < |cases| ==> !CaseMatches(cases[x], input)
  {
  }

  /** The case loop of `RecieveDialogueInput`, which returns at the first match. */
  method ChooseCase(caseTexts: seq<string>, input: string) returns (port: nat)
    ensures port == ChoosePort(caseTexts, input)
  {
    for x := 0 to |caseTexts|
      invariant forall y :: 0 <= y < x ==> !CaseMatches(caseTexts[y], input)
    {
      if CaseMatches(caseTexts[x], input) {
        FirstMatchIsChosen(caseTexts, input, x);
        return x;
      }
    }
    ElsePortWhenNoMatch(caseTexts, input);
    return |caseTexts|;
  }

  lemma {:induction false} FirstMatchIsChosen(cases: seq<string>, input: string, x: nat)
    requires x < |cases| && CaseMatches(cases[x], input)
    requires forall y :: 0 <= y < x ==> !CaseMatches(cases[y], input)
    ensures ChoosePort(cases, input) == x
  {
    if x > 0 {
      FirstMatchIsChosen(cases[1..], input, x - 1);
    }
  }

  lemma {:induction false} ElsePortWhenNoMatch(cases: seq<string>, input: string)
    requires forall y :: 0 <= y < |cases| ==> !CaseMatches(cases[y], input)
    ensures ChoosePort(cases, input) == |cases|
  {
    if cases != [] {
      ElsePortWhenNoMatch(cases[1..], input);
    }
  }

  // ---------------------------------------------------------------------
  // The instance cache

  /** The position of the first cached instance for node `index`. */
  function FindCached(cache: seq<Instance>, index: int): (r: Option<nat>)
    ensures r.Some? ==> r.value < |cache| && cache[r.value].index == index
    ensures r.Some? ==> forall j :: 0 <= j < r.value ==> cache[j].index != index
    ensures r.None? <==> forall j :: 0 <= j < |cache| ==> cache[j].index != index
  {
    if cache == [] then None
    else if cache[0].index == index then Some(0)
    else
      var r := FindCached(cache[1..], index);
      if r.Some? then Some(r.value + 1) else None
  }

  /** The fields of the cached instance for node `index`, if there is one. */
  function StateOf(cache: seq<Instance>, index: int): Option<NodeState>
  {
    var k := FindCached(cache, index);
    if k.Some? then Some(cache[k.value].state) else None
  }

  /** Overwrites the fields of the instance(s) cached for node `index`. */
  function SetStateOf(cache: seq<Instance>, index: nat, s: NodeState): (r: seq<Instance>)
    ensures |r| == |cache|
    ensures forall j :: 0 <= j < |r| ==> r[j].index == cache[j].index
    ensures forall j :: 0 <= j < |r| && cache[j].index != index ==> r[j] == cache[j]
    ensures forall j :: 0 <= j < |r| && cache[j].index == index ==> r[j].state == s
  {
    seq(|cache|, j requires 0 <= j < |cache| => if cache[j].index == index then Instance(index, s) else cache[j])
  }

  lemma SetStateOfFound(cache: seq<Instance>, index: nat, s: NodeState)
    requires FindCached(cache, index).Some?
    ensures FindCached(SetStateOf(cache, index, s), index) == FindCached(cache, index)
    ensures StateOf(SetStateOf(cache, index, s), index) == Some(s)
  {
    var r := SetStateOf(cache, index, s);
    var k := FindCached(cache, index).value;
    FindCachedAt(r, index, k);
  }

  lemma {:induction false} FindCachedAt(cache: seq<Instance>, index: int, k: nat)
    requires k < |cache| && cache[k].index == index
    requires forall j :: 0 <= j < k ==> cache[j].index != index
    ensures FindCached(cache, index) == Some(k)
  {
    if k > 0 {
      FindCachedAt(cache[1..], index, k - 1);
    }
  }

  /** The cached instance's variable value; a variable node is the only kind
      that has one. */
  function ValueOf(cache: seq<Instance>, index: int): Variant
  {
    var s := StateOf(cache, index);
    if s.Some? && s.value.VariableNode? then s.value.variableValue else Nil
  }

  /** The cached instance's `VariableType`, or the null type when the index
      holds no ready variable node. */
  function VariableTypeOf(cache: seq<Instance>, index: int): string
  {
    var s := StateOf(cache, index);
    if s.Some? && s.value.VariableNode? then s.value.variableType else ""
  }

  /** Indices strictly increase along the cache, so each index occurs once. */
  predicate SortedByIndex(cache: seq<Instance>)
  {
    forall i, j :: 0 <= i < j < |cache| ==> cache[i].index < cache[j].index
  }

  /** No node index occurs twice in the cache. */
  predicate DistinctIndices(cache: seq<Instance>)
  {
    forall i, j :: 0 <= i < |cache| && 0 <= j < |cache| && i != j ==> cache[i].index != cache[j].index
  }

  lemma SortedDistinct(cache: seq<Instance>)
    requires SortedByIndex(cache)
    ensures DistinctIndices(cache)
  {
    forall i, j | 0 <= i < |cache| && 0 <= j < |cache| && i != j
      ensures cache[i].index != cache[j].index
    {
      if i < j {
        assert cache[i].index < cache[j].index;
      } else {
        assert cache[j].index < cache[i].index;
      }
    }
  }

  function InsertAt(cache: seq<Instance>, k: nat, inst: Instance): (r: seq<Instance>)
    requires k <= |cache|
    ensures |r| == |cache| + 1 && r[k] == inst
    ensures forall j :: 0 <= j < k ==> r[j] == cache[j]
    ensures forall j :: k < j < |r| ==> r[j] == cache[j - 1]
  {
    cache[..k] + [inst] + cache[k..]
  }

  /** Inserting an index the cache does not hold, at any position, keeps
      every index distinct. */
  lemma InsertDistinct(cache: seq<Instance>, k: nat, inst: Instance)
    requires k <= |cache| && DistinctIndices(cache)
    requires forall j :: 0 <= j < |cache| ==> cache[j].index != inst.index
    ensures DistinctIndices(InsertAt(cache, k, inst))
  {
    var r := InsertAt(cache, k, inst);
    forall i, j | 0 <= i < |r| && 0 <= j < |r| && i != j
      ensures r[i].index != r[j].index
    {
      var i' := if i < k then i else i - 1;
      var j' := if j < k then j else j - 1;
      if i != k && j != k {
        assert r[i] == cache[i'] && r[j] == cache[j'];
      } else if i == k {
        assert r[j] == cache[j'];
      } else {
        assert r[i] == cache[i'];
      }
    }
  }

  /** Where `InstantiateDialogueNodeInstance` as written puts the new
      instance: after the last adjacent pair that strictly brackets `index`,
      and at the end when no pair does. */
  function PlacementAsWritten(cache: seq<Instance>, index: int): (k: nat)
    ensures k <= |cache|
    ensures k < |cache| ==> 0 < k && cache[k - 1].index < index < cache[k].index
    ensures forall x :: k <= x < |cache| - 1 ==> !(cache[x].index < index < cache[x + 1].index)
    ensures k == |cache| ==> forall x :: 0 <= x < |cache| - 1 ==> !(cache[x].index < index < cache[x + 1].index)
  {
    if |cache| < 2 then |cache|
    else
      var last := |cache| - 2;
      if cache[last].index < index < cache[last + 1].index then last + 1
      else
        var k := PlacementAsWritten(cache[..|cache| - 1], index);
        if k == |cache| - 1 then |cache| else k
  }

  /** The placement loop exactly as written: the default is the end of the
      list and every bracketing pair overrides it. */
  method InsertIndexAsWritten(cache: seq<Instance>, index: int) returns (insertIndex: nat)
    ensures insertIndex == PlacementAsWritten(cache, index)
  {
    insertIndex := |cache|;
    var x := 0;
    while x < |cache| - 1
      invariant 0 <= x <= |cache|
      invariant x <= |cache| - 1 || |cache| == 0
      invariant insertIndex == |cache| || (0 < insertIndex <= x && cache[insertIndex - 1].index < index < cache[insertIndex].index)
      invariant forall y :: insertIndex <= y < x ==> !(cache[y].index < index < cache[y + 1].index)
      invariant insertIndex == |cache| ==> forall y :: 0 <= y < x ==> !(cache[y].index < index < cache[y + 1].index)
    {
      if cache[x].index < index && cache[x + 1].index > index {
        insertIndex := x + 1;
      }
      x := x + 1;
    }
    PlacementAsWrittenUnique(cache, index, insertIndex);
  }

  /** The characterization of `PlacementAsWritten` has one solution. */
  lemma PlacementAsWrittenUnique(cache: seq<Instance>, index: int, k: nat)
    requires k <= |cache|
    requires k < |cache| ==> 0 < k && cache[k - 1].index < index < cache[k].index
    requires forall x :: k <= x < |cache| - 1 ==> !(cache[x].index < index < cache[x + 1].index)
    requires k == |cache| ==> forall x :: 0 <= x < |cache| - 1 ==> !(cache[x].index < index < cache[x + 1].index)
    ensures k == PlacementAsWritten(cache, index)
  {
  }

  /** With a cache holding node 1 only, instantiating node 0 puts it after
      node 1, so the cache is no longer ordered by index. */
  lemma PlacementAsWrittenLosesOrder()
    ensures var cache := [Instance(1, StartNode)];
      var k := PlacementAsWritten(cache, 0);
      k == 1 && !SortedByIndex(InsertAt(cache, k, Instance(0, StartNode)))
  {
    var cache := [Instance(1, StartNode)];
    var r := InsertAt(cache, 1, Instance(0, StartNode));
    assert r[0].index == 1 && r[1].index == 0;
  }

  /** The evidently intended placement: before the first cached instance
      with a larger index, at the end when there is none. */
  function SortedPlacement(cache: seq<Instance>, index: int): (k: nat)
    ensures k <= |cache|
    ensures k < |cache| ==> cache[k].index > index
    ensures forall x :: 0 <= x < k ==> cache[x].index <= index
  {
    if cache == [] then 0
    else if cache[0].index > index then 0
    else 1 + SortedPlacement(cache[1..], index)
  }

  /** The corrected placement loop. */
  method InsertIndex(cache: seq<Instance>, index: int) returns (insertIndex: nat)
    ensures insertIndex == SortedPlacement(cache, index)
  {
    insertIndex := |cache|;
    for x := 0 to |cache|
      invariant forall y :: 0 <= y < x ==> cache[y].index <= index
    {
      if cache[x].index > index {
        insertIndex := x;
        break;
      }
    }
    SortedPlacementUnique(cache, index, insertIndex);
  }

  lemma SortedPlacementUnique(cache: seq<Instance>, index: int, k: nat)
    requires k <= |cache|
    requires k < |cache| ==> cache[k].index > index
    requires forall x :: 0 <= x < k ==> cache[x].index <= index
    ensures k == SortedPlacement(cache, index)
  {
  }

  /** One pair of positions of an ordered insertion: the new instance sits
      at `k`, after every index not above it and before every larger one. */
  lemma KeepsOrderAt(cache: seq<Instance>, inst: Instance, k: nat, r: seq<Instance>, i: int, j: int)
    requires SortedByIndex(cache)
    requires forall x :: 0 <= x < |cache| ==> cache[x].index != inst.index
    requires k <= |cache|
    requires k < |cache| ==> cache[k].index > inst.index
    requires forall x :: 0 <= x < k ==> cache[x].index <= inst.index
    requires r == InsertAt(cache, k, inst)
    requires 0 <= i < j < |r|
    ensures r[i].index < r[j].index
  {
    if j < k {
      assert r[i] == cache[i] && r[j] == cache[j];
    } else if j == k {
      assert r[i] == cache[i] && cache[i].index <= inst.index;
    } else if i == k {
      assert r[j] == cache[j - 1] && cache[j - 1].index > inst.index by {
        assert cache[k].index > inst.index;
      }
    } else if i < k {
      assert r[i] == cache[i] && r[j] == cache[j - 1];
    } else {
      assert r[i] == cache[i - 1] && r[j] == cache[j - 1];
    }
  }

  /** Inserting a new index at the corrected placement keeps the cache
      ordered by index. */
  lemma SortedPlacementKeepsOrder(cache: seq<Instance>, inst: Instance)
    requires SortedByIndex(cache)
    requires forall j :: 0 <= j < |cache| ==> cache[j].index != inst.index
    ensures SortedByIndex(InsertAt(cache, SortedPlacement(cache, inst.index), inst))
  {
    var k := SortedPlacement(cache, inst.index);
    var r := InsertAt(cache, k, inst);
    assert SortedByIndex(r) by {
      forall i, j | 0 <= i < j < |r|
        ensures r[i].index < r[j].index
      {
        KeepsOrderAt(cache, inst, k, r, i, j);
      }
    }
  }

  /** On an ordered cache whose first index is below the new one, the code
      as written and the corrected placement agree: they differ only when
      the new index is smaller than every cached one. */
  lemma PlacementsAgreeUnlessFront(cache: seq<Instance>, index: int)
    requires SortedByIndex(cache)
    requires forall j :: 0 <= j < |cache| ==> cache[j].index != index
    requires cache == [] || cache[0].index < index
    ensures PlacementAsWritten(cache, index) == SortedPlacement(cache, index)
  {
    var k := SortedPlacement(cache, index);
    if k < |cache| {
      assert 0 < k;
      assert cache[k - 1].index < index;
    }
    PlacementAsWrittenUnique(cache, index, k);
  }
}
