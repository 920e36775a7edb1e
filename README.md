# Dialogue Trees runtime, in Dafny

A model of the runtime core of the Dialogue Trees plugin for Godot (C#). The
plugin stores a dialogue as a graph document (`DialogueTreeData`). A
`DialogueTree` walks that graph. It lazily builds one node instance per node
it needs, keeps the node that is waiting for player input focused, and emits
signals: dialogue output, dialogue ended, variable value changing.

The model has these modules:

- `TreeDoc` and `TreeData`: the graph document. Each node's type is stored as
  an index into a de-duplicated name table. Connections are stored as a flat
  integer array, four integers per edge. `DialogueTreeData` is a class whose
  methods replace these collections; its loops are proved against the
  encoding functions.
- `NodeData`: `DialogueNodeData`, the settings entry that describes one node
  type (its limit, validity and instantiation).
- `Settings`: the two settings resources with their node type lists and the
  first-match lookup by save name.
- `Variants`: the part of Godot's `Variant` the payloads use. `VariableTypes`:
  the variable type registry and the enum setter and condition.
- `Instances`: the node-instance variants and their input options, the
  switch node's case selection, and the instance cache.
- `Machine`: what every step of the runtime does, as functions of an
  environment (the document, the settings and the host scene) and a state
  (focus, instance cache, signal log).
- `Engine`: `DialogueTree` as a class whose fields are that state. Each method
  is proved to change the state exactly as the matching `Machine` function
  says.
- `MachineLemmas`: what the source promises about those functions. The cache
  holds one instance per node. Lookups are idempotent. Each
  variant routes through the port the source names. Setters and conditions
  agree. Starting and sending input keep the state consistent. Extra fuel
  changes nothing once the walk is finished.

A node instance is modelled by its node index and its fields. A reference to
another instance, such as a setter's variable node, is the referenced node's
index; the cache resolves it. The host scene is a parameter mapping node
paths to actions and to conditions (with the value each condition's
`Invoke` returns).

A walk through non-suspending nodes can run forever in the source. Every
traversal therefore takes a `fuel` argument, and each connection followed
costs one unit. The `exhausted` result says the walk stopped for lack of
fuel; the lemmas state the behaviour for walks that finished.

## Model

| member | source | states |
|---|---|---|
| TreeDoc.Dedup | addons/dialogue_trees/DialogueTreeData.cs:71-78 | the type table holds every name of the input exactly once and no other name, so it is no longer than the input |
| TreeDoc.TypeIndexes | addons/dialogue_trees/DialogueTreeData.cs:80-83 | one index per node; each index lies inside the table, and the table entry it points at is that node's name |
| TreeDoc.NodeTypesRoundTrip | addons/dialogue_trees/DialogueTreeData.cs:63-87 | decoding the stored table and indexes gives back exactly the name sequence that was stored |
| TreeDoc.DedupFirstSeen | addons/dialogue_trees/DialogueTreeData.cs:71-85 | the table lists names in the order of their first occurrence in the input |
| TreeDoc.EncodeDecodeFixedPoint | addons/dialogue_trees/DialogueTreeData.cs:65-87 | storing the names a document decodes to rebuilds the same table and the same index array, so setting node types again changes nothing |
| TreeDoc.EncodedTypesOk | addons/dialogue_trees/DialogueTreeData.cs:62-87 | an encoded document has every index in range and a duplicate-free table; its node count is the input's length, and node x reads back as the x-th name |
| TreeDoc.Flatten | addons/dialogue_trees/DialogueTreeData.cs:99-110 | the flat storage has four integers per connection |
| TreeDoc.FlattenAt | addons/dialogue_trees/DialogueTreeData.cs:103-109 | slot 4i+j of the flat storage holds field j (from node, from port, to node, to port) of connection i |
| TreeDoc.Unflatten | addons/dialogue_trees/DialogueTreeData.cs:89-95 | decoding gives one connection per complete group of four; connection i is read from slots 4i to 4i+3 |
| TreeDoc.ConnectionsRoundTrip | addons/dialogue_trees/DialogueTreeData.cs:89-113 | decoding what `SetConnections` stores gives the same connections back |
| TreeDoc.FlatRoundTrip | addons/dialogue_trees/DialogueTreeData.cs:89-113 | storage whose length is a multiple of four is unchanged by decoding and re-encoding |
| TreeDoc.FirstConnectionIndex | addons/dialogue_trees/DialogueTree.cs:93-101 | the position of a connection leaving the given node and port, with none before it; none exactly when no connection leaves there |
| TreeDoc.FirstConnectionIndexAt | addons/dialogue_trees/DialogueTree.cs:93-98 | a connection that leaves the given node and port, with none leaving there before it, is the one found |
| TreeDoc.FirstConnection | addons/dialogue_trees/DialogueTree.cs:93-101 | the connection the loop returns: the one at `FirstConnectionIndex`, so the first in document order leaving the node and port, or none |
| TreeDoc.FirstNodeOfType | addons/dialogue_trees/DialogueTree.cs:151-157 | the lowest node index (from the start point on) whose type is the given name; none exactly when no such node exists |
| TreeDoc.FirstNodeOfTypeAt | addons/dialogue_trees/DialogueTree.cs:151-154 | a node of the given type with none of that type before it is the one found |
| TreeData.SeedNodes | addons/dialogue_trees/DialogueTreeData.cs:27-36 | the seeded types are each entry's save name, repeated `SeedCount` times, entries in list order; there is one null payload per seeded node |
| TreeData.TypeTable | addons/dialogue_trees/DialogueTreeData.cs:67-78 | the dictionary's keys in insertion order are the de-duplicated table; its domain is exactly the input's names, and each name maps to its own position in the table |
| TreeData.IndexTable | addons/dialogue_trees/DialogueTreeData.cs:80-83 | the index array read from the dictionary is the encoding of the input names |
| TreeData.TypeIndexAt | addons/dialogue_trees/DialogueTreeData.cs:83 | a node's stored index is the position of its name in the table |
| TreeData.DialogueTreeData.constructor | addons/dialogue_trees/DialogueTreeData.cs:11-39 | null settings leave the document empty; a default tree is copied; otherwise the document is the encoding of the seeded types with no connections and one null payload per node, and it is valid |
| TreeData.DialogueTreeData.Clear | addons/dialogue_trees/DialogueTreeData.cs:54-60 | the document becomes empty and valid; node and connection counts are 0 |
| TreeData.DialogueTreeData.GetNodeType | addons/dialogue_trees/DialogueTreeData.cs:63 | the node's type is one of the table's names |
| TreeData.DialogueTreeData.SetNodeTypes | addons/dialogue_trees/DialogueTreeData.cs:65-87 | the table becomes the de-duplicated names and the indexes their encoding, whatever was stored before; connections and payloads are kept; the node count is the input's length and every node reads back its name; validity is kept |
| TreeData.DialogueTreeData.GetConnectionsCount | addons/dialogue_trees/DialogueTreeData.cs:89 | the count is the number of connections the storage decodes to |
| TreeData.DialogueTreeData.GetConnection | addons/dialogue_trees/DialogueTreeData.cs:90-95 | the connection at logical index i is the i-th decoded connection |
| TreeData.DialogueTreeData.SetConnections | addons/dialogue_trees/DialogueTreeData.cs:97-113 | the storage becomes four slots per connection; node types and payloads are kept; reading back gives the same count and the same connection at every index; validity is kept |
| NodeData.DialogueNodeData.constructor | addons/dialogue_trees/scripts/core/DialogueNodeData.cs:71 | a new entry's raw limit is -1 (unlimited) and it belongs to no settings collection |
| NodeData.DialogueNodeData.NodeLimit | addons/dialogue_trees/scripts/core/DialogueNodeData.cs:73-75 | a raw limit of -1 reads as `int.MaxValue`; any other raw limit reads as itself |
| NodeData.DialogueNodeData.SetNodeLimit | addons/dialogue_trees/scripts/core/DialogueNodeData.cs:76 | the raw value is stored unchanged, and any value other than -1 reads back as itself |
| NodeData.DialogueNodeData.TryInstantiateDialogueNode | addons/dialogue_trees/scripts/core/DialogueNodeData.cs:95-105 | succeeds exactly when the entry is valid and its scene's root is a dialogue node; an invalid entry always fails |
| NodeData.DialogueNodeData.IsValid | addons/dialogue_trees/scripts/core/DialogueNodeData.cs:90-93 | the validity test: scene and script present, node name and save name non-empty; both `TryInstantiate` operations fail on an entry that is not valid |
| NodeData.DialogueNodeData.TryInstantiateDialogueNodeInstance | addons/dialogue_trees/scripts/core/DialogueNodeData.cs:107-121 | an invalid entry fails; a valid entry gives the variant its script builds; a success always comes from a valid entry whose script builds that variant |
| NodeData.SeedCount | addons/dialogue_trees/DialogueTreeData.cs:31 | the seeding loop runs no times exactly when `IncludeInNewTrees` or `NodeLimit` is at most zero; otherwise it runs the smaller of the two numbers of times (at most each, and equal to one of them) |
| NodeData.UnlimitedSeedsInclude | addons/dialogue_trees/DialogueTreeData.cs:31 | with the default unlimited raw limit, a node type is seeded exactly `IncludeInNewTrees` times |
| Settings.ScanSafe | addons/dialogue_trees/scripts/core/DialogueTreeSettings.cs:48-57 | when the search loop dereferences no null entry: every entry before the first match, or every entry when none matches, is non-null |
| Settings.FirstSaveNameIndex | addons/dialogue_trees/scripts/core/DialogueTreeSettings.cs:50-56 | the position of an entry with the searched save name, with no match before it; none exactly when no entry matches |
| Settings.FindBySaveName | addons/dialogue_trees/scripts/core/DialogueTreeSettings.cs:48-57 | a non-null result is a listed entry with the searched save name; null exactly when no entry has it |
| Settings.FindAfterAppend | addons/dialogue_trees/scripts/core/DialogueTreesSettings.cs:52-66 | appending entries after a list that already has a match does not change what the search finds |
| Settings.DialogueTreeSettings.constructor | addons/dialogue_trees/scripts/core/DialogueTreeSettings.cs:10-13 | a new settings object lists no node types, has no default tree and has emitted no signal |
| Settings.DialogueTreeSettings.SetDialogueNodeData | addons/dialogue_trees/scripts/core/DialogueTreeSettings.cs:29-42 | the list is stored as given; every non-null entry points back at this settings object, and null entries are skipped; exactly one collection-changed signal is emitted; the default tree and every entry's limit are kept |
| Settings.DialogueTreeSettings.NotifyCollectionModified | addons/dialogue_trees/scripts/core/DialogueTreeSettings.cs:59-62 | exactly one more collection-changed signal, and nothing else changes |
| Settings.DialogueTreeSettings.GetDialogueNodeData | addons/dialogue_trees/scripts/core/DialogueTreeSettings.cs:48-57 | a non-null result has the searched save name and is at a position with no match before it; null means no entry matches |
| Settings.DialogueTreesSettings.constructor | addons/dialogue_trees/scripts/core/DialogueTreesSettings.cs:13-16 | a new settings object lists no node types, has no default tree and has emitted no signal |
| Settings.DialogueTreesSettings.SetDialogueNodeData | addons/dialogue_trees/scripts/core/DialogueTreesSettings.cs:32-46 | the list is stored as given; every non-null entry points back at this settings object; exactly one collection-changed signal is emitted; the default tree and every entry's limit are kept |
| Settings.DialogueTreesSettings.NotifyCollectionModified | addons/dialogue_trees/scripts/core/DialogueTreesSettings.cs:68-71 | exactly one more collection-changed signal, and nothing else changes |
| Settings.DialogueTreesSettings.AddDialogueNodeData | addons/dialogue_trees/scripts/core/DialogueTreesSettings.cs:52-55 | the list becomes the old list followed by the new entries, in order, so its length is the sum of both; exactly one signal is emitted; every non-null entry points back at this object; the default tree and every entry's node limit are unchanged |
| Settings.DialogueTreesSettings.GetDialogueNodeData | addons/dialogue_trees/scripts/core/DialogueTreesSettings.cs:57-66 | a non-null result has the searched save name and is at a position with no match before it; null means no entry matches |
| VariableTypes.GetVariableDataList | addons/dialogue_trees/scripts/dialogue_nodes/variable/DialogueVariableNodeInstance.cs:41-51 | the built-in registry has exactly one entry: "Enum", with the enum setter and the enum condition scripts |
| VariableTypes.FirstDataForType | addons/dialogue_trees/scripts/dialogue_nodes/variable/DialogueVariableNodeInstance.cs:53-60 | the result is a registry entry of the searched type, or the default entry; it is of that type whenever some entry is, and is the default exactly when none is |
| VariableTypes.FirstDataForTypeIsFirst | addons/dialogue_trees/scripts/dialogue_nodes/variable/DialogueVariableNodeInstance.cs:55-57 | the search returns the first entry of the searched type |
| VariableTypes.GetVariableDataForType | addons/dialogue_trees/scripts/dialogue_nodes/variable/DialogueVariableNodeInstance.cs:53-60 | "Enum" gets the enum entry; every other type gets the default entry |
| VariableTypes.ScriptsOnlyForEnum | addons/dialogue_trees/scripts/dialogue_nodes/variable/DialogueVariableNodeInstance.cs:41-60 | a type gets a setter script exactly when it is "Enum", and likewise a condition script |
| VariableTypes.ReadySetter | addons/dialogue_trees/scripts/variable_subnodes/enum/DialogueEnumSetterInstance.cs:10-13 | the enum setter stores the first payload entry as its enum name |
| VariableTypes.ReadyCondition | addons/dialogue_trees/scripts/variable_node_instances/DialogueEnumConditionInstance.cs:10-13 | the enum condition stores the first payload entry as its selected enum |
| VariableTypes.SetVariable | addons/dialogue_trees/scripts/variable_subnodes/enum/DialogueEnumSetterInstance.cs:15-18 | the new value reads as the setter's enum name |
| VariableTypes.RunCondition | addons/dialogue_trees/scripts/variable_node_instances/DialogueEnumConditionInstance.cs:15-18 | true exactly when the value's string form equals the selected enum |
| VariableTypes.SetVariableConstant | addons/dialogue_trees/scripts/variable_subnodes/enum/DialogueEnumSetterInstance.cs:15-18 | the result does not depend on the previous value |
| VariableTypes.SetVariableIdempotent | addons/dialogue_trees/scripts/variable_subnodes/enum/DialogueEnumSetterInstance.cs:15-18 | applying the setter twice equals applying it once |
| VariableTypes.WriteThenRead | addons/dialogue_trees/scripts/variable_node_instances/DialogueEnumConditionInstance.cs:15-18 | after an enum setter writes s, a condition selecting t holds exactly when t equals s |
| VariableTypes.ReadyPairAgrees | addons/dialogue_trees/scripts/variable_node_instances/DialogueEnumConditionInstance.cs:10-18 | a setter and a condition readied from the same payload agree: the condition holds after the setter ran |
| Instances.InputOptions | addons/dialogue_trees/DialogueTree.cs:200-216 | one option per input, in input order; without a parameter table every option has null parameters; option x gets the table's entry x when the table is that long, null otherwise |
| Instances.ConstructInputOptions | addons/dialogue_trees/DialogueTree.cs:200-216 | the array filled by the two loops is the option sequence above |
| Instances.NodeInputOptions | addons/dialogue_trees/scripts/dialogue_node_instances/DialogueOutputNodeInstance.cs:27-30 | an output node offers one empty option with an empty parameter list; a switch node offers its case texts; every other variant keeps the inherited empty list (addons/dialogue_trees/scripts/core/DialogueNodeInstance.cs:33-36) |
| Instances.SwitchOptionsAreCases | addons/dialogue_trees/scripts/dialogue_node_instances/DialogueSwitchNodeInstance.cs:33-36 | a switch node offers one option per case text, in the same order, with null parameters |
| Instances.LowerChar | addons/dialogue_trees/scripts/dialogue_node_instances/DialogueSwitchNodeInstance.cs:21 | ASCII upper-case letters map to lower case; every other character is kept |
| Instances.ToLower | addons/dialogue_trees/scripts/dialogue_node_instances/DialogueSwitchNodeInstance.cs:21 | lower-casing keeps the length and lower-cases each character |
| Instances.CaseMatches | addons/dialogue_trees/scripts/dialogue_node_instances/DialogueSwitchNodeInstance.cs:20-23 | the case test: the input contains the case text up to ASCII letter case; `EmptyCaseMatches`, `ChoosePort` and `FirstMatchIsChosen` state what the switch derives from it |
| Instances.EmptyCaseMatches | addons/dialogue_trees/scripts/dialogue_node_instances/DialogueSwitchNodeInstance.cs:20-23 | an empty case text matches every input |
| Instances.ChoosePort | addons/dialogue_trees/scripts/dialogue_node_instances/DialogueSwitchNodeInstance.cs:16-31 | the port lies between 0 and the number of cases; a port below that number is a matching case, and no earlier case matches |
| Instances.ElsePortIffNoMatch | addons/dialogue_trees/scripts/dialogue_node_instances/DialogueSwitchNodeInstance.cs:18-30 | the else port (the number of cases) is chosen exactly when no case matches |
| Instances.ChooseCase | addons/dialogue_trees/scripts/dialogue_node_instances/DialogueSwitchNodeInstance.cs:18-30 | the loop with early return picks the port `ChoosePort` gives: the first matching case, else the else port |
| Instances.FirstMatchIsChosen | addons/dialogue_trees/scripts/dialogue_node_instances/DialogueSwitchNodeInstance.cs:18-27 | a matching case with no match before it is the chosen port |
| Instances.ElsePortWhenNoMatch | addons/dialogue_trees/scripts/dialogue_node_instances/DialogueSwitchNodeInstance.cs:30 | with no matching case the else port is chosen |
| Instances.FindCached | addons/dialogue_trees/DialogueTree.cs:128-130 | the position of an instance of the node, with none before it; none exactly when no instance of the node is cached |
| Instances.SetStateOf | addons/dialogue_trees/DialogueTree.cs:184 | writing an instance's fields keeps the cache's length and indices; instances of other nodes are unchanged, and instances of this node get the new fields |
| Instances.SetStateOfFound | addons/dialogue_trees/DialogueTree.cs:184 | after the write the same position is found, and it holds the new fields |
| Instances.InsertAt | addons/dialogue_trees/DialogueTree.cs:182 | the list grows by one with the new instance at the position; earlier entries keep their places and later ones shift by one |
| Instances.InsertDistinct | addons/dialogue_trees/DialogueTree.cs:176-182 | inserting an instance whose index the cache does not hold, at any position, keeps every index in the cache distinct |
| Instances.PlacementAsWritten | addons/dialogue_trees/DialogueTree.cs:176-180 | the placement as written: after the last adjacent pair whose indices strictly bracket the new one, or at the end when no pair does |
| Instances.InsertIndexAsWritten | addons/dialogue_trees/DialogueTree.cs:176-180 | the loop as written computes that placement |
| Instances.PlacementAsWrittenLosesOrder | addons/dialogue_trees/DialogueTree.cs:176-182 | with node 1 cached, node 0 is placed after it, and the cache is no longer ordered |
| Instances.SortedPlacement | addons/dialogue_trees/DialogueTree.cs:176-180 | the corrected placement: before the first cached instance with a larger index, at the end when there is none |
| Instances.InsertIndex | addons/dialogue_trees/DialogueTree.cs:176-180 | the corrected loop computes that placement |
| Instances.KeepsOrderAt | addons/dialogue_trees/DialogueTree.cs:176-182 | for one pair of positions: inserting at a position after every index not above the new one and before every larger one puts the pair in increasing order |
| Instances.SortedPlacementKeepsOrder | addons/dialogue_trees/DialogueTree.cs:176-182 | inserting a node that is not cached at the corrected placement keeps the cache ordered by index |
| Instances.PlacementsAgreeUnlessFront | addons/dialogue_trees/DialogueTree.cs:176-182 | on an ordered cache the placement as written and the corrected one agree unless the new index is below every cached one |
| Instances.SortedDistinct | addons/dialogue_trees/DialogueTree.cs:128-132 | an ordered cache holds at most one instance per node |
| Machine.LeafFields | addons/dialogue_trees/scripts/dialogue_node_instances/DialogueOutputNodeInstance.cs:11-15 | the `Ready` of every variant without a variable binding (start, output, switch, action, condition, call, function, variable) gives a ready instance of the variant its node's type instantiates |
| Machine.BoundFields | addons/dialogue_trees/scripts/dialogue_nodes/variable_setter/DialogueVariableSetterNodeInstance.cs:14-32 | the `Ready` of a setter, or of a variable condition (addons/dialogue_trees/scripts/dialogue_node_instances/DialogueVariableConditionNodeInstance.cs:14-32), gives a ready instance of its own variant |
| Machine.WellFormed | addons/dialogue_trees/DialogueTree.cs:165-167 | what the runtime dereferences without checking, asked of every node and every first connection of the document, whether a walk reaches it or not: every node type is registered in the settings; every payload is long enough for its variant; a setter's or condition's index, unless -1, names a variable node; and the target of every first connection instantiates |
| Machine.StartOk | addons/dialogue_trees/DialogueTree.cs:58 | the lookup of "Srt" reads no null entry and finds an entry when there are nodes, and the first "Srt" node either fails to instantiate or builds a start instance, so the cast succeeds |
| Machine.GetInstance | addons/dialogue_trees/DialogueTree.cs:123-133 | null, with nothing changed, out of range or without a tree; an instance it returns is always the requested node's own; `GetInstanceFacts` gives the rest |
| Machine.Instantiate | addons/dialogue_trees/DialogueTree.cs:160-186 | an entry that fails to instantiate adds one error report, changes nothing else and gives null; otherwise the node's own instance is returned; `InstantiateFacts` gives the cache effects |
| Machine.Ready | addons/dialogue_trees/scripts/core/DialogueNodeInstance.cs:15-18 | the `Ready` of each variant, through `LeafFields` and `BoundFields` (for an unbound setter or condition, no binding); `ReadyFacts`, `ReadyUnboundFacts` and `ReadyBindingFacts` state its effects |
| Machine.ConnectionToPort | addons/dialogue_trees/DialogueTree.cs:88-102 | null without a tree, else `TreeDoc.FirstConnection` of the tree's connections |
| Machine.SetValue | addons/dialogue_trees/scripts/dialogue_nodes/variable/DialogueVariableNodeInstance.cs:11-16 | the `VariableValue` setter; `SetValueWrites` and `SetValueConsistent` state its effects |
| Machine.SendPort | addons/dialogue_trees/scripts/core/DialogueNodeInstance.cs:45-53 | `SendPortOutput` up to the connection: without one the dialogue ends; `SendPortFollows`, `SendPortCases`, `SendPortConsistent` and `SendPortFuelMonotone` state its effects |
| Machine.Follow | addons/dialogue_trees/scripts/core/DialogueNodeInstance.cs:55-57 | the target's instance is looked up, focused and receives the input on the connection's port; `FollowConsistent` states that it keeps the state consistent |
| Machine.ReceivePort | addons/dialogue_trees/scripts/core/DialogueNodeInstance.cs:21-24 | the `RecievePortInput` overrides, and the inherited no-op for the other variants; `OutputSuspends` and the `*Routes` lemmas state each variant's route, `ReceivePortConsistent` the invariant |
| Machine.ReceiveDialogue | addons/dialogue_trees/scripts/dialogue_node_instances/DialogueSwitchNodeInstance.cs:16-31 | the `RecieveDialogueInput` overrides (switch, output) and the inherited no-op; `InputRoutes` states the route |
| Machine.Input | addons/dialogue_trees/DialogueTree.cs:77-80 | input goes to the focused node; `IdleIgnoresInput`, `InputRoutes` and `InputConsistent` state its effects |
| Machine.Options | addons/dialogue_trees/DialogueTree.cs:82-85 | no options without a focused node or without its cached instance; options only ever come from the focused node's instance |
| Machine.FirstOfType | addons/dialogue_trees/DialogueTree.cs:146-158 | null without a tree or without nodes; an instance it returns is of the lowest-index node whose type is the entry's save name |
| Machine.Start | addons/dialogue_trees/DialogueTree.cs:50-68 | `StartDialogue`; `StartWithoutStartNodeEnds`, `StartUnconnectedEnds` and `StartConsistent` state its effects |
| Machine.MatchingNodes | addons/dialogue_trees/DialogueTree.cs:112-113 | the nodes from `x` on that the loop collects, each a node of the tree at or after `x` |
| Machine.FindFrom | addons/dialogue_trees/DialogueTree.cs:112-114 | the node loop from node `x` on; `FindFromFacts` states its result |
| Machine.Find | addons/dialogue_trees/DialogueTree.cs:105-117 | `FindDialogueNodeInstances`; `FindFacts` states its result |
| MachineLemmas.BoundFieldsEnum | addons/dialogue_trees/scripts/dialogue_nodes/variable_setter/DialogueVariableSetterNodeInstance.cs:18-30 | when the lookup found an "Enum" variable node and `data[1]` is non-empty, the instance binds that node and an enum setter (or condition) named by `data[1]`'s first entry; when no variable node was found, it binds neither |
| MachineLemmas.InsertKeeps | addons/dialogue_trees/DialogueTree.cs:176-182 | inserting a placeholder for an uncached node at any position, so at the placement as written, keeps the cache invariant (each node cached once, every entry of its node's variant), keeps every cached node and adds exactly one entry |
| MachineLemmas.GetInstanceFacts | addons/dialogue_trees/DialogueTree.cs:123-133 | a lookup keeps the focus, adds only error reports, keeps every cached instance and the cache invariant, and returns the node's own instance exactly when the node exists and instantiates; that instance is then cached |
| MachineLemmas.InstantiateFacts | addons/dialogue_trees/DialogueTree.cs:160-186 | a failed instantiation only adds an error report and returns null; a successful one, placing the new instance as the loop is written, caches the node and keeps the invariant; for a variant without a binding, the cache grows by exactly one |
| MachineLemmas.ReadyFacts | addons/dialogue_trees/DialogueTree.cs:184 | `Ready` keeps the focus and the invariant, adds only error reports, leaves the node's instance ready, and adds no entry for a variant without a binding |
| MachineLemmas.ReadyUnboundFacts | addons/dialogue_trees/scripts/dialogue_nodes/variable/DialogueVariableNodeInstance.cs:32-38 | the `Ready` of a variant that binds nothing emits no signal and adds no entry; a leaf variant's instance holds exactly the fields decoded from its payload, and an unbound setter or condition binds nothing (DialogueVariableSetterNodeInstance.cs:16-18) |
| MachineLemmas.ReadyBindingFacts | addons/dialogue_trees/scripts/dialogue_nodes/variable_setter/DialogueVariableSetterNodeInstance.cs:16-31 | a setter's or condition's `Ready` that looks up its variable node keeps the focus and the invariant, adds only error reports, and leaves its instance ready |
| MachineLemmas.GetInstanceIdempotent | addons/dialogue_trees/DialogueTree.cs:123-133 | repeating a lookup that gave an instance gives the same instance and changes nothing, so each node is instantiated at most once |
| MachineLemmas.ReentrantLookupFindsPlaceholder | addons/dialogue_trees/DialogueTree.cs:182-184 | while the new instance gets ready, placed as the loop is written, a lookup of its own node finds it in the cache |
| MachineLemmas.CachedStateKind | addons/dialogue_trees/DialogueTree.cs:165-184 | every cached instance names an existing node and is of the variant that node's type instantiates |
| MachineLemmas.SetValueWrites | addons/dialogue_trees/scripts/dialogue_nodes/variable/DialogueVariableNodeInstance.cs:8-17 | assigning a variable value emits exactly one changing signal carrying the new value and then stores it, so reading gives it back; all other instances and the focus are unchanged |
| MachineLemmas.MatchingNodesMatch | addons/dialogue_trees/DialogueTree.cs:113 | every listed node satisfies the predicate on its type and payload |
| MachineLemmas.MatchingNodesIncreasing | addons/dialogue_trees/DialogueTree.cs:112 | the listed nodes are in strictly increasing node order |
| MachineLemmas.MatchingNodesComplete | addons/dialogue_trees/DialogueTree.cs:112-113 | every node from `x` on that satisfies the predicate is listed |
| MachineLemmas.FindFromFacts | addons/dialogue_trees/DialogueTree.cs:112-114 | the loop keeps the entries already collected and appends exactly one per matching node, in node order: the node's own instance when it instantiates, null otherwise; it keeps the focus and the cache invariant and adds only error reports |
| MachineLemmas.FindFromMatch | addons/dialogue_trees/DialogueTree.cs:113-114 | the same, for a loop whose first node matches and is looked up |
| MachineLemmas.FoundStep | addons/dialogue_trees/DialogueTree.cs:114 | adding one lookup's result in front of the rest of the loop keeps that statement |
| MachineLemmas.FindFacts | addons/dialogue_trees/DialogueTree.cs:105-117 | as many entries as matching nodes, entry k the instance of the k-th matching node or null when it does not instantiate; focus and cache invariant kept, only error reports added |
| MachineLemmas.SetterThenCondition | addons/dialogue_trees/scripts/variable_node_instances/DialogueEnumConditionInstance.cs:15-18 | once an enum setter has written a variable node, an enum condition on that node holds exactly when it selects the written name |
| MachineLemmas.InitialConsistent | addons/dialogue_trees/DialogueTree.cs:32-37 | a new tree, with no focus and an empty cache, is consistent |
| MachineLemmas.SendPortFollows | addons/dialogue_trees/scripts/core/DialogueNodeInstance.cs:45-57 | sending through a connected port looks up the target, which exists; focuses it; and passes the input on the connection's input port |
| MachineLemmas.SendPortCases | addons/dialogue_trees/scripts/core/DialogueNodeInstance.cs:45-57 | with no connection the dialogue ends and nothing else changes; with one, the walk follows it (or stops for lack of fuel) |
| MachineLemmas.SendPortConsistent | addons/dialogue_trees/scripts/core/DialogueNodeInstance.cs:45-57 | sending through a port keeps the state consistent and keeps every cached instance |
| MachineLemmas.FollowConsistent | addons/dialogue_trees/scripts/core/DialogueNodeInstance.cs:55-57 | following a connection keeps the state consistent and keeps every cached instance |
| MachineLemmas.ReceivePortConsistent | addons/dialogue_trees/scripts/core/DialogueNodeInstance.cs:21-24 | every variant's port input keeps the state consistent and keeps every cached instance |
| MachineLemmas.SetValueConsistent | addons/dialogue_trees/scripts/dialogue_nodes/variable/DialogueVariableNodeInstance.cs:8-17 | assigning a variable value keeps the state consistent |
| MachineLemmas.SendPortFuelMonotone | addons/dialogue_trees/scripts/core/DialogueNodeInstance.cs:45-57 | a walk that finished within its fuel gives the same result with more fuel |
| MachineLemmas.ReceivePortFuelMonotone | addons/dialogue_trees/scripts/core/DialogueNodeInstance.cs:21-24 | the same for a walk that starts with a node's port input |
| MachineLemmas.ReceivePortIgnoresPort | addons/dialogue_trees/scripts/dialogue_node_instances/DialogueActionNodeInstance.cs:16-21 | no variant's port input depends on the port it arrived on |
| MachineLemmas.OutputSuspends | addons/dialogue_trees/scripts/dialogue_node_instances/DialogueOutputNodeInstance.cs:17-20 | an output node emits exactly one output signal with its text, its character and no parameters, and does not route; focus and cache are unchanged |
| MachineLemmas.ActionSignal | addons/dialogue_trees/scripts/dialogue_node_instances/DialogueActionNodeInstance.cs:18 | the action is invoked once when it resolved, and not at all otherwise |
| MachineLemmas.ConditionSignal | addons/dialogue_trees/scripts/dialogue_nodes/condition/DialogueConditionNodeInstance.cs:18 | the condition is evaluated once when it resolved, and never otherwise |
| MachineLemmas.ActionRoutes | addons/dialogue_trees/scripts/dialogue_node_instances/DialogueActionNodeInstance.cs:16-21 | an action node invokes its action, if any, and routes through port 0, whatever port the input arrived on |
| MachineLemmas.ConditionRoutes | addons/dialogue_trees/scripts/dialogue_nodes/condition/DialogueConditionNodeInstance.cs:16-22 | a condition node routes through port 0 exactly when its condition resolved and holds, and through port 1 otherwise |
| MachineLemmas.VariableConditionRoutes | addons/dialogue_trees/scripts/dialogue_node_instances/DialogueVariableConditionNodeInstance.cs:34-43 | a variable condition node routes through port 0 exactly when it is bound and its condition holds of the variable's value at activation time, and through port 1 otherwise |
| MachineLemmas.SetterRoutes | addons/dialogue_trees/scripts/dialogue_nodes/variable_setter/DialogueVariableSetterNodeInstance.cs:34-40 | a setter node applies its setter, when both the setter and the variable are bound, and always routes through port 0 |
| MachineLemmas.SetterEffectWrites | addons/dialogue_trees/scripts/dialogue_nodes/variable_setter/DialogueVariableSetterNodeInstance.cs:36-37 | a bound setter stores `SetVariable(old value)` in its variable node and announces it; an unbound one changes nothing |
| MachineLemmas.CallRoutes | addons/dialogue_trees/scripts/dialogue_node_instances/DialogueCallNodeInstance.cs:15-26 | a call node continues from port 0 of the function node it names when that node's instance is a function node, and ends the dialogue otherwise |
| MachineLemmas.StartWithoutStartNodeEnds | addons/dialogue_trees/DialogueTree.cs:50-64 | with no tree, or no start node, starting only ends the dialogue: no focus, one ended signal, no output |
| MachineLemmas.StartUnconnectedEnds | addons/dialogue_trees/scripts/dialogue_node_instances/DialogueStartNodeInstance.cs:8-11 | a start node whose port 0 is unconnected leaves the dialogue inactive; the ended signal comes last, and before it there are only error reports |
| MachineLemmas.StartConsistent | addons/dialogue_trees/DialogueTree.cs:50-68 | starting keeps the state consistent |
| MachineLemmas.IdleIgnoresInput | addons/dialogue_trees/DialogueTree.cs:77-85 | with no focused node, input changes nothing and there are no input options |
| MachineLemmas.InputConsistent | addons/dialogue_trees/DialogueTree.cs:77-80 | sending input keeps the state consistent |
| MachineLemmas.InputRoutes | addons/dialogue_trees/scripts/dialogue_node_instances/DialogueSwitchNodeInstance.cs:16-36 | a focused output node offers one option and resumes through port 0 whatever the input (DialogueOutputNodeInstance.cs:22-30); a switch node offers its case texts and resumes through the chosen case; every other variant, the start node included, ignores input and offers nothing |
| Engine.DialogueTree.constructor | addons/dialogue_trees/DialogueTree.cs:32-37 | a new tree has no focus, no cached instances and no signals |
| Engine.DialogueTree.DialogueActive | addons/dialogue_trees/DialogueTree.cs:35 | active exactly when a node is focused |
| Engine.DialogueTree.EndDialogue | addons/dialogue_trees/DialogueTree.cs:70-74 | the focus becomes null and exactly one ended signal is emitted |
| Engine.DialogueTree.GetConnectionToPort | addons/dialogue_trees/DialogueTree.cs:88-102 | the loop finds the first connection in document order leaving the node and port; null without a tree or a match |
| Engine.DialogueTree.GetDialogueNodeInstance | addons/dialogue_trees/DialogueTree.cs:123-133 | the range check, the cache search and the instantiation change the state as `GetInstance` says |
| Engine.DialogueTree.InstantiateDialogueNodeInstance | addons/dialogue_trees/DialogueTree.cs:160-186 | the error path and the insertion of the new instance before its `Ready`, at the position the placement loop as written computes, change the state as `Instantiate` says |
| Engine.DialogueTree.Ready | addons/dialogue_trees/scripts/core/DialogueNodeInstance.cs:15-18 | each variant's `Ready` changes the state as `Machine.Ready` says |
| Engine.DialogueTree.BindVariable | addons/dialogue_trees/scripts/dialogue_node_instances/DialogueVariableConditionNodeInstance.cs:16-31 | the setter's and the condition's `Ready` looks up the variable node, changing the state as that lookup does, and builds the fields `BoundFields` gives |
| Engine.DialogueTree.SendDialogueOutput | addons/dialogue_trees/scripts/core/DialogueNodeInstance.cs:39-42 | exactly one output signal with the given text, character and parameters; focus and cache are unchanged |
| Engine.DialogueTree.SetVariableValue | addons/dialogue_trees/scripts/dialogue_nodes/variable/DialogueVariableNodeInstance.cs:8-17 | the changing signal is emitted, then the value is stored, as `SetValue` says |
| Engine.DialogueTree.SendPortOutput | addons/dialogue_trees/scripts/core/DialogueNodeInstance.cs:45-58 | ends the dialogue without a connection, otherwise follows it, as `SendPort` says |
| Engine.DialogueTree.FollowConnection | addons/dialogue_trees/scripts/core/DialogueNodeInstance.cs:55-57 | focuses the connected node's instance before passing the input on, as `Follow` says |
| Engine.DialogueTree.RecievePortInput | addons/dialogue_trees/scripts/core/DialogueNodeInstance.cs:21-24 | dispatches to the variant's override, or does nothing, as `ReceivePort` says |
| Engine.DialogueTree.ActionRecievePortInput | addons/dialogue_trees/scripts/dialogue_node_instances/DialogueActionNodeInstance.cs:16-21 | the action node's port input, as `ReceivePort` says |
| Engine.DialogueTree.ConditionRecievePortInput | addons/dialogue_trees/scripts/dialogue_nodes/condition/DialogueConditionNodeInstance.cs:16-22 | the condition node's port input, as `ReceivePort` says |
| Engine.DialogueTree.CallRecievePortInput | addons/dialogue_trees/scripts/dialogue_node_instances/DialogueCallNodeInstance.cs:15-26 | the call node's port input, as `ReceivePort` says |
| Engine.DialogueTree.SetterRecievePortInput | addons/dialogue_trees/scripts/dialogue_nodes/variable_setter/DialogueVariableSetterNodeInstance.cs:34-40 | the setter node's port input, as `ReceivePort` says |
| Engine.DialogueTree.VariableConditionRecievePortInput | addons/dialogue_trees/scripts/dialogue_node_instances/DialogueVariableConditionNodeInstance.cs:34-43 | the variable condition node's port input, as `ReceivePort` says |
| Engine.DialogueTree.RecieveDialogueInput | addons/dialogue_trees/scripts/dialogue_node_instances/DialogueSwitchNodeInstance.cs:16-31 | the focused variant's dialogue input (switch, output at DialogueOutputNodeInstance.cs:22-25, or the inherited no-op), as `ReceiveDialogue` says |
| Engine.DialogueTree.SendInput | addons/dialogue_trees/DialogueTree.cs:77-80 | input goes to the focused node, if any, as `Input` says |
| Engine.DialogueTree.GetInputOptions | addons/dialogue_trees/DialogueTree.cs:82-85 | empty without a focused node, else that node's options, as `Options` says |
| Engine.DialogueTree.GetFirstDialogueNodeOfType | addons/dialogue_trees/DialogueTree.cs:146-158 | the instance of the lowest-index node with the entry's save name, or null, as `FirstOfType` says |
| Engine.DialogueTree.StartDialogue | addons/dialogue_trees/DialogueTree.cs:50-68 | ends at once without a tree or a start node; otherwise focuses the start node and sends through its port 0 (DialogueStartNodeInstance.cs:8-11), as `Start` says |
| Engine.DialogueTree.FindDialogueNodeInstances | addons/dialogue_trees/DialogueTree.cs:105-117 | the instances of the matching nodes in node order, as `Find` says |

## Left out

- Regular expressions: a switch case is compiled as `(?i)` plus the case text. The model matches it as an ASCII case-insensitive substring test. Regex syntax in case texts and non-ASCII case folding are not modelled.
- `Variant` is a small datatype: nil, string, integer, node path, string array, array. `AsInt32` does not model 32-bit truncation, and payload conversions of other kinds read as the empty or zero value.
- The static `_singleton` that the settings constructors set, and `LoadSettings` and `_Ready`, which read resources from disk, are not modelled.
- The `TreeData` property setter and its `TreeDataChanged` signal are left out. A tree's `TreeData` is fixed at construction.
- The `DialogueNodeData` property setters that call `NotifyCollectionModified` on their collection are not modelled. The entry's names, scene and script are constants.
- `DialogueTreeData.constructor`: copying the default tree copies its contents. The aliasing of the default tree's Godot arrays, which the source shares, is not modelled; nor is `Clear` emptying a shared array in place.
- Node instances are values inside the tree's cache, identified by node index. No object model is kept: the `DialogueTree` back-reference and `Index` field, and `GetDialogueNodeInstances` (the cache as an array), are implicit.
- The generic `GetDialogueNodeInstance<T>` appears only through its two uses: `AsVariableNode`, and the call node's check for a function node.
- Actions and conditions from the host scene are a fixed table. `Invoke` is a recorded event, and a condition's result is a fixed boolean per path.
- Signals are an appended event log; connected handlers are not run.
- `SetScript`/`InstanceFromId` script loading is replaced by a token naming the variant a script builds (`Script`, `SetterScript`, `ConditionScript`). The scene instantiation in `TryInstantiateDialogueNode` becomes a token (`Scene`).
- `DialogueFunctionNodeInstance.cs` is not part of this model. The function node is a variant with no behaviour of its own, which is all the call node relies on.
- Traversal is bounded by `fuel`. A cycle of non-suspending nodes, which does not terminate in the source, stops with `exhausted` set.
- `dialogueNodeCollection` has type `object?` because `DialogueTreesSettings` stores itself there although the field's C# type is `DialogueTreeSettings`.
- `Dictionary` keys are taken in insertion order, as `SetNodeTypes` assumes.
- The enum setter is registered under a script path (`DialogueVariableNodeInstance.cs:47-48`) that differs from the directory its file is under. The model takes the registration to mean that file.
- Null dereferences the source does not guard against are preconditions (`WellFormed`, `StartOk`, `ScanSafe`) rather than error paths. They cover:
  - a node type missing from the settings;
  - a connection to a node that does not instantiate;
  - a setter or condition whose index is not a variable node;
  - a payload too short for its variant;
  - a null settings entry read by a search;
  - a null entry in the settings' node type list when a new tree is seeded from it (`DialogueTreeData.constructor` requires every entry non-null, since `DialogueTreeData.cs:27-38` reads each entry's fields);
  - a first "Srt" node whose entry builds an instance other than a start node (`StartOk`; the cast at `DialogueTree.cs:58` would throw `InvalidCastException`).
- `WellFormed` asks the first three of those of the whole document, not only of what a walk builds or follows:
  - every node type must be registered;
  - every payload must be long enough;
  - every setter's or condition's index must be a variable node;
  - the target of every first connection must instantiate.

  A document that breaks one of these anywhere, even on a node or connection no walk reaches, is outside the model. The source would run the reachable part of such a document without error. Two examples the model does not describe are a node whose type the settings no longer list and a connection into such a node.
- Out-of-range reads, where the source throws `IndexOutOfRangeException`, are preconditions rather than error paths:
  - a node index outside `[0, GetNodesCount())` in `DialogueTreeData.GetNodeType` (`DialogueTreeData.cs:63`);
  - a stored type index outside the name table in the same method (`IndexesInRange`);
  - a connection index past the last group of four in `DialogueTreeData.GetConnection` (`DialogueTreeData.cs:90-95`).

  Every caller in the runtime stays in range.
- `ValueOf`, `VariableTypeOf` and the unbound branches of `BoundFields` give a fallback value in cases those preconditions rule out.
- `RecievePortInput` is one method per variant override (`ActionRecievePortInput` and so on), dispatched from `RecievePortInput`. `FollowConnection` is the second half of `SendPortOutput`, and `BindVariable` is the shared part of the setter's and the condition's `Ready`.
- The constructor of `DialogueTreeData` runs the two loops of `SetNodeTypes` on its own fields before the object is published, instead of calling the method.
- `DialogueTreeData.GetNodeType`: the contract says only that the result is a table name. That it is the node's name is stated through `SetNodeTypes` and `TreeDoc.EncodedTypesOk`.
- `DialogueTreeData.Connection` is a datatype.
- `InstantiateDialogueNodeInstance` repeats the null check on `TreeData`. The model omits it, because the only caller has already made that check.

## Findings

| source | as written | input that shows it | evidently intended | confidence | as-written member | corrected member |
|---|---|---|---|---|---|---|
| addons/dialogue_trees/DialogueTree.cs:176-182 | the new instance goes after the last adjacent pair that brackets its index, or at the end; an index below every cached one therefore goes to the end | cache holding node 1, then node 0 is instantiated: the cache becomes [1, 0] | insertion keeping the cache ordered by index | not executed | Instances.PlacementAsWrittenLosesOrder (with Instances.InsertIndexAsWritten) | Instances.SortedPlacementKeepsOrder (with Instances.InsertIndex) |

On a cache that is still ordered, the two placements differ only for an index
below every cached one (`Instances.PlacementsAgreeUnlessFront`). The engine
and the `Machine` functions place instances as the loop is written; the
cache invariant they keep asks only that each node be cached once, which
holds under either placement. Lookups give the same results either way,
because they search the whole cache; only the order in which
`GetDialogueNodeInstances` lists the instances depends on it.
