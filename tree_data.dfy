/** `DialogueTreeData`: the resource that stores a dialogue graph. Its
    operations replace whole collections; the getters decode them. */
module TreeData {
  import opened Variants
  import opened NodeData
  import opened TreeDoc
  import opened Settings

  function Repeat(name: string, n: nat): (r: seq<string>)
    ensures |r| == n && forall x :: 0 <= x < n ==> r[x] == name
  {
    if n == 0 then [] else Repeat(name, n - 1) + [name]
  }

  /** The node types a new tree is seeded with: each entry's save name, as
      many times as its `SeedCount`, entries in list order. */
  ghost function SeedTypes(entries: seq<DialogueNodeData?>): seq<string>
    requires forall j :: 0 <= j < |entries| ==> entries[j] != null
    reads set e | e in entries && e != null
  {
    if entries == [] then []
    else
      var last := entries[|entries| - 1];
      SeedTypes(entries[..|entries| - 1]) + Repeat(last.dialogueNodeSaveName, SeedCount(last))
  }

  function Nils(n: nat): (r: seq<Variant>)
    ensures |r| == n && forall x :: 0 <= x < n ==> r[x] == Nil
  {
    if n == 0 then [] else Nils(n - 1) + [Nil]
  }

  /** The seeding loops of the constructor: for each node type entry in
      order, as many nodes of that type as it asks for, each with a null
      payload. */
  method SeedNodes(entries: seq<DialogueNodeData?>) returns (seeded: seq<string>, payloads: seq<Variant>)
    requires forall j :: 0 <= j < |entries| ==> entries[j] != null
    ensures seeded == SeedTypes(entries) && payloads == Nils(|seeded|)
  {
    seeded, payloads := [], [];
    for i := 0 to |entries|
      invariant seeded == SeedTypes(entries[..i])
      invariant payloads == Nils(|seeded|)
    {
      var nodeData := entries[i];
      assert entries[..i + 1][..i] == entries[..i];
      ghost var before := seeded;
      var x := 0;
      while x < nodeData.includeInNewTrees && x < nodeData.NodeLimit()
        invariant 0 <= x <= SeedCount(nodeData)
        invariant seeded == before + Repeat(nodeData.dialogueNodeSaveName, x)
        invariant payloads == Nils(|seeded|)
        decreases SeedCount(nodeData) - x
      {
        seeded := seeded + [nodeData.dialogueNodeSaveName];
        payloads := payloads + [Nil];
        x := x + 1;
      }
    }
    assert entries[..|entries|] == entries;
  }

  /** The first loop of `SetNodeTypes`: the de-duplicated names and the
      dictionary from each name to its position among them. */
  method TypeTable(ts: seq<string>) returns (keys: seq<string>, types: map<string, int>)
    ensures keys == Dedup(ts)
    ensures forall t :: t in types <==> t in ts
    ensures forall k :: k in types ==> 0 <= types[k] < |keys| && keys[types[k]] == k
  {
    types := map[];
    keys := [];
    var typeIndex := 0;
    for x := 0 to |ts|
      invariant keys == Dedup(ts[..x]) && typeIndex == |keys|
      invariant forall k :: k in types <==> k in keys
      invariant forall k :: k in types ==> 0 <= types[k] < |keys| && keys[types[k]] == k
    {
      assert ts[..x + 1][..x] == ts[..x];
      if ts[x] in types {
        continue;
      }
      types := types[ts[x] := typeIndex];
      keys := keys + [ts[x]];
      typeIndex := typeIndex + 1;
    }
    assert ts[..|ts|] == ts;
  }

  /** The second loop of `SetNodeTypes`: each node's position in the table,
      read from the dictionary into a fresh array. */
  method IndexTable(ts: seq<string>, keys: seq<string>, types: map<string, int>) returns (r: seq<int>)
    requires keys == Dedup(ts)
    requires forall y :: 0 <= y < |ts| ==> ts[y] in types && 0 <= types[ts[y]] < |keys| && keys[types[ts[y]]] == ts[y]
    ensures r == TypeIndexes(ts)
  {
    ghost var indexes := TypeIndexes(ts);
    var nodeTypeIndexes := new int[|ts|];
    for x := 0 to |ts|
      invariant forall y :: 0 <= y < x ==> nodeTypeIndexes[y] == indexes[y]
    {
      var k := types[ts[x]];
      TypeIndexAt(ts, x, k);
      nodeTypeIndexes[x] := k;
    }
    r := nodeTypeIndexes[..];
    assert r == indexes;
  }

  /** A node's stored index is the position of its name in the table. */
  lemma TypeIndexAt(ts: seq<string>, x: nat, k: nat)
    requires x < |ts| && k < |Dedup(ts)| && Dedup(ts)[k] == ts[x]
    ensures TypeIndexes(ts)[x] == k
  {
    IndexOfDistinct(Dedup(ts), k);
  }

  class DialogueTreeData {
    var typeNames: seq<string>
    var nodeTypes: seq<int>
    var connections: seq<int>
    /** `DialogueNodeSaveData`: one payload per node, written by the editor. */
    var saveData: seq<Variant>

    function Doc(): Doc
      reads this
    {
      TreeDoc.Doc(typeNames, nodeTypes, connections, saveData)
    }

    ghost predicate Valid()
      reads this
    {
      EncodingOk(Doc())
    }

    /** The constructor: empty without settings; a copy of the default tree when
        the settings name one; otherwise seeded from the node type list. */
    constructor (settings: DialogueTreeSettings?)
      requires settings != null && settings.defaultTree.None? ==>
        forall j :: 0 <= j < |settings.dialogueNodeData| ==> settings.dialogueNodeData[j] != null
      ensures settings == null ==> Doc() == EmptyDoc
      ensures settings != null && settings.defaultTree.Some? ==> Doc() == settings.defaultTree.value
      ensures settings != null && settings.defaultTree.None? ==>
        && Valid()
        && typeNames == Dedup(old(SeedTypes(settings.dialogueNodeData)))
        && nodeTypes == TypeIndexes(old(SeedTypes(settings.dialogueNodeData)))
        && connections == []
        && saveData == Nils(|old(SeedTypes(settings.dialogueNodeData))|)
        && GetNodesCount() == |saveData|
    {
      typeNames, nodeTypes, connections, saveData := [], [], [], [];
      var seeded: seq<string> := [];
      if settings != null && settings.defaultTree.Some? {
        var d := settings.defaultTree.value;
        typeNames, nodeTypes, connections, saveData := d.typeNames, d.nodeTypes, d.connections, d.saveData;
      } else if settings != null {
        var payloads;
        seeded, payloads := SeedNodes(settings.dialogueNodeData);
        // the `SetNodeTypes` call, on the fields not yet published
        var keys, types := TypeTable(seeded);
        assert forall y :: 0 <= y < |seeded| ==> seeded[y] in types;
        var indexes := IndexTable(seeded, keys, types);
        typeNames, nodeTypes, saveData := keys, indexes, payloads;
        EncodedTypesOk(seeded, [], payloads);
      }
      new;
    }

    /** `Clear`: no type names, nodes, connections or payloads. */
    method Clear()
      modifies this
      ensures Doc() == EmptyDoc && Valid()
      ensures GetNodesCount() == 0 && GetConnectionsCount() == 0
    {
      typeNames, nodeTypes, connections, saveData := [], [], [], [];
    }

    function GetNodesCount(): nat
      reads this
    {
      |nodeTypes|
    }

    /** `GetNodeType`: the name the node's stored index points at. */
    function GetNodeType(nodeIndex: int): (r: string)
      reads this
      requires IndexesInRange(Doc())
      requires 0 <= nodeIndex < GetNodesCount()
      ensures r in typeNames
    {
      typeNames[nodeTypes[nodeIndex]]
    }

    /** `SetNodeTypes`: rebuilds the table by first-seen de-duplication and
        rewrites every node's index into it. */
    method SetNodeTypes(ts: seq<string>)
      modifies this
      ensures typeNames == Dedup(ts) && nodeTypes == TypeIndexes(ts)
      ensures connections == old(connections) && saveData == old(saveData)
      ensures IndexesInRange(Doc()) && Distinct(typeNames)
      ensures GetNodesCount() == |ts|
      ensures forall x :: 0 <= x < |ts| ==> GetNodeType(x) == ts[x]
      ensures old(|connections| % 4 == 0) ==> Valid()
    {
      var keys, types := TypeTable(ts);
      assert forall y :: 0 <= y < |ts| ==> ts[y] in types;
      var nodeTypeIndexes := IndexTable(ts, keys, types);
      typeNames := keys;
      nodeTypes := nodeTypeIndexes;
      EncodedTypesOk(ts, connections, saveData);
      assert Doc() == TreeDoc.Doc(Dedup(ts), TypeIndexes(ts), connections, saveData);
    }

    function GetConnectionsCount(): (n: nat)
      reads this
      ensures n == |Connections(Doc())|
    {
      |connections| / 4
    }

    /** `GetConnection`: the decoded connection at logical index `i`. */
    function GetConnection(connectionIndex: int): (c: Connection)
      reads this
      requires 0 <= connectionIndex < GetConnectionsCount()
      ensures c == Connections(Doc())[connectionIndex]
    {
      var index := connectionIndex * 4;
      Connection(connections[index], connections[index + 1], connections[index + 2], connections[index + 3])
    }

    /** `SetConnections`: replaces the storage with four slots per connection. */
    method SetConnections(cs: seq<Connection>)
      modifies this
      ensures connections == Flatten(cs) && |connections| == 4 * |cs|
      ensures typeNames == old(typeNames) && nodeTypes == old(nodeTypes) && saveData == old(saveData)
      ensures GetConnectionsCount() == |cs|
      ensures forall i :: 0 <= i < |cs| ==> GetConnection(i) == cs[i]
      ensures old(Valid()) ==> Valid()
    {
      var intConnections := new int[|cs| * 4];
      for x := 0 to |cs|
        modifies intConnections
        invariant forall y, j :: 0 <= y < x && 0 <= j < 4 ==> intConnections[4 * y + j] == Slot(cs[y], j)
      {
        var index := x * 4;
        var connection := cs[x];
        intConnections[index] := connection.fromNode;
        intConnections[index + 1] := connection.fromPort;
        intConnections[index + 2] := connection.toNode;
        intConnections[index + 3] := connection.toPort;
      }
      forall k | 0 <= k < 4 * |cs|
        ensures intConnections[k] == Flatten(cs)[k]
      {
        FlattenAt(cs, k / 4, k % 4);
        assert k == 4 * (k / 4) + k % 4;
      }
      connections := intConnections[..];
      ConnectionsRoundTrip(cs);
    }
  }
}
