/** The stored form of a dialogue graph and its encodings: node kinds as a
    de-duplicated name table plus one index per node, and connections as a
    flat integer array holding four integers per edge. */
module TreeDoc {
  import opened Variants

  /** `DialogueTreeData.Connection`: an edge from an output port of one node
      to an input port of another. */
  datatype Connection = Connection(fromNode: int, fromPort: int, toNode: int, toPort: int)

  /** The four co-indexed collections of a `DialogueTreeData`. */
  datatype Doc = Doc(typeNames: seq<string>, nodeTypes: seq<int>, connections: seq<int>, saveData: seq<Variant>)

  const EmptyDoc: Doc := Doc([], [], [], [])

  predicate Distinct<T(==)>(s: seq<T>)
  {
    forall i, j :: 0 <= i < j < |s| ==> s[i] != s[j]
  }

  /** The position of the first occurrence of `x` in `s`. */
  function IndexOf<T(==)>(s: seq<T>, x: T): (k: nat)
    requires x in s
    ensures k < |s| && s[k] == x
    ensures forall j :: 0 <= j < k ==> s[j] != x
  {
    if s[0] == x then 0 else 1 + IndexOf(s[1..], x)
  }

  lemma IndexOfDistinct<T>(s: seq<T>, k: nat)
    requires Distinct(s) && k < |s|
    ensures IndexOf(s, s[k]) == k
  {
  }

  // ---------------------------------------------------------------------
  // Node types

  /** The type table built by `SetNodeTypes`: every name of `ts` once, in
      first-seen order. */
  function Dedup(ts: seq<string>): (r: seq<string>)
    ensures Distinct(r)
    ensures forall t :: t in r <==> t in ts
    ensures |r| <= |ts|
  {
    if ts == [] then []
    else
      var p := Dedup(ts[..|ts| - 1]);
      assert forall t :: t in ts <==> t in ts[..|ts| - 1] || t == ts[|ts| - 1];
      if ts[|ts| - 1] in p then p else p + [ts[|ts| - 1]]
  }

  /** The per-node index array built by `SetNodeTypes`. */
  function TypeIndexes(ts: seq<string>): (r: seq<int>)
    ensures |r| == |ts|
    ensures forall x :: 0 <= x < |ts| ==> 0 <= r[x] < |Dedup(ts)| && Dedup(ts)[r[x]] == ts[x]
  {
    seq(|ts|, x requires 0 <= x < |ts| => IndexOf(Dedup(ts), ts[x]))
  }

  /** Decoding: the type name of every node. */
  function NodeTypeNames(table: seq<string>, indexes: seq<int>): (r: seq<string>)
    requires forall x :: 0 <= x < |indexes| ==> 0 <= indexes[x] < |table|
    ensures |r| == |indexes|
  {
    seq(|indexes|, x requires 0 <= x < |indexes| => table[indexes[x]])
  }

  /** Decoding the encoding of a name sequence gives the sequence back. */
  lemma NodeTypesRoundTrip(ts: seq<string>)
    ensures NodeTypeNames(Dedup(ts), TypeIndexes(ts)) == ts
  {
  }

  /** The type table lists names in the order of their first occurrence. */
  lemma {:induction false} DedupFirstSeen(ts: seq<string>)
    ensures forall i, j :: 0 <= i < j < |Dedup(ts)| ==> IndexOf(ts, Dedup(ts)[i]) < IndexOf(ts, Dedup(ts)[j])
  {
    if ts != [] {
      var pre := ts[..|ts| - 1];
      var t := ts[|ts| - 1];
      DedupFirstSeen(pre);
      var p := Dedup(pre);
      assert ts == pre + [t];
      forall x | x in pre
        ensures IndexOf(ts, x) == IndexOf(pre, x)
      {
        PrefixIndexOf(pre, t, x);
      }
      if t !in p {
        assert t !in pre;
        forall i | 0 <= i < |p|
          ensures IndexOf(ts, p[i]) < |pre| == IndexOf(ts, t)
        {
          assert p[i] in pre;
          PrefixIndexOf(pre, t, p[i]);
          NewLastIndexOf(pre, t);
        }
      }
    }
  }

  lemma PrefixIndexOf(pre: seq<string>, t: string, x: string)
    requires x in pre
    ensures IndexOf(pre + [t], x) == IndexOf(pre, x)
  {
    var k := IndexOf(pre, x);
    var s := pre + [t];
    assert s[k] == x;
    assert forall j :: 0 <= j < |pre| ==> pre[j] == s[j];
  }

  lemma NewLastIndexOf(pre: seq<string>, t: string)
    requires t !in pre
    ensures IndexOf(pre + [t], t) == |pre|
  {
    var s := pre + [t];
    assert s[|pre|] == t;
    assert forall j :: 0 <= j < |pre| ==> pre[j] == s[j];
  }

  /** Re-applying the encoding to the names it decodes to rebuilds the same
      table and index array: `SetNodeTypes` is idempotent on its own output. */
  lemma EncodeDecodeFixedPoint(ts: seq<string>)
    ensures Dedup(NodeTypeNames(Dedup(ts), TypeIndexes(ts))) == Dedup(ts)
    ensures TypeIndexes(NodeTypeNames(Dedup(ts), TypeIndexes(ts))) == TypeIndexes(ts)
  {
    NodeTypesRoundTrip(ts);
  }

  /** A document whose type table and indexes are the encoding of `ts` has
      readable node types, and node `x` reads back as `ts[x]`. */
  lemma EncodedTypesOk(ts: seq<string>, connections: seq<int>, saveData: seq<Variant>)
    ensures var d := Doc(Dedup(ts), TypeIndexes(ts), connections, saveData);
      && IndexesInRange(d) && Distinct(d.typeNames) && NodeCount(d) == |ts|
      && forall x :: 0 <= x < |ts| ==> TypeAt(d, x) == ts[x]
  {
  }

  // ---------------------------------------------------------------------
  // Connections

  function Flatten(cs: seq<Connection>): (r: seq<int>)
    ensures |r| == 4 * |cs|
  {
    if cs == [] then []
    else [cs[0].fromNode, cs[0].fromPort, cs[0].toNode, cs[0].toPort] + Flatten(cs[1..])
  }

  /** The four slots of logical entry `i`. */
  function Slot(c: Connection, j: nat): int
    requires j < 4
  {
    if j == 0 then c.fromNode else if j == 1 then c.fromPort else if j == 2 then c.toNode else c.toPort
  }

  lemma {:induction false} FlattenAt(cs: seq<Connection>, i: nat, j: nat)
    requires i < |cs| && j < 4
    ensures Flatten(cs)[4 * i + j] == Slot(cs[i], j)
  {
    if i > 0 {
      FlattenAt(cs[1..], i - 1, j);
      assert Flatten(cs) == [cs[0].fromNode, cs[0].fromPort, cs[0].toNode, cs[0].toPort] + Flatten(cs[1..]);
    }
  }

  /** The connection at logical index `i` reads exactly slots 4i to 4i+3. */
  function ConnectionAt(flat: seq<int>, i: nat): Connection
    requires 4 * i + 3 < |flat|
  {
    Connection(flat[4 * i], flat[4 * i + 1], flat[4 * i + 2], flat[4 * i + 3])
  }

  /** Decoding the flat storage: one connection per complete group of four. */
  function Unflatten(flat: seq<int>): (cs: seq<Connection>)
    ensures |cs| == |flat| / 4
    ensures forall i :: 0 <= i < |cs| ==> cs[i] == ConnectionAt(flat, i)
  {
    seq(|flat| / 4, i requires 0 <= i < |flat| / 4 => ConnectionAt(flat, i))
  }

  lemma ConnectionsRoundTrip(cs: seq<Connection>)
    ensures Unflatten(Flatten(cs)) == cs
  {
    forall i | 0 <= i < |cs|
      ensures Unflatten(Flatten(cs))[i] == cs[i]
    {
      FlattenAt(cs, i, 0);
      FlattenAt(cs, i, 1);
      FlattenAt(cs, i, 2);
      FlattenAt(cs, i, 3);
    }
  }

  lemma FlatRoundTrip(flat: seq<int>)
    requires |flat| % 4 == 0
    ensures Flatten(Unflatten(flat)) == flat
  {
    var cs := Unflatten(flat);
    forall k | 0 <= k < |flat|
      ensures Flatten(cs)[k] == flat[k]
    {
      FlattenAt(cs, k / 4, k % 4);
    }
  }

  predicate Leaves(c: Connection, node: int, port: int)
  {
    c.fromNode == node && c.fromPort == port
  }

  /** The position of the first connection, in document order, that leaves
      output `port` of `node`. */
  function FirstConnectionIndex(cs: seq<Connection>, node: int, port: int): (r: Option<nat>)
    ensures r.Some? ==> r.value < |cs| && Leaves(cs[r.value], node, port)
    ensures r.Some? ==> forall j :: 0 <= j < r.value ==> !Leaves(cs[j], node, port)
    ensures r.None? <==> forall j :: 0 <= j < |cs| ==> !Leaves(cs[j], node, port)
  {
    if cs == [] then None
    else if Leaves(cs[0], node, port) then Some(0)
    else
      var r := FirstConnectionIndex(cs[1..], node, port);
      if r.Some? then Some(r.value + 1) else None
  }

  /** A connection that leaves `(node, port)` with none before it is the
      first one. */
  lemma {:induction false} FirstConnectionIndexAt(cs: seq<Connection>, node: int, port: int, k: nat)
    requires k < |cs| && Leaves(cs[k], node, port)
    requires forall j :: 0 <= j < k ==> !Leaves(cs[j], node, port)
    ensures FirstConnectionIndex(cs, node, port) == Some(k)
  {
    if k > 0 {
      FirstConnectionIndexAt(cs[1..], node, port, k - 1);
    }
  }

  /** The connection `GetConnectionToPort` finds. */
  function FirstConnection(cs: seq<Connection>, node: int, port: int): Option<Connection>
  {
    var k := FirstConnectionIndex(cs, node, port);
    if k.Some? then Some(cs[k.value]) else None
  }

  // ---------------------------------------------------------------------
  // Documents

  function NodeCount(d: Doc): nat
  {
    |d.nodeTypes|
  }

  /** Every stored type index points into the table. */
  predicate IndexesInRange(d: Doc)
  {
    forall x :: 0 <= x < |d.nodeTypes| ==> 0 <= d.nodeTypes[x] < |d.typeNames|
  }

  /** What the engine needs of a document: readable node types and one
      payload per node. */
  predicate DocOk(d: Doc)
  {
    IndexesInRange(d) && |d.saveData| >= |d.nodeTypes|
  }

  /** The invariant the `DialogueTreeData` operations keep. */
  predicate EncodingOk(d: Doc)
  {
    IndexesInRange(d) && Distinct(d.typeNames) && |d.connections| % 4 == 0
  }

  function TypeAt(d: Doc, x: nat): string
    requires IndexesInRange(d) && x < NodeCount(d)
  {
    d.typeNames[d.nodeTypes[x]]
  }

  function Connections(d: Doc): seq<Connection>
  {
    Unflatten(d.connections)
  }

  /** The lowest node index whose type is `name`. */
  function FirstNodeOfType(d: Doc, name: string, from: nat): (r: Option<nat>)
    requires IndexesInRange(d)
    decreases NodeCount(d) - from
    ensures r.Some? ==> from <= r.value < NodeCount(d) && TypeAt(d, r.value) == name
    ensures r.Some? ==> forall x :: from <= x < r.value ==> TypeAt(d, x) != name
    ensures r.None? ==> forall x :: from <= x < NodeCount(d) ==> TypeAt(d, x) != name
  {
    if from >= NodeCount(d) then None
    else if TypeAt(d, from) == name then Some(from)
    else FirstNodeOfType(d, name, from + 1)
  }

  /** A node of type `name` with none before it is the one found. */
  lemma {:induction false} FirstNodeOfTypeAt(d: Doc, name: string, from: nat, x: nat)
    requires IndexesInRange(d) && from <= x < NodeCount(d) && TypeAt(d, x) == name
    requires forall y :: from <= y < x ==> TypeAt(d, y) != name
    decreases x - from
    ensures FirstNodeOfType(d, name, from) == Some(x)
  {
    if from < x {
      FirstNodeOfTypeAt(d, name, from + 1, x);
    }
  }
}
