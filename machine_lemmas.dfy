/** Properties of the dialogue runtime: how the instance cache evolves, how
    each variant routes, and how starting and ending a dialogue behave. */
module MachineLemmas {
  import opened Variants
  import opened NodeData
  import opened TreeDoc
  import opened Settings
  import opened VariableTypes
  import opened Instances
  import opened Machine

  // ---------------------------------------------------------------------
  // Cache bookkeeping

  /** `c2` still caches every node that `c1` caches. */
  ghost predicate Covers(c2: seq<Instance>, c1: seq<Instance>)
  {
    forall i :: FindCached(c1, i).Some? ==> FindCached(c2, i).Some?
  }

  /** `e2` extends `e1` by error reports only. */
  predicate OnlyErrorsAdded(e1: seq<Event>, e2: seq<Event>)
  {
    |e1| <= |e2| && e2[..|e1|] == e1 && forall k :: |e1| <= k < |e2| ==> e2[k].InstantiationError?
  }

  /** The cache invariant: each node is cached at most once, indices name
      nodes of the tree, and each instance is of the variant its
      node's type instantiates. */
  ghost predicate CacheOk(env: Env, cache: seq<Instance>)
    requires AllRegistered(env)
  {
    && DistinctIndices(cache)
    && forall j :: 0 <= j < |cache| ==> EntryOk(env, cache[j])
  }

  /** A cached instance names a node and is of the variant the node's type
      instantiates. */
  predicate EntryOk(env: Env, inst: Instance)
    requires AllRegistered(env)
  {
    inst.index < NodesCount(env) && KindAt(env, inst.index) == Some(KindOf(inst.state))
  }

  lemma CoversRefl(c: seq<Instance>)
    ensures Covers(c, c)
  {
  }

  lemma CoversTrans(c3: seq<Instance>, c2: seq<Instance>, c1: seq<Instance>)
    requires Covers(c3, c2) && Covers(c2, c1)
    ensures Covers(c3, c1)
  {
  }

  lemma OnlyErrorsTrans(e1: seq<Event>, e2: seq<Event>, e3: seq<Event>)
    requires OnlyErrorsAdded(e1, e2) && OnlyErrorsAdded(e2, e3)
    ensures OnlyErrorsAdded(e1, e3)
  {
    assert e3[..|e1|] == e3[..|e2|][..|e1|];
    forall k | |e1| <= k < |e3|
      ensures e3[k].InstantiationError?
    {
      if k < |e2| {
        assert e3[k] == e3[..|e2|][k];
      }
    }
  }

  /** Two caches with the same indices in the same places answer every
      lookup alike. */
  lemma {:induction false} FindCachedSameIndices(c1: seq<Instance>, c2: seq<Instance>, index: int)
    requires |c1| == |c2| && forall j :: 0 <= j < |c1| ==> c1[j].index == c2[j].index
    ensures FindCached(c1, index) == FindCached(c2, index)
  {
    if c1 != [] && c1[0].index != index {
      FindCachedSameIndices(c1[1..], c2[1..], index);
    }
  }

  lemma WriteStateKeeps(env: Env, cache: seq<Instance>, index: nat, s: NodeState)
    requires AllRegistered(env) && CacheOk(env, cache)
    requires index < NodesCount(env) && KindAt(env, index) == Some(KindOf(s))
    ensures CacheOk(env, SetStateOf(cache, index, s))
    ensures Covers(SetStateOf(cache, index, s), cache)
    ensures forall i :: FindCached(SetStateOf(cache, index, s), i) == FindCached(cache, i)
  {
    var r := SetStateOf(cache, index, s);
    forall i
      ensures FindCached(r, i) == FindCached(cache, i)
    {
      FindCachedSameIndices(r, cache, i);
    }
    CoversRefl(cache);
  }

  /** Inserting a valid entry anywhere keeps every entry valid. */
  lemma InsertEntriesOk(env: Env, cache: seq<Instance>, k: nat, inst: Instance)
    requires AllRegistered(env) && k <= |cache|
    requires forall j :: 0 <= j < |cache| ==> EntryOk(env, cache[j])
    requires EntryOk(env, inst)
    ensures var r := InsertAt(cache, k, inst); forall j :: 0 <= j < |r| ==> EntryOk(env, r[j])
  {
    var r := InsertAt(cache, k, inst);
    forall j | 0 <= j < |r|
      ensures EntryOk(env, r[j])
    {
      if j < k {
        assert r[j] == cache[j];
      } else if j > k {
        assert r[j] == cache[j - 1];
      }
    }
  }

  /** Inserting an entry anywhere keeps every cached node cached. */
  lemma InsertCovers(cache: seq<Instance>, k: nat, inst: Instance)
    requires k <= |cache|
    ensures Covers(InsertAt(cache, k, inst), cache)
  {
    var r := InsertAt(cache, k, inst);
    forall i | FindCached(cache, i).Some?
      ensures FindCached(r, i).Some?
    {
      var j := FindCached(cache, i).value;
      var j' := if j < k then j else j + 1;
      assert r[j'] == cache[j];
    }
  }

  /** Inserting a new placeholder at any position, and so in particular
      where the placement loop as written puts it, keeps the cache
      invariant, keeps every entry and adds one. */
  lemma InsertKeeps(env: Env, cache: seq<Instance>, k: nat, index: nat, kind: InstanceKind)
    requires AllRegistered(env) && CacheOk(env, cache) && k <= |cache|
    requires index < NodesCount(env) && KindAt(env, index) == Some(kind)
    requires FindCached(cache, index).None?
    ensures var r := InsertAt(cache, k, Instance(index, Unready(kind)));
      && CacheOk(env, r) && Covers(r, cache) && FindCached(r, index).Some? && |r| == |cache| + 1
  {
    var inst := Instance(index, Unready(kind));
    var r := InsertAt(cache, k, inst);
    InsertDistinct(cache, k, inst);
    assert EntryOk(env, inst);
    InsertEntriesOk(env, cache, k, inst);
    InsertCovers(cache, k, inst);
    assert r[k].index == index;
  }

  // ---------------------------------------------------------------------
  // Getting instances

  /** A lookup leaves the focus alone, adds at most error reports, keeps
      every cached instance, keeps the cache invariant, and returns the
      node's instance exactly when the node exists and instantiates. */
  lemma {:induction false} GetInstanceFacts(env: Env, st: State, index: int)
    requires WellFormed(env) && CacheOk(env, st.cache)
    decreases Rank(env, index), 3
    ensures var g := GetInstance(env, st, index);
      && g.st.focused == st.focused
      && OnlyErrorsAdded(st.events, g.st.events)
      && Covers(g.st.cache, st.cache)
      && CacheOk(env, g.st.cache)
      && (g.instance.Some? <==> TargetOk(env, index))
      && (g.instance.Some? ==> g.instance.value == index && FindCached(g.st.cache, index).Some?)
  {
    var g := GetInstance(env, st, index);
    if index < 0 || env.doc.None? || index >= NodesCount(env) {
      CoversRefl(st.cache);
    } else if FindCached(st.cache, index).Some? {
      CoversRefl(st.cache);
      var k := FindCached(st.cache, index).value;
      assert KindAt(env, st.cache[k].index) == Some(KindOf(st.cache[k].state));
    } else {
      InstantiateFacts(env, st, index);
    }
  }

  lemma {:induction false} InstantiateFacts(env: Env, st: State, index: nat)
    requires WellFormed(env) && index < NodesCount(env) && CacheOk(env, st.cache)
    requires FindCached(st.cache, index).None?
    decreases Rank(env, index), 2
    ensures var g := Instantiate(env, st, index);
      && g.st.focused == st.focused
      && OnlyErrorsAdded(st.events, g.st.events)
      && Covers(g.st.cache, st.cache)
      && CacheOk(env, g.st.cache)
      && (g.instance.Some? <==> KindAt(env, index).Some?)
      && (g.instance.Some? ==> g.instance.value == index && FindCached(g.st.cache, index).Some?)
      && (KindAt(env, index).None? ==> g.st.cache == st.cache)
      && (Rank(env, index) == 0 && KindAt(env, index).Some? ==> |g.st.cache| == |st.cache| + 1)
  {
    var kind := KindAt(env, index);
    if kind.None? {
      CoversRefl(st.cache);
      assert (st.events + [InstantiationError(index)])[..|st.events|] == st.events;
    } else {
      var k := PlacementAsWritten(st.cache, index);
      var st1 := st.(cache := InsertAt(st.cache, k, Instance(index, Unready(kind.value))));
      InsertKeeps(env, st.cache, k, index, kind.value);
      ReadyFacts(env, st1, index);
      CoversTrans(Ready(env, st1, index).cache, st1.cache, st.cache);
    }
  }

  /** `Ready` fills in the instance's fields, of its own variant, and may
      only add the variable node a setter or condition binds. */
  lemma {:induction false} ReadyFacts(env: Env, st: State, index: nat)
    requires WellFormed(env) && index < NodesCount(env) && KindAt(env, index).Some?
    requires CacheOk(env, st.cache) && FindCached(st.cache, index).Some?
    decreases Rank(env, index), 1
    ensures var r := Ready(env, st, index);
      && r.focused == st.focused
      && OnlyErrorsAdded(st.events, r.events)
      && Covers(r.cache, st.cache)
      && CacheOk(env, r.cache)
      && (Rank(env, index) == 0 ==> |r.cache| == |st.cache|)
      && StateOf(r.cache, index).Some? && !StateOf(r.cache, index).value.Unready?
  {
    assert PayloadOk(env, index);
    var kind := KindAt(env, index).value;
    if (kind == VariableSetterKind || kind == VariableConditionKind) && AsInt32(Payload(env, index).items[0]) != -1 {
      ReadyBindingFacts(env, st, index);
    } else {
      ReadyUnboundFacts(env, st, index);
    }
  }

  /** `Ready` of a variant that looks nothing up. */
  lemma ReadyUnboundFacts(env: Env, st: State, index: nat)
    requires WellFormed(env) && index < NodesCount(env) && KindAt(env, index).Some?
    requires KindAt(env, index).value == VariableSetterKind || KindAt(env, index).value == VariableConditionKind ==>
      HasItems(Payload(env, index), 1) && AsInt32(Payload(env, index).items[0]) == -1
    requires CacheOk(env, st.cache) && FindCached(st.cache, index).Some?
    ensures var r := Ready(env, st, index);
      && r.focused == st.focused
      && OnlyErrorsAdded(st.events, r.events)
      && Covers(r.cache, st.cache)
      && CacheOk(env, r.cache)
      && |r.cache| == |st.cache|
      && r.events == st.events
      && StateOf(r.cache, index).Some? && !StateOf(r.cache, index).value.Unready?
      && (KindAt(env, index).value != VariableSetterKind && KindAt(env, index).value != VariableConditionKind ==>
            StateOf(r.cache, index) == Some(LeafFields(env, index)))
  {
    var kind := KindAt(env, index).value;
    assert (st.events)[..|st.events|] == st.events;
    CoversRefl(st.cache);
    var s := if kind == VariableSetterKind then VariableSetterNode(None, None)
             else if kind == VariableConditionKind then VariableConditionNode(None, None)
             else LeafFields(env, index);
    assert Ready(env, st, index) == WriteState(st, index, s);
    WriteAfter(env, st, st, index, s);
  }

  /** `Ready` of a setter or condition bound to a variable node. */
  lemma {:induction false} ReadyBindingFacts(env: Env, st: State, index: nat)
    requires WellFormed(env) && index < NodesCount(env) && KindAt(env, index).Some?
    requires KindAt(env, index).value == VariableSetterKind || KindAt(env, index).value == VariableConditionKind
    requires HasItems(Payload(env, index), 1) && AsInt32(Payload(env, index).items[0]) != -1
    requires CacheOk(env, st.cache) && FindCached(st.cache, index).Some?
    decreases Rank(env, index), 0
    ensures var r := Ready(env, st, index);
      && r.focused == st.focused
      && OnlyErrorsAdded(st.events, r.events)
      && Covers(r.cache, st.cache)
      && CacheOk(env, r.cache)
      && StateOf(r.cache, index).Some? && !StateOf(r.cache, index).value.Unready?
  {
    assert PayloadOk(env, index);
    var v := AsInt32(Payload(env, index).items[0]);
    assert Rank(env, v) == 0;
    var g := GetInstance(env, st, v);
    assert g.st.focused == st.focused && OnlyErrorsAdded(st.events, g.st.events)
      && Covers(g.st.cache, st.cache) && CacheOk(env, g.st.cache) by {
      GetInstanceFacts(env, st, v);
    }
    var kind := KindAt(env, index).value;
    var s := BoundFields(Payload(env, index), g, kind == VariableSetterKind);
    assert KindOf(s) == kind;
    assert Ready(env, st, index) == WriteState(g.st, index, s);
    WriteAfter(env, st, g.st, index, s);
  }

  /** The last step of `Ready`, on a state `st1` the solver does not unfold:
      writing the instance's fields over a lookup's result. */
  lemma WriteAfter(env: Env, st: State, st1: State, index: nat, s: NodeState)
    requires AllRegistered(env) && index < NodesCount(env) && KindAt(env, index) == Some(KindOf(s)) && !s.Unready?
    requires CacheOk(env, st.cache) && FindCached(st.cache, index).Some?
    requires st1.focused == st.focused && OnlyErrorsAdded(st.events, st1.events)
    requires Covers(st1.cache, st.cache) && CacheOk(env, st1.cache)
    ensures var r := WriteState(st1, index, s);
      && r.focused == st.focused
      && OnlyErrorsAdded(st.events, r.events)
      && Covers(r.cache, st.cache)
      && CacheOk(env, r.cache)
      && |r.cache| == |st1.cache|
      && StateOf(r.cache, index) == Some(s)
  {
    WriteStateKeeps(env, st1.cache, index, s);
    SetStateOfFound(st1.cache, index, s);
    CoversTrans(SetStateOf(st1.cache, index, s), st1.cache, st.cache);
  }

  /** A setter or condition whose lookup found an "Enum" variable node, and
      whose payload holds a non-empty script payload in `data[1]`, binds that
      variable node and the enum setter or condition built from the first
      entry of `data[1]`; one whose lookup found no variable node binds
      neither. */
  lemma BoundFieldsEnum(data: Variant, g: Got, setter: bool)
    requires HasItems(data, 1)
    ensures var v := AsInt32(data.items[0]);
      var s := BoundFields(data, g, setter);
      g.instance == Some(v) && StateOf(g.st.cache, v).Some? && StateOf(g.st.cache, v).value.VariableNode?
      && StateOf(g.st.cache, v).value.variableType == "Enum"
      && |data.items| >= 2 && |AsGodotArray(data.items[1])| >= 1 ==>
        var name := AsString(AsGodotArray(data.items[1])[0]);
        s == if setter then VariableSetterNode(Some(v), Some(EnumSetter(name)))
             else VariableConditionNode(Some(v), Some(EnumCondition(name)))
    ensures AsVariableNode(g.st.cache, g.instance).None? ==>
      BoundFields(data, g, setter) == if setter then VariableSetterNode(None, None) else VariableConditionNode(None, None)
  {
  }

  /** A lookup that gave an instance gives the same instance, and changes
      nothing, when it is repeated. */
  lemma GetInstanceIdempotent(env: Env, st: State, index: int)
    requires WellFormed(env) && CacheOk(env, st.cache)
    requires GetInstance(env, st, index).instance.Some?
    ensures var g := GetInstance(env, st, index); GetInstance(env, g.st, index) == g
  {
    GetInstanceFacts(env, st, index);
  }

  /** Every node `MatchingNodes` lists satisfies `matches`. */
  lemma {:induction false} MatchingNodesMatch(env: Env, matches: (string, Variant) -> bool, x: nat)
    requires AllRegistered(env)
    decreases NodesCount(env) - x
    ensures forall k :: 0 <= k < |MatchingNodes(env, matches, x)| ==>
      matches(TypeAt(env.doc.value, MatchingNodes(env, matches, x)[k]), Payload(env, MatchingNodes(env, matches, x)[k]))
  {
    if x < NodesCount(env) {
      MatchingNodesMatch(env, matches, x + 1);
      var r1 := MatchingNodes(env, matches, x + 1);
      if matches(TypeAt(env.doc.value, x), Payload(env, x)) {
        var r := [x] + r1;
        assert MatchingNodes(env, matches, x) == r;
        forall k | 0 <= k < |r|
          ensures matches(TypeAt(env.doc.value, r[k]), Payload(env, r[k]))
        {
          if k > 0 {
            assert r[k] == r1[k - 1];
          }
        }
      } else {
        assert MatchingNodes(env, matches, x) == r1;
      }
    }
  }

  /** `MatchingNodes` lists nodes in strictly increasing order. */
  lemma {:induction false} MatchingNodesIncreasing(env: Env, matches: (string, Variant) -> bool, x: nat)
    requires AllRegistered(env)
    decreases NodesCount(env) - x
    ensures forall k, l :: 0 <= k < l < |MatchingNodes(env, matches, x)| ==>
      MatchingNodes(env, matches, x)[k] < MatchingNodes(env, matches, x)[l]
  {
    if x < NodesCount(env) {
      MatchingNodesIncreasing(env, matches, x + 1);
      var r1 := MatchingNodes(env, matches, x + 1);
      if matches(TypeAt(env.doc.value, x), Payload(env, x)) {
        var r := [x] + r1;
        assert MatchingNodes(env, matches, x) == r;
        forall k, l | 0 <= k < l < |r|
          ensures r[k] < r[l]
        {
          assert r[l] == r1[l - 1];
          if k > 0 {
            assert r[k] == r1[k - 1];
          }
        }
      } else {
        assert MatchingNodes(env, matches, x) == r1;
      }
    }
  }

  /** Every node from `x` on that satisfies `matches` is listed. */
  lemma {:induction false} MatchingNodesComplete(env: Env, matches: (string, Variant) -> bool, x: nat)
    requires AllRegistered(env)
    decreases NodesCount(env) - x
    ensures var r := MatchingNodes(env, matches, x);
      forall y :: x <= y < NodesCount(env) && matches(TypeAt(env.doc.value, y), Payload(env, y)) ==> y in r
  {
    if x < NodesCount(env) {
      MatchingNodesComplete(env, matches, x + 1);
      var r1 := MatchingNodes(env, matches, x + 1);
      if matches(TypeAt(env.doc.value, x), Payload(env, x)) {
        assert MatchingNodes(env, matches, x) == [x] + r1;
      } else {
        assert MatchingNodes(env, matches, x) == r1;
      }
    }
  }

  /** The node loop of `FindDialogueNodeInstances` appends one entry per
      matching node, in node order: the node's own instance when it
      instantiates, null otherwise. Entries collected before stay put, and
      the lookups keep the focus and the cache invariant. */
  lemma {:induction false} FindFromFacts(env: Env, st: State, matches: (string, Variant) -> bool, x: nat, found: seq<Option<nat>>)
    requires WellFormed(env) && CacheOk(env, st.cache)
    decreases NodesCount(env) - x, 1
    ensures FindFromOk(env, st, matches, x, found)
  {
    if x >= NodesCount(env) {
      CoversRefl(st.cache);
      assert st.events[..|st.events|] == st.events;
    } else if matches(TypeAt(env.doc.value, x), Payload(env, x)) {
      FindFromMatch(env, st, matches, x, found);
    } else {
      FindFromFacts(env, st, matches, x + 1, found);
      assert FindFrom(env, st, matches, x, found) == FindFrom(env, st, matches, x + 1, found);
      assert MatchingNodes(env, matches, x) == MatchingNodes(env, matches, x + 1);
    }
  }

  /** What `FindFromFacts` states about the loop from node `x` on. */
  ghost predicate FindFromOk(env: Env, st: State, matches: (string, Variant) -> bool, x: nat, found: seq<Option<nat>>)
    requires WellFormed(env)
  {
    FoundOk(env, st, MatchingNodes(env, matches, x), found, FindFrom(env, st, matches, x, found))
  }

  /** Result `r` of the loop, started in `st` with entries `found`, holds one
      more entry per node of `m` and keeps the focus and the cache invariant. */
  ghost predicate FoundOk(env: Env, st: State, m: seq<nat>, found: seq<Option<nat>>, r: Found)
    requires AllRegistered(env)
  {
    && (forall k :: 0 <= k < |m| ==> m[k] < NodesCount(env))
    && |r.instances| == |found| + |m|
    && r.instances[..|found|] == found
    && (forall k :: 0 <= k < |m| ==> r.instances[|found| + k] == FoundEntry(env, m[k]))
    && r.st.focused == st.focused
    && OnlyErrorsAdded(st.events, r.st.events)
    && Covers(r.st.cache, st.cache)
    && CacheOk(env, r.st.cache)
  }

  /** The loop step at a matching node: its instance is looked up and
      appended. */
  lemma {:induction false} FindFromMatch(env: Env, st: State, matches: (string, Variant) -> bool, x: nat, found: seq<Option<nat>>)
    requires WellFormed(env) && CacheOk(env, st.cache)
    requires x < NodesCount(env) && matches(TypeAt(env.doc.value, x), Payload(env, x))
    decreases NodesCount(env) - x, 0
    ensures FindFromOk(env, st, matches, x, found)
  {
    var g := GetInstance(env, st, x);
    var found1 := found + [g.instance];
    var r := FindFrom(env, g.st, matches, x + 1, found1);
    var m1 := MatchingNodes(env, matches, x + 1);
    assert FindFrom(env, st, matches, x, found) == r;
    assert MatchingNodes(env, matches, x) == [x] + m1;
    assert g.instance == FoundEntry(env, x) && g.st.focused == st.focused && OnlyErrorsAdded(st.events, g.st.events)
      && Covers(g.st.cache, st.cache) && CacheOk(env, g.st.cache) by {
      GetInstanceFacts(env, st, x);
    }
    assert FoundOk(env, g.st, m1, found1, r) by {
      FindFromFacts(env, g.st, matches, x + 1, found1);
    }
    FoundStep(env, st, g, x, m1, found, r);
  }

  /** The entry `FindDialogueNodeInstances` collects for matching node `x`. */
  function FoundEntry(env: Env, x: nat): Option<nat>
    requires AllRegistered(env) && x < NodesCount(env)
  {
    if KindAt(env, x).Some? then Some(x) else None
  }

  /** One step of the node loop: the lookup `g` of node `x` from `st`,
      followed by the rest of the loop. */
  lemma FoundStep(env: Env, st: State, g: Got, x: nat, m1: seq<nat>, found: seq<Option<nat>>, r: Found)
    requires AllRegistered(env) && x < NodesCount(env) && CacheOk(env, st.cache)
    requires g.instance == FoundEntry(env, x)
    requires g.st.focused == st.focused && OnlyErrorsAdded(st.events, g.st.events) && Covers(g.st.cache, st.cache)
    requires FoundOk(env, g.st, m1, found + [g.instance], r)
    ensures FoundOk(env, st, [x] + m1, found, r)
  {
    var found1 := found + [g.instance];
    var m := [x] + m1;
    assert r.instances[..|found|] == r.instances[..|found1|][..|found|];
    assert r.instances[|found|] == r.instances[..|found1|][|found|];
    forall k | 0 <= k < |m|
      ensures r.instances[|found| + k] == FoundEntry(env, m[k])
    {
      if k > 0 {
        assert m[k] == m1[k - 1];
        assert r.instances[|found| + k] == r.instances[|found1| + (k - 1)];
      }
    }
    OnlyErrorsTrans(st.events, g.st.events, r.st.events);
    CoversTrans(r.st.cache, g.st.cache, st.cache);
  }

  /** `FindDialogueNodeInstances` gives one entry per matching node, in node
      order, each the node's own instance or null when the node does not
      instantiate; it keeps the focus and the cache invariant. */
  lemma FindFacts(env: Env, st: State, matches: (string, Variant) -> bool)
    requires WellFormed(env) && CacheOk(env, st.cache)
    ensures var r := Find(env, st, matches);
      var m := MatchingNodes(env, matches, 0);
      && |r.instances| == |m|
      && (forall k :: 0 <= k < |m| ==> r.instances[k] == FoundEntry(env, m[k]))
      && r.st.focused == st.focused
      && OnlyErrorsAdded(st.events, r.st.events)
      && CacheOk(env, r.st.cache)
  {
    if env.doc.None? {
      assert st.events[..|st.events|] == st.events;
    } else {
      FindFromFacts(env, st, matches, 0, []);
    }
  }

  /** While a new instance gets ready it is already in the cache, so a
      lookup of its own node finds it instead of building a second one. */
  lemma ReentrantLookupFindsPlaceholder(env: Env, st: State, index: nat)
    requires WellFormed(env) && index < NodesCount(env) && KindAt(env, index).Some?
    requires FindCached(st.cache, index).None?
    ensures var st1 := st.(cache := InsertAt(st.cache, PlacementAsWritten(st.cache, index), Instance(index, Unready(KindAt(env, index).value))));
      GetInstance(env, st1, index) == Got(st1, Some(index))
  {
    var k := PlacementAsWritten(st.cache, index);
    var st1 := st.(cache := InsertAt(st.cache, k, Instance(index, Unready(KindAt(env, index).value))));
    assert st1.cache[k].index == index;
  }

  /** A cached state names a node of the variant the node's type gives. */
  lemma CachedStateKind(env: Env, cache: seq<Instance>, index: int)
    requires AllRegistered(env) && CacheOk(env, cache) && StateOf(cache, index).Some?
    ensures 0 <= index < NodesCount(env) && KindAt(env, index) == Some(KindOf(StateOf(cache, index).value))
  {
    var k := FindCached(cache, index).value;
    assert EntryOk(env, cache[k]);
  }

  // ---------------------------------------------------------------------
  // Variables

  /** The `VariableValue` setter stores the value in the variable node it is
      called on, announces the new value, and leaves every other cached
      instance and the focus as they were. */
  lemma SetValueWrites(env: Env, st: State, variable: nat, value: Variant)
    requires AllRegistered(env) && CacheOk(env, st.cache)
    requires StateOf(st.cache, variable).Some? && StateOf(st.cache, variable).value.VariableNode?
    ensures var r := SetValue(st, variable, value);
      && r.focused == st.focused
      && r.events == st.events + [VariableValueChanging(variable, value)]
      && ValueOf(r.cache, variable) == value
      && (forall i :: i != variable ==> StateOf(r.cache, i) == StateOf(st.cache, i))
      && CacheOk(env, r.cache) && Covers(r.cache, st.cache)
  {
    var s := StateOf(st.cache, variable).value;
    var s' := s.(variableValue := value);
    CachedStateKind(env, st.cache, variable);
    WriteStateKeeps(env, st.cache, variable, s');
    SetStateOfFound(st.cache, variable, s');
    var r := SetStateOf(st.cache, variable, s');
    forall i | i != variable
      ensures StateOf(r, i) == StateOf(st.cache, i)
    {
      if FindCached(st.cache, i).Some? {
        var k := FindCached(st.cache, i).value;
        assert r[k] == st.cache[k];
      }
    }
  }

  /** Write-then-read through the cache: once an enum setter has run on a
      variable node, an enum condition on the same node holds exactly when
      it selects the name the setter wrote. */
  lemma SetterThenCondition(env: Env, st: State, variable: nat, name: string, selected: string)
    requires AllRegistered(env) && CacheOk(env, st.cache)
    requires StateOf(st.cache, variable).Some? && StateOf(st.cache, variable).value.VariableNode?
    ensures var r := SetValue(st, variable, SetVariable(EnumSetter(name), ValueOf(st.cache, variable)));
      RunCondition(EnumCondition(selected), ValueOf(r.cache, variable)) <==> name == selected
  {
    SetValueWrites(env, st, variable, SetVariable(EnumSetter(name), ValueOf(st.cache, variable)));
    WriteThenRead(name, selected, ValueOf(st.cache, variable));
  }

  // ---------------------------------------------------------------------
  // Traversal

  /** The whole runtime state is consistent: the cache invariant holds and
      the focused node, when there is one, has a cached instance. */
  ghost predicate Consistent(env: Env, st: State)
    requires AllRegistered(env)
  {
    CacheOk(env, st.cache) && (st.focused.Some? ==> FindCached(st.cache, st.focused.value).Some?)
  }

  lemma InitialConsistent(env: Env)
    requires AllRegistered(env)
    ensures Consistent(env, InitialState)
  {
  }

  /** Following a connection lands on the target node: it is looked up
      (and built when needed), it becomes the focused node, and it receives
      the input on the connection's input port. */
  lemma SendPortFollows(env: Env, st: State, from: int, port: int, fuel: nat)
    requires WellFormed(env) && CacheOk(env, st.cache)
    requires ConnectionToPort(env, from, port).Some? && fuel > 0
    ensures var c := ConnectionToPort(env, from, port).value;
      var g := GetInstance(env, st, c.toNode);
      && g.instance == Some(c.toNode)
      && SendPort(env, st, from, port, fuel) == ReceivePort(env, g.st.(focused := Some(c.toNode)), c.toNode, c.toPort, fuel - 1)
  {
    var c := ConnectionToPort(env, from, port).value;
    assert FirstConnection(Connections(env.doc.value), from, port).Some?;
    assert TargetOk(env, c.toNode);
    GetInstanceFacts(env, st, c.toNode);
  }

  /** A focus that is cached stays cached in a cache that covers it. */
  lemma FocusCovered(c2: seq<Instance>, c1: seq<Instance>, focused: Option<nat>)
    requires Covers(c2, c1)
    requires focused.Some? ==> FindCached(c1, focused.value).Some?
    ensures focused.Some? ==> FindCached(c2, focused.value).Some?
  {
  }

  /** Sending through a port keeps the state consistent and keeps every
      cached instance. */
  lemma {:induction false} SendPortConsistent(env: Env, st: State, from: int, port: int, fuel: nat)
    requires WellFormed(env) && Consistent(env, st)
    decreases fuel, 0
    ensures var o := SendPort(env, st, from, port, fuel);
      Consistent(env, o.st) && Covers(o.st.cache, st.cache)
  {
    SendPortCases(env, st, from, port, fuel);
    var c := ConnectionToPort(env, from, port);
    if c.Some? && fuel > 0 {
      FollowConsistent(env, st, c.value, fuel - 1);
    } else {
      CoversRefl(st.cache);
    }
  }

  /** The three outcomes of `SendPort`: no connection ends the dialogue, no
      fuel stops where it is, and otherwise the connection, whose target
      instantiates, is followed. */
  lemma SendPortCases(env: Env, st: State, from: int, port: int, fuel: nat)
    requires WellFormed(env)
    ensures var o := SendPort(env, st, from, port, fuel);
      var c := ConnectionToPort(env, from, port);
      && (c.None? ==> o.st == Ended(st) && !o.exhausted)
      && (c.Some? && fuel == 0 ==> o.st == st && o.exhausted)
      && (c.Some? && fuel > 0 ==> TargetOk(env, c.value.toNode) && o == Follow(env, st, c.value, fuel - 1))
  {
    var c := ConnectionToPort(env, from, port);
    if c.Some? {
      assert FirstConnection(Connections(env.doc.value), from, port).Some?;
    }
  }

  /** Following a connection to a node that instantiates keeps the state
      consistent: the focus lands on a cached instance. */
  lemma {:induction false} FollowConsistent(env: Env, st: State, c: Connection, fuel: nat)
    requires WellFormed(env) && Consistent(env, st) && TargetOk(env, c.toNode)
    decreases fuel, 4
    ensures var o := Follow(env, st, c, fuel);
      Consistent(env, o.st) && Covers(o.st.cache, st.cache)
  {
    var g := GetInstance(env, st, c.toNode);
    var st1 := g.st.(focused := g.instance);
    assert Consistent(env, st1) && Covers(st1.cache, st.cache) by {
      GetInstanceFacts(env, st, c.toNode);
    }
    ReceiveStep(env, st, st1, c.toNode, c.toPort, fuel);
  }

  /** The two halves of a step, on states the solver does not unfold: a
      receive or a send from a consistent state `st1` that covers `st`. */
  lemma ReceiveStep(env: Env, st: State, st1: State, x: int, p: int, fuel: nat)
    requires WellFormed(env) && Consistent(env, st1) && Covers(st1.cache, st.cache)
    decreases fuel, 3
    ensures var o := ReceivePort(env, st1, x, p, fuel);
      Consistent(env, o.st) && Covers(o.st.cache, st.cache)
  {
    ReceivePortConsistent(env, st1, x, p, fuel);
    CoversTrans(ReceivePort(env, st1, x, p, fuel).st.cache, st1.cache, st.cache);
  }

  lemma SendStep(env: Env, st: State, st1: State, from: int, p: int, fuel: nat)
    requires WellFormed(env) && Consistent(env, st1) && Covers(st1.cache, st.cache)
    decreases fuel, 1
    ensures var o := SendPort(env, st1, from, p, fuel);
      Consistent(env, o.st) && Covers(o.st.cache, st.cache)
  {
    SendPortConsistent(env, st1, from, p, fuel);
    CoversTrans(SendPort(env, st1, from, p, fuel).st.cache, st1.cache, st.cache);
  }

  lemma {:induction false} ReceivePortConsistent(env: Env, st: State, index: int, port: int, fuel: nat)
    requires WellFormed(env) && Consistent(env, st)
    decreases fuel, 2
    ensures var o := ReceivePort(env, st, index, port, fuel);
      Consistent(env, o.st) && Covers(o.st.cache, st.cache)
  {
    CoversRefl(st.cache);
    var s := StateOf(st.cache, index);
    if s.Some? {
      match s.value
      case OutputNode(_, _) =>
      case ActionNode(action) =>
        var st1 := st.(events := st.events + ActionSignal(action));
        ActionRoutes(env, st, index, port, fuel);
        SendStep(env, st, st1, index, 0, fuel);
      case ConditionNode(condition) =>
        var st1 := st.(events := st.events + ConditionSignal(condition));
        ConditionRoutes(env, st, index, port, fuel);
        SendStep(env, st, st1, index, if ConditionHolds(env.host, condition) then 0 else 1, fuel);
      case CallNode(f) =>
        var g := GetInstance(env, st, f);
        assert Consistent(env, g.st) && Covers(g.st.cache, st.cache) by {
          GetInstanceFacts(env, st, f);
        }
        CallRoutes(env, st, index, port, fuel);
        if g.instance.Some? && StateOf(g.st.cache, f) == Some(FunctionNode) {
          SendStep(env, st, g.st, f, 0, fuel);
        }
      case VariableSetterNode(variable, setter) =>
        var st1 := SetterEffect(st, variable, setter);
        assert Consistent(env, st1) && Covers(st1.cache, st.cache) by {
          if variable.Some? && setter.Some? {
            SetValueConsistent(env, st, variable.value, SetVariable(setter.value, ValueOf(st.cache, variable.value)));
          }
        }
        SetterRoutes(env, st, index, port, fuel);
        SendStep(env, st, st1, index, 0, fuel);
      case VariableConditionNode(variable, condition) =>
        VariableConditionRoutes(env, st, index, port, fuel);
        var holds := variable.Some? && condition.Some?
                     && AsString(ValueOf(st.cache, variable.value)) == condition.value.selectedEnum;
        SendStep(env, st, st, index, if holds then 0 else 1, fuel);
      case _ =>
    }
  }

  /** Writing a variable keeps the state consistent, whether or not the
      index holds a variable node. */
  lemma SetValueConsistent(env: Env, st: State, variable: nat, value: Variant)
    requires AllRegistered(env) && Consistent(env, st)
    ensures Consistent(env, SetValue(st, variable, value)) && Covers(SetValue(st, variable, value).cache, st.cache)
  {
    var sv := StateOf(st.cache, variable);
    if sv.Some? && sv.value.VariableNode? {
      SetValueWrites(env, st, variable, value);
    } else {
      CoversRefl(st.cache);
    }
  }

  /** Fuel only bounds the walk: a walk through a port that finished within
      its fuel gives the same result with more. */
  lemma {:induction false} SendPortFuelMonotone(env: Env, st: State, from: int, port: int, fuel: nat)
    requires WellFormed(env) && !SendPort(env, st, from, port, fuel).exhausted
    decreases fuel, 0
    ensures SendPort(env, st, from, port, fuel + 1) == SendPort(env, st, from, port, fuel)
  {
    var c := ConnectionToPort(env, from, port);
    if c.Some? {
      var g := GetInstance(env, st, c.value.toNode);
      ReceivePortFuelMonotone(env, g.st.(focused := g.instance), c.value.toNode, c.value.toPort, fuel - 1);
    }
  }

  /** More fuel changes nothing for a walk that did not run out: receiving
      on a port, variant by variant through the routing lemmas. */
  lemma {:induction false} ReceivePortFuelMonotone(env: Env, st: State, index: int, port: int, fuel: nat)
    requires WellFormed(env) && !ReceivePort(env, st, index, port, fuel).exhausted
    decreases fuel, 1
    ensures ReceivePort(env, st, index, port, fuel + 1) == ReceivePort(env, st, index, port, fuel)
  {
    var s := StateOf(st.cache, index);
    if s.Some? {
      match s.value
      case OutputNode(_, _) =>
      case ActionNode(action) =>
        ActionRoutes(env, st, index, port, fuel);
        ActionRoutes(env, st, index, port, fuel + 1);
        SendPortFuelMonotone(env, st.(events := st.events + ActionSignal(action)), index, 0, fuel);
      case ConditionNode(condition) =>
        ConditionRoutes(env, st, index, port, fuel);
        ConditionRoutes(env, st, index, port, fuel + 1);
        SendPortFuelMonotone(env, st.(events := st.events + ConditionSignal(condition)), index,
                             if ConditionHolds(env.host, condition) then 0 else 1, fuel);
      case CallNode(f) =>
        CallRoutes(env, st, index, port, fuel);
        CallRoutes(env, st, index, port, fuel + 1);
        var g := GetInstance(env, st, f);
        if g.instance.Some? && StateOf(g.st.cache, f) == Some(FunctionNode) {
          SendPortFuelMonotone(env, g.st, f, 0, fuel);
        }
      case VariableSetterNode(variable, setter) =>
        SetterRoutes(env, st, index, port, fuel);
        SetterRoutes(env, st, index, port, fuel + 1);
        SendPortFuelMonotone(env, SetterEffect(st, variable, setter), index, 0, fuel);
      case VariableConditionNode(variable, condition) =>
        VariableConditionRoutes(env, st, index, port, fuel);
        VariableConditionRoutes(env, st, index, port, fuel + 1);
        var holds := variable.Some? && condition.Some?
                     && AsString(ValueOf(st.cache, variable.value)) == condition.value.selectedEnum;
        SendPortFuelMonotone(env, st, index, if holds then 0 else 1, fuel);
      case _ =>
    }
  }

  /** No variant's `RecievePortInput` looks at the port the input arrived on. */
  lemma ReceivePortIgnoresPort(env: Env, st: State, index: int, p: int, q: int, fuel: nat)
    requires WellFormed(env)
    ensures ReceivePort(env, st, index, p, fuel) == ReceivePort(env, st, index, q, fuel)
  {
  }

  /** An output node suspends the walk: one output signal with no
      parameters, and the focus and the cache stay as they were. */
  lemma OutputSuspends(env: Env, st: State, index: int, port: int, fuel: nat)
    requires WellFormed(env) && StateOf(st.cache, index).Some? && StateOf(st.cache, index).value.OutputNode?
    ensures var s := StateOf(st.cache, index).value;
      ReceivePort(env, st, index, port, fuel) ==
        Out(st.(events := st.events + [DialogueOutput(s.outputText, s.character, [])]), false)
  {
  }

  /** The signal an action node raises before it continues: one when its
      action resolved, none otherwise. */
  function ActionSignal(action: Option<string>): (e: seq<Event>)
    ensures |e| <= 1 && (e != [] <==> action.Some?)
    ensures action.Some? ==> e == [ActionInvoked(action.value)]
  {
    if action.Some? then [ActionInvoked(action.value)] else []
  }

  /** The signal a condition node raises before it continues. */
  function ConditionSignal(condition: Option<string>): (e: seq<Event>)
    ensures |e| <= 1 && (e != [] <==> condition.Some?)
    ensures condition.Some? ==> e == [ConditionInvoked(condition.value)]
  {
    if condition.Some? then [ConditionInvoked(condition.value)] else []
  }

  /** Whether a condition node's condition resolved and its `Invoke` holds. */
  predicate ConditionHolds(host: Host, condition: Option<string>)
  {
    condition.Some? && condition.value in host.conditions && host.conditions[condition.value]
  }

  /** What a setter node does to the state before it continues. */
  function SetterEffect(st: State, variable: Option<nat>, setter: Option<Setter>): State
  {
    if variable.Some? && setter.Some?
    then SetValue(st, variable.value, SetVariable(setter.value, ValueOf(st.cache, variable.value)))
    else st
  }

  /** An action node invokes its action, when it resolved, and continues
      through port 0 whatever port the input arrived on. */
  lemma ActionRoutes(env: Env, st: State, index: int, port: int, fuel: nat)
    requires WellFormed(env) && StateOf(st.cache, index).Some? && StateOf(st.cache, index).value.ActionNode?
    ensures var a := StateOf(st.cache, index).value.connectedAction;
      ReceivePort(env, st, index, port, fuel) == SendPort(env, st.(events := st.events + ActionSignal(a)), index, 0, fuel)
  {
    var a := StateOf(st.cache, index).value.connectedAction;
    if a.None? {
      assert st.(events := st.events + ActionSignal(a)) == st;
    }
  }

  /** A condition node invokes its condition, when it resolved, and
      continues through port 0 exactly when it holds, through port 1
      otherwise. */
  lemma ConditionRoutes(env: Env, st: State, index: int, port: int, fuel: nat)
    requires WellFormed(env) && StateOf(st.cache, index).Some? && StateOf(st.cache, index).value.ConditionNode?
    ensures var c := StateOf(st.cache, index).value.connectedCondition;
      ReceivePort(env, st, index, port, fuel) ==
        SendPort(env, st.(events := st.events + ConditionSignal(c)), index, if ConditionHolds(env.host, c) then 0 else 1, fuel)
  {
    var c := StateOf(st.cache, index).value.connectedCondition;
    if c.None? {
      assert st.(events := st.events + ConditionSignal(c)) == st;
    }
  }

  /** A variable condition node continues through port 0 exactly when it is
      bound to a variable node and a condition, and the condition holds of
      the variable's current value; through port 1 otherwise. */
  lemma VariableConditionRoutes(env: Env, st: State, index: int, port: int, fuel: nat)
    requires WellFormed(env) && StateOf(st.cache, index).Some? && StateOf(st.cache, index).value.VariableConditionNode?
    ensures var s := StateOf(st.cache, index).value;
      var holds := s.variableNode.Some? && s.variableConditionInstance.Some?
                   && AsString(ValueOf(st.cache, s.variableNode.value)) == s.variableConditionInstance.value.selectedEnum;
      ReceivePort(env, st, index, port, fuel) == SendPort(env, st, index, if holds then 0 else 1, fuel)
  {
  }

  /** A setter node applies its setter and continues through port 0. */
  lemma SetterRoutes(env: Env, st: State, index: int, port: int, fuel: nat)
    requires WellFormed(env) && StateOf(st.cache, index).Some? && StateOf(st.cache, index).value.VariableSetterNode?
    ensures var s := StateOf(st.cache, index).value;
      ReceivePort(env, st, index, port, fuel) ==
        SendPort(env, SetterEffect(st, s.variableNode, s.variableSetterInstance), index, 0, fuel)
  {
  }

  /** A bound setter stores its value in the variable node it is bound to,
      announcing it; an unbound one changes nothing. */
  lemma SetterEffectWrites(env: Env, st: State, variable: Option<nat>, setter: Option<Setter>)
    requires AllRegistered(env) && CacheOk(env, st.cache)
    ensures var r := SetterEffect(st, variable, setter);
      && r.focused == st.focused
      && (variable.None? || setter.None? ==> r == st)
      && (variable.Some? && setter.Some? && StateOf(st.cache, variable.value).Some?
          && StateOf(st.cache, variable.value).value.VariableNode? ==>
            ValueOf(r.cache, variable.value) == SetVariable(setter.value, ValueOf(st.cache, variable.value))
            && r.events == st.events + [VariableValueChanging(variable.value, ValueOf(r.cache, variable.value))])
  {
    if variable.Some? && setter.Some? && StateOf(st.cache, variable.value).Some?
       && StateOf(st.cache, variable.value).value.VariableNode? {
      SetValueWrites(env, st, variable.value, SetVariable(setter.value, ValueOf(st.cache, variable.value)));
    }
  }

  /** A call node continues at the function node it names when that node's
      instance is a function node, and ends the dialogue otherwise. */
  lemma CallRoutes(env: Env, st: State, index: int, port: int, fuel: nat)
    requires WellFormed(env) && StateOf(st.cache, index).Some? && StateOf(st.cache, index).value.CallNode?
    ensures var f := StateOf(st.cache, index).value.connectedFunctionIndex;
      var g := GetInstance(env, st, f);
      ReceivePort(env, st, index, port, fuel) ==
        if g.instance.Some? && StateOf(g.st.cache, f) == Some(FunctionNode) then SendPort(env, g.st, f, 0, fuel)
        else Out(Ended(g.st), false)
  {
    var f := StateOf(st.cache, index).value.connectedFunctionIndex;
    assert StateOf(st.cache, index) == Some(CallNode(f));
  }

  // ---------------------------------------------------------------------
  // Starting, input and ending

  /** Without a tree, or without a node of the start type, starting only
      ends the dialogue. */
  lemma StartWithoutStartNodeEnds(env: Env, st: State, fuel: nat)
    requires WellFormed(env) && StartOk(env)
    requires env.doc.None? || FirstNodeOfType(env.doc.value, "Srt", 0).None?
    ensures Start(env, st, fuel) == Out(Ended(st), false)
  {
  }

  /** A start node whose port 0 leads nowhere: the dialogue starts and ends
      at once, with no output on the way and only instantiation errors
      before the ended signal. */
  lemma StartUnconnectedEnds(env: Env, st: State, fuel: nat)
    requires WellFormed(env) && StartOk(env) && CacheOk(env, st.cache) && env.doc.Some?
    requires var x := FirstNodeOfType(env.doc.value, "Srt", 0);
      x.Some? && ConnectionToPort(env, x.value, 0).None?
    ensures var o := Start(env, st, fuel);
      && o.st.focused.None? && !o.exhausted
      && |o.st.events| > |st.events| && o.st.events[|o.st.events| - 1] == DialogueEnded
      && OnlyErrorsAdded(st.events, o.st.events[..|o.st.events| - 1])
  {
    var x := FirstNodeOfType(env.doc.value, "Srt", 0).value;
    GetInstanceFacts(env, st, x);
    var g := GetInstance(env, st, x);
    var o := Start(env, st, fuel);
    assert o.st.events[..|o.st.events| - 1] == g.st.events;
  }

  /** Starting keeps the state consistent. */
  lemma StartConsistent(env: Env, st: State, fuel: nat)
    requires WellFormed(env) && StartOk(env) && Consistent(env, st)
    ensures Consistent(env, Start(env, st, fuel).st)
  {
    if env.doc.Some? && NodesCount(env) > 0 {
      var x := FirstNodeOfType(env.doc.value, FindBySaveName(env.entries, "Srt").dialogueNodeSaveName, 0);
      if x.Some? {
        GetInstanceFacts(env, st, x.value);
        var g := GetInstance(env, st, x.value);
        if g.instance.Some? {
          SendPortConsistent(env, g.st.(focused := g.instance), x.value, 0, fuel);
        }
      }
    }
  }

  /** Input with no focused node does nothing and offers no options. */
  lemma IdleIgnoresInput(env: Env, st: State, input: string, parameters: seq<Variant>, fuel: nat)
    requires WellFormed(env) && st.focused.None?
    ensures Input(env, st, input, parameters, fuel) == Out(st, false)
    ensures Options(st) == []
  {
  }

  /** Input keeps the state consistent. */
  lemma InputConsistent(env: Env, st: State, input: string, parameters: seq<Variant>, fuel: nat)
    requires WellFormed(env) && Consistent(env, st)
    ensures Consistent(env, Input(env, st, input, parameters, fuel).st)
  {
    if st.focused.Some? {
      var s := StateOf(st.cache, st.focused.value);
      if s.Some? {
        match s.value
        case OutputNode(_, _) => SendPortConsistent(env, st, st.focused.value, 0, fuel);
        case SwitchNode(cases) => SendPortConsistent(env, st, st.focused.value, ChoosePort(cases, input), fuel);
        case _ =>
      }
    }
  }

  /** An output node offers one option and resumes through port 0 whatever
      the player answers; a switch node offers its case texts and resumes
      through the first case the answer matches, or through the port after
      the last case when none does. */
  lemma InputRoutes(env: Env, st: State, input: string, parameters: seq<Variant>, fuel: nat)
    requires WellFormed(env) && st.focused.Some? && StateOf(st.cache, st.focused.value).Some?
    ensures var x := st.focused.value; var s := StateOf(st.cache, x).value;
      && (s.OutputNode? ==>
            (Options(st) == [InputOption("", Some([]))]
             && Input(env, st, input, parameters, fuel) == SendPort(env, st, x, 0, fuel)))
      && (s.SwitchNode? ==>
            (|Options(st)| == |s.caseTexts|
             && (forall k :: 0 <= k < |s.caseTexts| ==> Options(st)[k].input == s.caseTexts[k])
             && Input(env, st, input, parameters, fuel) == SendPort(env, st, x, ChoosePort(s.caseTexts, input), fuel)))
      && (!s.OutputNode? && !s.SwitchNode? ==> Options(st) == [] && Input(env, st, input, parameters, fuel) == Out(st, false))
  {
    var s := StateOf(st.cache, st.focused.value).value;
    if s.SwitchNode? {
      SwitchOptionsAreCases(s.caseTexts);
    }
  }
}
