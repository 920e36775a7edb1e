/** The variable extension point: the registry that maps a variable type to
    the scripts that set and test variables of that type, and the enum
    setter and condition those scripts build. */
module VariableTypes {
  import opened Variants

  /** The setter scripts a registry entry can name. */
  datatype SetterScript = EnumSetterScript

  /** The condition scripts a registry entry can name. */
  datatype ConditionScript = EnumConditionScript

  /** `VariableInstanceData`: a variable type and its two scripts; a missing
      script is `None`. */
  datatype VariableInstanceData = VariableInstanceData(
    variableType: string,
    variableSetterInstanceScript: Option<SetterScript>,
    variableConditionInstanceScript: Option<ConditionScript>)

  /** `default(VariableInstanceData)`: a null type and no scripts. */
  const DefaultVariableData: VariableInstanceData := VariableInstanceData("", None, None)

  /** `GetVariableDataList`: the built-in registry, holding only "Enum". */
  function GetVariableDataList(): (list: seq<VariableInstanceData>)
    ensures |list| == 1 && list[0].variableType == "Enum"
    ensures list[0].variableSetterInstanceScript == Some(EnumSetterScript)
    ensures list[0].variableConditionInstanceScript == Some(EnumConditionScript)
  {
    [VariableInstanceData("Enum", Some(EnumSetterScript), Some(EnumConditionScript))]
  }

  /** The first entry of `list` whose type is `t`, or the default entry. */
  function FirstDataForType(list: seq<VariableInstanceData>, t: string): (r: VariableInstanceData)
    ensures r == DefaultVariableData || r in list
    ensures r != DefaultVariableData ==> r.variableType == t
    ensures (exists k :: 0 <= k < |list| && list[k].variableType == t) ==> r.variableType == t
    ensures (forall k :: 0 <= k < |list| ==> list[k].variableType != t) ==> r == DefaultVariableData
  {
    if list == [] then DefaultVariableData
    else if list[0].variableType == t then list[0]
    else FirstDataForType(list[1..], t)
  }

  /** The registry search loops over the entries in order and returns at the
      first match. */
  lemma {:induction false} FirstDataForTypeIsFirst(list: seq<VariableInstanceData>, t: string, k: nat)
    requires k < |list| && list[k].variableType == t
    requires forall j :: 0 <= j < k ==> list[j].variableType != t
    ensures FirstDataForType(list, t) == list[k]
  {
    if k > 0 {
      FirstDataForTypeIsFirst(list[1..], t, k - 1);
    }
  }

  /** `GetVariableDataForType` over the built-in registry. */
  function GetVariableDataForType(t: string): (r: VariableInstanceData)
    ensures t == "Enum" ==> r == GetVariableDataList()[0]
    ensures t != "Enum" ==> r == DefaultVariableData
  {
    FirstDataForType(GetVariableDataList(), t)
  }

  /** Only the "Enum" type gets a setter and a condition. */
  lemma ScriptsOnlyForEnum(t: string)
    ensures GetVariableDataForType(t).variableSetterInstanceScript.Some? <==> t == "Enum"
    ensures GetVariableDataForType(t).variableConditionInstanceScript.Some? <==> t == "Enum"
  {
  }

  // ---------------------------------------------------------------------
  // Setter and condition instances

  /** A ready setter instance; `DialogueEnumSetterInstance` keeps `_enumName`. */
  datatype Setter = EnumSetter(enumName: string)

  /** A ready condition instance; `DialogueEnumConditionInstance` keeps
      `_selectedEnum`. */
  datatype Condition = EnumCondition(selectedEnum: string)

  /** The setter's `Ready`: the script builds the instance, which stores the
      first entry of its payload as the enum name. */
  function ReadySetter(script: SetterScript, data: seq<Variant>): (s: Setter)
    requires |data| >= 1
    ensures s == EnumSetter(AsString(data[0]))
  {
    match script
    case EnumSetterScript => EnumSetter(AsString(data[0]))
  }

  /** The condition's `Ready`: stores the first payload entry as the
      selected enum. */
  function ReadyCondition(script: ConditionScript, data: seq<Variant>): (c: Condition)
    requires |data| >= 1
    ensures c == EnumCondition(AsString(data[0]))
  {
    match script
    case EnumConditionScript => EnumCondition(AsString(data[0]))
  }

  /** `SetVariable`: the enum setter writes its stored name whatever the
      previous value was. */
  function SetVariable(s: Setter, previousVariable: Variant): (v: Variant)
    ensures AsString(v) == s.enumName
  {
    match s
    case EnumSetter(name) => Str(name)
  }

  /** `RunCondition`: the enum condition compares the string form of the
      value with the selected enum. */
  function RunCondition(c: Condition, variableValue: Variant): (b: bool)
    ensures b <==> AsString(variableValue) == c.selectedEnum
  {
    match c
    case EnumCondition(selected) => AsString(variableValue) == selected
  }

  /** The setter ignores the previous value. */
  lemma SetVariableConstant(s: Setter, v: Variant, w: Variant)
    ensures SetVariable(s, v) == SetVariable(s, w)
  {
  }

  /** Applying the setter twice is applying it once. */
  lemma SetVariableIdempotent(s: Setter, v: Variant)
    ensures SetVariable(s, SetVariable(s, v)) == SetVariable(s, v)
  {
  }

  /** Write-then-read: after an enum setter writes `s`, a condition that
      selects `t` holds exactly when `t == s`. */
  lemma WriteThenRead(s: string, t: string, previous: Variant)
    ensures RunCondition(EnumCondition(t), SetVariable(EnumSetter(s), previous)) <==> s == t
  {
  }

  /** A setter and a condition readied from the same one-entry payload agree. */
  lemma ReadyPairAgrees(name: Variant, previous: Variant)
    ensures RunCondition(ReadyCondition(EnumConditionScript, [name]),
                         SetVariable(ReadySetter(EnumSetterScript, [name]), previous))
  {
  }
}
