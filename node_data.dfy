/** `DialogueNodeData`: the settings entry that describes one node type (its
    display name, its save name, the editor scene, the runtime instance script
    and the advanced limits). */
module NodeData {
  import opened Variants

  /** The runtime instance variants a node type's script can produce. */
  datatype InstanceKind =
    | StartKind
    | OutputKind
    | SwitchKind
    | ActionKind
    | ConditionKind
    | CallKind
    | FunctionKind
    | VariableKind
    | VariableSetterKind
    | VariableConditionKind

  /** The instance script resource: missing, a script that does not derive
      from `DialogueNodeInstance`, or one that builds the given variant. */
  datatype Script = NoScript | OtherScript | InstanceScript(kind: InstanceKind)

  /** The editor scene resource: missing, one whose root is not a
      `DialogueNode`, or one whose root is. */
  datatype Scene = NoScene | OtherScene | DialogueNodeScene

  /** C#'s `int.MaxValue`. */
  const IntMaxValue: int := 0x7fff_ffff

  /** The raw limit that stands for "no limit". */
  const UnlimitedRaw: int := -1

  class DialogueNodeData {
    const dialogueNodeName: string
    const dialogueNodeSaveName: string
    const dialogueNodeScene: Scene
    const instanceScript: Script
    const includeInNewTrees: int

    /** The exported `_nodeLimit` field; -1 means unlimited. */
    var nodeLimitRaw: int

    /** `dialogueNodeCollection`: the settings object that lists this entry. */
    var dialogueNodeCollection: object?

    constructor (name: string, saveName: string, scene: Scene, script: Script, includeInNewTrees: int)
      ensures dialogueNodeName == name && dialogueNodeSaveName == saveName
      ensures dialogueNodeScene == scene && instanceScript == script
      ensures this.includeInNewTrees == includeInNewTrees
      ensures nodeLimitRaw == UnlimitedRaw && dialogueNodeCollection == null
    {
      dialogueNodeName := name;
      dialogueNodeSaveName := saveName;
      dialogueNodeScene := scene;
      instanceScript := script;
      this.includeInNewTrees := includeInNewTrees;
      nodeLimitRaw := UnlimitedRaw;
      dialogueNodeCollection := null;
    }

    /** The `NodeLimit` getter: the raw limit, with -1 read as `int.MaxValue`. */
    function NodeLimit(): (r: int)
      reads this
      ensures nodeLimitRaw == UnlimitedRaw ==> r == IntMaxValue
      ensures nodeLimitRaw != UnlimitedRaw ==> r == nodeLimitRaw
    {
      if nodeLimitRaw == UnlimitedRaw then IntMaxValue else nodeLimitRaw
    }

    /** The `NodeLimit` setter stores the raw value as given. */
    method SetNodeLimit(value: int)
      modifies this`nodeLimitRaw
      ensures nodeLimitRaw == value
      ensures value != UnlimitedRaw ==> NodeLimit() == value
    {
      nodeLimitRaw := value;
    }

    /** A usable node type: both resources present and both names non-empty. */
    predicate IsValid()
    {
      dialogueNodeScene != NoScene && instanceScript != NoScript
      && dialogueNodeName != "" && dialogueNodeSaveName != ""
    }

    /** `TryInstantiateDialogueNode`: succeeds exactly when the entry is valid
        and its scene's root is a `DialogueNode`. */
    function TryInstantiateDialogueNode(): (ok: bool)
      ensures ok ==> IsValid()
      ensures ok <==> IsValid() && dialogueNodeScene == DialogueNodeScene
    {
      if !IsValid() then false else dialogueNodeScene == DialogueNodeScene
    }

    /** `TryInstantiateDialogueNodeInstance`: the variant built from the
        instance script, or `None` (the `false` result with a null instance)
        when the entry is invalid or the script builds no instance. */
    function TryInstantiateDialogueNodeInstance(): (r: Option<InstanceKind>)
      ensures r.Some? ==> IsValid() && instanceScript == InstanceScript(r.value)
      ensures !IsValid() ==> r == None
      ensures IsValid() && instanceScript.InstanceScript? ==> r == Some(instanceScript.kind)
    {
      if !IsValid() then None
      else if instanceScript.InstanceScript? then Some(instanceScript.kind)
      else None
    }
  }

  /** How many nodes of this type a new tree is seeded with: the loop
      `x < IncludeInNewTrees && x < NodeLimit` runs min of the two times, and
      never a negative number of times. */
  function SeedCount(d: DialogueNodeData): (n: nat)
    reads d
    ensures n <= d.NodeLimit() || d.NodeLimit() < 0
    ensures n <= d.includeInNewTrees || d.includeInNewTrees < 0
    ensures n == 0 <==> d.includeInNewTrees <= 0 || d.NodeLimit() <= 0
    ensures n == d.includeInNewTrees || n == d.NodeLimit() || (n == 0 && (d.includeInNewTrees <= 0 || d.NodeLimit() <= 0))
  {
    var m := if d.includeInNewTrees < d.NodeLimit() then d.includeInNewTrees else d.NodeLimit();
    if m < 0 then 0 else m
  }

  /** With the default (unlimited) raw limit a node type is seeded
      `IncludeInNewTrees` times. */
  lemma UnlimitedSeedsInclude(d: DialogueNodeData)
    requires d.nodeLimitRaw == UnlimitedRaw && 0 <= d.includeInNewTrees <= IntMaxValue
    ensures SeedCount(d) == d.includeInNewTrees
  {
  }
}
