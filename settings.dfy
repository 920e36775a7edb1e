/** The plugin settings resources: the list of node types and the default
    tree that new trees copy. `DialogueTreeSettings` is the one the runtime
    reads; `DialogueTreesSettings` is its sibling with an extra helper. */
module Settings {
  import opened Variants
  import opened NodeData
  import opened TreeDoc

  /** The search `foreach ... if(d.DialogueNodeSaveName == name)` reads the
      save name of every entry up to the first match, so it is safe exactly
      when no null entry comes before that match (or, with no match, when
      there is no null entry at all). */
  predicate ScanSafe(entries: seq<DialogueNodeData?>, name: string)
  {
    entries == [] ||
    (entries[0] != null && (entries[0].dialogueNodeSaveName == name || ScanSafe(entries[1..], name)))
  }

  /** The position of the first entry whose save name is `name`. */
  function FirstSaveNameIndex(entries: seq<DialogueNodeData?>, name: string): (r: Option<nat>)
    requires ScanSafe(entries, name)
    ensures r.Some? ==> r.value < |entries| && entries[r.value] != null
    ensures r.Some? ==> entries[r.value].dialogueNodeSaveName == name
    ensures r.Some? ==> forall j :: 0 <= j < r.value ==> entries[j] != null && entries[j].dialogueNodeSaveName != name
    ensures r.None? ==> forall j :: 0 <= j < |entries| ==> entries[j] != null && entries[j].dialogueNodeSaveName != name
  {
    if entries == [] then None
    else if entries[0].dialogueNodeSaveName == name then Some(0)
    else
      var r := FirstSaveNameIndex(entries[1..], name);
      if r.Some? then Some(r.value + 1) else None
  }

  /** `GetDialogueNodeData`: the first entry with that save name, or null. */
  function FindBySaveName(entries: seq<DialogueNodeData?>, name: string): (r: DialogueNodeData?)
    requires ScanSafe(entries, name)
    ensures r != null ==> r.dialogueNodeSaveName == name && r in entries
    ensures r == null <==> forall j :: 0 <= j < |entries| ==> entries[j] != null && entries[j].dialogueNodeSaveName != name
  {
    var k := FirstSaveNameIndex(entries, name);
    if k.Some? then entries[k.value] else null
  }

  /** Appending entries after a match does not change what the search finds. */
  lemma {:induction false} FindAfterAppend(entries: seq<DialogueNodeData?>, more: seq<DialogueNodeData?>, name: string)
    requires ScanSafe(entries, name) && FindBySaveName(entries, name) != null
    ensures ScanSafe(entries + more, name)
    ensures FindBySaveName(entries + more, name) == FindBySaveName(entries, name)
  {
    assert entries != [];
    if entries[0].dialogueNodeSaveName != name {
      assert (entries + more)[1..] == entries[1..] + more;
      FindAfterAppend(entries[1..], more, name);
    }
  }

  class DialogueTreeSettings {
    var dialogueNodeData: seq<DialogueNodeData?>
    /** `DefaultTree`, represented by the contents of that tree resource. */
    var defaultTree: Option<Doc>
    /** How many `DialogueNodeCollectionChanged` signals have been emitted. */
    var collectionChanged: nat

    constructor ()
      ensures dialogueNodeData == [] && defaultTree == None && collectionChanged == 0
    {
      dialogueNodeData := [];
      defaultTree := None;
      collectionChanged := 0;
    }

    /** The `DialogueNodeData` setter: stores the list, points every non-null
        entry back at this settings object, and signals the change once. */
    method SetDialogueNodeData(value: seq<DialogueNodeData?>)
      modifies this, set e | e in value && e != null
      ensures dialogueNodeData == value && defaultTree == old(defaultTree)
      ensures collectionChanged == old(collectionChanged) + 1
      ensures forall e :: e in value && e != null ==> e.dialogueNodeCollection == this
      ensures forall e :: e in value && e != null ==> e.nodeLimitRaw == old(e.nodeLimitRaw)
    {
      dialogueNodeData := value;
      for x := 0 to |value|
        invariant dialogueNodeData == value && defaultTree == old(defaultTree)
        invariant collectionChanged == old(collectionChanged)
        invariant forall j :: 0 <= j < x && value[j] != null ==> value[j].dialogueNodeCollection == this
        invariant forall e :: e in value && e != null ==> e.nodeLimitRaw == old(e.nodeLimitRaw)
      {
        if value[x] != null {
          value[x].dialogueNodeCollection := this;
        }
      }
      NotifyCollectionModified();
    }

    /** `NotifyCollectionModified`: one more collection-changed signal and
        nothing else. */
    method NotifyCollectionModified()
      modifies this`collectionChanged
      ensures collectionChanged == old(collectionChanged) + 1
    {
      collectionChanged := collectionChanged + 1;
    }

    function GetDialogueNodeData(name: string): (r: DialogueNodeData?)
      reads this
      requires ScanSafe(dialogueNodeData, name)
      ensures r != null ==> r.dialogueNodeSaveName == name
      ensures r != null ==> (exists k :: 0 <= k < |dialogueNodeData| && dialogueNodeData[k] == r &&
                               forall j :: 0 <= j < k ==> dialogueNodeData[j] != null && dialogueNodeData[j].dialogueNodeSaveName != name)
      ensures r == null ==> forall e :: e in dialogueNodeData ==> e != null && e.dialogueNodeSaveName != name
    {
      FindBySaveName(dialogueNodeData, name)
    }
  }

  class DialogueTreesSettings {
    var dialogueNodeData: seq<DialogueNodeData?>
    var defaultTree: Option<Doc>
    var collectionChanged: nat

    constructor ()
      ensures dialogueNodeData == [] && defaultTree == None && collectionChanged == 0
    {
      dialogueNodeData := [];
      defaultTree := None;
      collectionChanged := 0;
    }

    method SetDialogueNodeData(value: seq<DialogueNodeData?>)
      modifies this, set e | e in value && e != null
      ensures dialogueNodeData == value && defaultTree == old(defaultTree)
      ensures collectionChanged == old(collectionChanged) + 1
      ensures forall e :: e in value && e != null ==> e.dialogueNodeCollection == this
      ensures forall e :: e in value && e != null ==> e.nodeLimitRaw == old(e.nodeLimitRaw)
    {
      dialogueNodeData := value;
      for x := 0 to |value|
        invariant dialogueNodeData == value && defaultTree == old(defaultTree)
        invariant collectionChanged == old(collectionChanged)
        invariant forall j :: 0 <= j < x && value[j] != null ==> value[j].dialogueNodeCollection == this
        invariant forall e :: e in value && e != null ==> e.nodeLimitRaw == old(e.nodeLimitRaw)
      {
        if value[x] != null {
          value[x].dialogueNodeCollection := this;
        }
      }
      NotifyCollectionModified();
    }

    /** `NotifyCollectionModified`: one more collection-changed signal and
        nothing else. */
    method NotifyCollectionModified()
      modifies this`collectionChanged
      ensures collectionChanged == old(collectionChanged) + 1
    {
      collectionChanged := collectionChanged + 1;
    }

    /** `AddDialogueNodeData`: the list becomes the old list followed by the
        new entries, through the setter. */
    method AddDialogueNodeData(more: seq<DialogueNodeData?>)
      modifies this, set e | e in dialogueNodeData + more && e != null
      ensures dialogueNodeData == old(dialogueNodeData) + more
      ensures |dialogueNodeData| == |old(dialogueNodeData)| + |more|
      ensures collectionChanged == old(collectionChanged) + 1
      ensures defaultTree == old(defaultTree)
      ensures forall e :: e in dialogueNodeData && e != null ==> e.dialogueNodeCollection == this
      ensures forall e :: e in old(dialogueNodeData) + more && e != null ==> e.nodeLimitRaw == old(e.nodeLimitRaw)
    {
      SetDialogueNodeData(dialogueNodeData + more);
    }

    function GetDialogueNodeData(name: string): (r: DialogueNodeData?)
      reads this
      requires ScanSafe(dialogueNodeData, name)
      ensures r != null ==> r.dialogueNodeSaveName == name
      ensures r != null ==> (exists k :: 0 <= k < |dialogueNodeData| && dialogueNodeData[k] == r &&
                               forall j :: 0 <= j < k ==> dialogueNodeData[j] != null && dialogueNodeData[j].dialogueNodeSaveName != name)
      ensures r == null ==> forall e :: e in dialogueNodeData ==> e != null && e.dialogueNodeSaveName != name
    {
      FindBySaveName(dialogueNodeData, name)
    }
  }
}
