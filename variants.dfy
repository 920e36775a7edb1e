/** Godot's dynamically typed `Variant`, restricted to the kinds the dialogue
    runtime stores in node payloads, and the conversions the node instances
    apply to payload entries. */
module Variants {

  datatype Option<+T> = None | Some(value: T)

  datatype Variant =
    | Nil
    | Str(s: string)
    | Int(i: int)
    | Path(path: string)
    | StrArray(strings: seq<string>)
    | Arr(items: seq<Variant>)

  /** `Variant.AsString()` for the kinds that carry text; anything else reads as "". */
  function AsString(v: Variant): string
  {
    match v
    case Str(s) => s
    case Path(p) => p
    case _ => ""
  }

  /** `Variant.AsInt32()`: an integer payload entry; anything else reads as 0. */
  function AsInt32(v: Variant): int
  {
    if v.Int? then v.i else 0
  }

  /** `Variant.AsNodePath()`: a path or a string; anything else is the empty path. */
  function AsNodePath(v: Variant): string
  {
    match v
    case Path(p) => p
    case Str(s) => s
    case _ => ""
  }

  /** `Variant.AsStringArray()`: a packed string array; anything else is empty. */
  function AsStringArray(v: Variant): seq<string>
  {
    if v.StrArray? then v.strings else []
  }

  /** `Variant.AsGodotArray()`: an array; anything else is empty. */
  function AsGodotArray(v: Variant): seq<Variant>
  {
    if v.Arr? then v.items else []
  }

  /** The payload entry `data[k]` of a stored payload, when the payload is an
      array that long. */
  predicate HasItems(data: Variant, k: nat)
  {
    data.Arr? && |data.items| >= k
  }
}
