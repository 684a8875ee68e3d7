/** JSON values as `serde_json` holds them: objects are maps, and numbers are
    either integers or finite floats (taken here as reals). */
module Json {
  import opened Prelude

  datatype Number = Integer(n: int) | Float(r: real)

  type Object = map<string, Json>

  datatype Json =
    | Null
    | Bool(b: bool)
    | Num(number: Number)
    | Str(s: string)
    | Arr(items: seq<Json>)
    | Obj(fields: map<string, Json>)

  // ---- Positions in a value

  datatype Hop = Field(key: string) | Item(index: nat)

  /** The value a path of fields and items leads to, if it leads anywhere. */
  function At(v: Json, path: seq<Hop>): Option<Json> {
    if path == [] then Some(v)
    else match (v, path[0])
      case (Obj(fields), Field(key)) => if key in fields then At(fields[key], path[1..]) else None
      case (Arr(items), Item(index)) => if index < |items| then At(items[index], path[1..]) else None
      case _ => None
  }
}
