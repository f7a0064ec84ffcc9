/** JSON values as Python's `json` hands them out.  An object keeps its members
    in order; its keys do not repeat, as in a dict. */
module Json {
  import opened Common

  datatype Json =
    | Null
    | Bool(b: bool)
    | Int(i: int)
    | Float(x: real)
    | Str(s: string)
    | Arr(items: seq<Json>)
    | Obj(members: seq<(string, Json)>)

  /** `mapping.get(key)` */
  function Get(members: seq<(string, Json)>, key: string): Option<Json> {
    if members == [] then None
    else if members[0].0 == key then Some(members[0].1)
    else Get(members[1..], key)
  }

  /** `mapping.get(key)` with Python's None for both an absent key and a null. */
  function GetOrNull(members: seq<(string, Json)>, key: string): Json {
    match Get(members, key)
    case Some(v) => v
    case None => Null
  }
}
