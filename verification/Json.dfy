// JSON documents. Dictionaries are compared without regard to order, as Python compares them.
module Json {
  import opened Basics

  datatype Json =
    | Null
    | Bool(b: bool)
    | Int(n: int)
    | Text(s: string)
    | List(items: seq<Json>)
    | Dict(fields: map<string, Json>)

  /** A step into a document: a member of a dictionary or an item of a list. */
  datatype Step = Key(key: string) | Index(i: nat)

  /** What a path of steps leads to, if it leads anywhere. */
  function At(v: Json, path: seq<Step>): Option<Json>
    decreases |path|
  {
    if path == [] then Some(v)
    else
      match path[0]
      case Key(key) => if v.Dict? && key in v.fields then At(v.fields[key], path[1..]) else None
      case Index(i) => if v.List? && i < |v.items| then At(v.items[i], path[1..]) else None
  }
}
