/** JSON values as serde_json holds them, and paths into them. */
module Json {
  import opened Prelude

  /** Objects are maps: serde_json compares and enumerates them without regard to insertion order. */
  datatype Json =
    | Null
    | Bool(b: bool)
    | Num(n: real)
    | Str(s: string)
    | Arr(items: seq<Json>)
    | Obj(fields: map<string, Json>)

  datatype Segment = Key(name: string) | Index(i: nat)

  type Path = seq<Segment>

  /** The value at `path`, if every segment names an existing member. */
  function Lookup(v: Json, path: Path): Option<Json>
    decreases |path|
  {
    if path == [] then Some(v)
    else match (v, path[0])
      case (Obj(fields), Key(name)) =>
        if name in fields then Lookup(fields[name], path[1..]) else None
      case (Arr(items), Index(i)) =>
        if i < |items| then Lookup(items[i], path[1..]) else None
      case _ => None
  }
}
