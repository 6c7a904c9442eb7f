/** JSON values whose objects are unordered maps: equality ignores key order, as the source's does. */
module JsonTree {
  import opened Wrappers

  datatype Json =
    | Null
    | Bool(b: bool)
    | Number(n: int)
    | Str(s: string)
    | Arr(items: seq<Json>)
    | Obj(fields: map<string, Json>)

  /** One step into a value. */
  datatype Step = Key(name: string) | Index(i: nat)

  function Child(v: Json, step: Step): Option<Json> {
    match step
    case Key(name) => if v.Obj? && name in v.fields then Some(v.fields[name]) else None
    case Index(i) => if v.Arr? && i < |v.items| then Some(v.items[i]) else None
  }

  /** The value at a path, if there is one. */
  function Lookup(v: Json, path: seq<Step>): Option<Json>
    decreases |path|
  {
    if path == [] then Some(v)
    else
      var child :- Child(v, path[0]);
      Lookup(child, path[1..])
  }
}
