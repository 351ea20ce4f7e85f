/** JSON documents as values: objects are maps, as serde keeps them. */
module Json {
  import opened Wrappers

  datatype Json =
    | Null | Bool(value: bool) | Number(number: int) | Text(text: string)
    | Array(items: seq<Json>) | Object(members: map<string, Json>)
  {
    function Get(key: string): Option<Json> {
      if Object? && key in members then Some(members[key]) else None
    }
  }
}
