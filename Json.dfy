/** The decoded claims of a token, as the JSON values they were parsed from. */
module Json {

  /** A JSON value. A JSON object decodes to a Java `Map`, a JSON array to a
      `List` (a `Collection`), and `null` to a Java null reference. */
  datatype Value =
    | Null
    | Bool(b: bool)
    | Num(n: int)
    | Str(s: string)
    | Arr(items: seq<Value>)
    | Obj(fields: map<string, Value>)

  /** The claims of a decoded token: an unordered map from claim name to value. */
  type Claims = map<string, Value>
}
