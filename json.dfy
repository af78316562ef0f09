/** The JSON-like values that cells of the embedded table and view configurations hold. */
module Json {

  /** Numbers are modelled as integers; the source's IEEE doubles are not. */
  datatype Json =
    | JNull
    | JBool(b: bool)
    | JNumber(n: int)
    | JString(s: string)
    | JArray(items: seq<Json>)
    | JObject(fields: map<string, Json>)
}
