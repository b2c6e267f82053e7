/**
 * The values JSON.parse produces, which are also the values a path query
 * can return. A number is carried as a `real`; its text form belongs to the
 * formatter (see JsonPathExtractor.Formatter).
 */
module JsonValues {

  datatype Json =
    | JNull
    | JBool(b: bool)
    | JNumber(n: real)
    | JString(s: string)
    | JArray(elements: seq<Json>)
    | JObject(members: seq<(string, Json)>)

}
