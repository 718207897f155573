/** The tree of JSON elements the response decoders walk (Gson's JsonElement family). */
module JsonTree {
  import opened Results

  /** A JSON element. Numbers keep their literal text, as Gson's lazily parsed numbers do. */
  datatype Json =
    | JNull
    | JBool(b: bool)
    | JNumber(literal: string)
    | JString(s: string)
    | JArray(elems: seq<Json>)
    | JObject(members: map<string, Json>)

  /** Gson's `getAsString`: primitives render as text, a one-element array defers to its
      element, and every other element (null, object, any other array) throws. */
  function AsString(j: Json): (r: Option<string>)
    ensures (j.JNull? || j.JObject?) ==> r.None?
    ensures j.JArray? && |j.elems| != 1 ==> r.None?
    ensures j.JString? ==> r == Some(j.s)
    ensures j.JNumber? ==> r == Some(j.literal)
    ensures j.JBool? ==> r == Some(if j.b then "true" else "false")
    ensures j.JArray? && |j.elems| == 1 ==> r == AsString(j.elems[0])
  {
    match j
    case JNull => None
    case JBool(b) => Some(if b then "true" else "false")
    case JNumber(lit) => Some(lit)
    case JString(s) => Some(s)
    case JArray(a) => if |a| == 1 then AsString(a[0]) else None
    case JObject(_) => None
  }
}
