/** The values `JSON.parse` can return, and the iteration a `for...of` loop
    performs over one of them. */
module JsonValues {
  import opened Base

  datatype Json =
    | JNull
    | JBool(b: bool)
    | JNumber
    | JString(s: string)
    | JArray(items: seq<Json>)
    | JObject

  /** The values `for (const x of v)` visits, or `None` when `v` is not
      iterable and the loop throws a TypeError. Arrays yield their elements,
      strings their characters as one-character strings. */
  function ForOf(v: Json): (r: Option<seq<Json>>)
    ensures r.Some? <==> v.JArray? || v.JString?
    ensures v.JArray? ==> r == Some(v.items)
    ensures v.JString? ==> |r.value| == |v.s|
    ensures v.JString? ==> forall k :: 0 <= k < |v.s| ==> r.value[k] == JString([v.s[k]])
  {
    match v
    case JArray(items) => Some(items)
    case JString(s) => Some(seq(|s|, k requires 0 <= k < |s| => JString([s[k]])))
    case _ => None
  }
}
