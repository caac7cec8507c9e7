/**
 * The values `JSON.parse` can produce, and the two JavaScript operations the
 * core applies to them: truthiness and property access (`value.image`).
 * The parser itself is not modelled: callers receive it as a parameter.
 */
module JsonValues {
  import opened Wrappers

  datatype Json =
    | JNull
    | JBool(b: bool)
    | JNumber(n: int)
    | JString(s: string)
    | JArray(items: seq<Json>)
    | JObject(members: seq<(string, Json)>)

  /** `JSON.parse`: a parsed value, or None when it throws a SyntaxError. */
  type JsonParser = string -> Option<Json>

  /** JavaScript truthiness of a parsed value. */
  predicate Truthy(v: Json) {
    match v
    case JNull => false
    case JBool(b) => b
    case JNumber(n) => n != 0
    case JString(s) => s != ""
    case JArray(_) => true
    case JObject(_) => true
  }

  /** What `v.key` does: throw a TypeError, give `undefined`, or give a value. */
  datatype Property = TypeError | Undefined | Defined(value: Json)

  /** The value bound to key by the last member that names it (`JSON.parse` keeps the last duplicate). */
  function LastBinding(members: seq<(string, Json)>, key: string): (r: Option<Json>)
    ensures r.None? <==> forall i | 0 <= i < |members| :: members[i].0 != key
    ensures r.Some? ==> exists i | 0 <= i < |members| ::
      members[i] == (key, r.value) && forall j | i < j < |members| :: members[j].0 != key
    decreases |members|
  {
    if |members| == 0 then None
    else if members[|members| - 1].0 == key then Some(members[|members| - 1].1)
    else LastBinding(members[..|members| - 1], key)
  }

  /** `v[key]`: null throws, an object gives its last binding of key, anything else undefined. */
  function GetProperty(v: Json, key: string): (p: Property)
    ensures p.TypeError? <==> v.JNull?
    ensures p.Defined? ==> v.JObject?
    ensures v.JObject? ==> (p.Defined? <==> LastBinding(v.members, key).Some?)
    ensures p.Defined? ==> Some(p.value) == LastBinding(v.members, key)
    ensures !v.JNull? && !v.JObject? ==> p == Undefined
  {
    match v
    case JNull => TypeError
    case JObject(members) =>
      (match LastBinding(members, key)
       case None => Undefined
       case Some(x) => Defined(x))
    case _ => Undefined
  }
}
