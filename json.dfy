/**
 Parsed JSON values, as `resposta.json()` hands them to the weather client:
 objects (a Python `dict`, so one value per key), arrays, strings, numbers,
 booleans and null. Numbers are `real`: the client does no arithmetic on them.
 */
module Json {

  datatype Option<T> = None | Some(value: T)

  datatype Json =
    | JObject(members: map<string, Json>)
    | JArray(items: seq<Json>)
    | JString(str: string)
    | JNumber(num: real)
    | JBool(b: bool)
    | JNull

  /** `j[key]` on a dict: `None` where Python raises (`KeyError`, or `TypeError`
      when `j` is not an object). */
  function Member(j: Json, key: string): (r: Option<Json>)
    ensures r.Some? <==> j.JObject? && key in j.members
    ensures r.Some? ==> r.value == j.members[key]
  {
    if j.JObject? && key in j.members then Some(j.members[key]) else None
  }

  /** `j[0]` as the decoder uses it: a non-empty list yields its first item and
      anything else yields `None`. Python also indexes a non-empty string, but
      the decoder then reads `["description"]` from the character it gets, which
      fails just as an empty list does, so the decoding result is the same. */
  function First(j: Json): (r: Option<Json>)
    ensures r.Some? <==> j.JArray? && |j.items| > 0
    ensures r.Some? ==> r.value == j.items[0]
  {
    if j.JArray? && |j.items| > 0 then Some(j.items[0]) else None
  }
}
