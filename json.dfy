/** Request and reply bodies as already-parsed JSON values. The json-c
    tokenizer and printer are not modelled; only the accessors whose
    behaviour the service's decisions depend on are. */
module JsonValue {
  import opened Common

  datatype Json =
    | JNull
    | JBool(b: bool)
    | JNumber(n: int)
    | JString(s: string)
    | JArray(items: seq<Json>)
    | JObject(fields: map<string, Json>)

  /** What LSMessageGetPayload hands back: no text at all, or a text
      together with what json_tokener_parse made of it (None when it does
      not parse). */
  datatype Payload = NoPayload | Text(raw: string, parsed: Option<Json>)

  /** The document a handler gets from json_tokener_parse: json-c returns a
      NULL pointer both for text that does not parse and for the literal
      `null`, so neither yields a document. */
  function Doc(p: Payload): (d: Option<Json>)
    ensures d.Some? ==> d.value != JNull
    ensures d.Some? <==> p.Text? && p.parsed.Some? && p.parsed.value != JNull
  {
    if p.Text? && p.parsed.Some? && p.parsed.value != JNull then p.parsed else None
  }

  /** json_object_object_get: a member that is absent and a member whose
      value is `null` both read as NULL; a non-object has no members. */
  function Get(j: Json, key: string): (r: Option<Json>)
    ensures r.Some? ==> j.JObject? && key in j.fields && r.value == j.fields[key]
    ensures r.Some? ==> r.value != JNull
    ensures r.None? ==> !j.JObject? || key !in j.fields || j.fields[key] == JNull
  {
    if j.JObject? && key in j.fields && j.fields[key] != JNull then Some(j.fields[key]) else None
  }

  /** json_object_get_boolean, including its coercions: NULL, arrays and
      objects read as false, numbers as "non-zero", strings as "non-empty". */
  function AsBoolean(o: Option<Json>): bool
  {
    match o
    case None => false
    case Some(JBool(b)) => b
    case Some(JNumber(n)) => n != 0
    case Some(JString(s)) => s != []
    case Some(_) => false
  }

  /** json_object_is_type(o, json_type_string) on a possibly NULL member. */
  predicate IsString(o: Option<Json>)
  {
    o.Some? && o.value.JString?
  }

  /** json_object_get_string of a non-NULL value: a string's own text, and
      json-c's printed form (`render`) of any other value. */
  function StringOf(j: Json, render: Json -> string): string
  {
    if j.JString? then j.s else render(j)
  }
}
