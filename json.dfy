/** The values that Python's `json.loads` produces, as far as this model needs
    them: request and reply handling only compares them for equality and
    passes them through. A JSON number is kept as its literal text, since
    nothing in the model does arithmetic on it. */
module JsonValue {

  datatype Json =
    | JNull
    | JBool(b: bool)
    | JNumber(literal: string)
    | JString(s: string)
    | JArray(items: seq<Json>)
    | JObject(members: map<string, Json>)
}
