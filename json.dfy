/**
 * An already-parsed JSON document (RFC 8259). Turning bytes into this tree is
 * the job of Foundation's parser and is not part of the model.
 */
module Json {

  /** A JSON value. Numbers are kept as exact rationals; objects map member names to values. */
  datatype JsonValue =
    | JNull
    | JBool(b: bool)
    | JNumber(n: real)
    | JString(s: string)
    | JArray(items: seq<JsonValue>)
    | JObject(fields: map<string, JsonValue>)
}
