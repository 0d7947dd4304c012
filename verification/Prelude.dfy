/** The datatypes several modules share: absent values, the errors a source function can
    return, and JSON values as the source receives them. */
module Prelude {
  datatype Option<+T> = None | Some(value: T)

  datatype Result<+T, +E> = Ok(value: T) | Err(error: E)

  function Max(a: int, b: int): int {
    if a < b then b else a
  }

  datatype Json =
    | JNull
    | JBool(b: bool)
    | JNumber(n: real)
    | JString(s: string)
    | JArray(items: seq<Json>)
    | JObject(fields: map<string, Json>)

  /** `value[key]`: null where the value is not an object or has no such key. */
  function Field(value: Json, key: string): Json {
    if value.JObject? && key in value.fields then value.fields[key] else JNull
  }
}
