/**
 * The Python values the generator passes around: a decoded JSON document
 * (what `json.loads` yields) and an HTTP error (`HTTPException`).
 *
 * A JSON object is a map from keys to values, as a Python dict is once
 * duplicate keys are resolved; the order of its keys is not modelled.
 */
module JsonValues {

  datatype Json =
    | Null
    | Bool(b: bool)
    | Number(literal: string)
    | Str(s: string)
    | Array(items: seq<Json>)
    | Object(fields: map<string, Json>)

  /** `HTTPException(status_code, detail)` with a string detail. */
  datatype HttpError = HttpError(status: int, detail: string)

  /** A one-field object `{key: text}`. */
  function TextObject(key: string, text: string): (r: Json)
    ensures r.Object? && r.fields.Keys == {key} && r.fields[key] == Str(text)
  {
    Object(map[key := Str(text)])
  }
}
