/** The JSON values a client can submit, and Python's `in` operator on them. */
module JsonValues {
  import opened Wrappers

  /** A decoded JSON document. Numbers are integers only. */
  datatype Json =
    | JNull
    | JBool(b: bool)
    | JNum(n: int)
    | JStr(s: string)
    | JArray(items: seq<Json>)
    | JObject(fields: map<string, Json>)

  /** `key` occurs as a contiguous piece of `s` (Python's `key in s` on two strings). */
  predicate IsSubstring(key: string, s: string) {
    exists i :: 0 <= i <= |s| - |key| && OccursAt(key, s, i)
  }

  /** `key` occurs in `s` starting at position `i`. */
  predicate OccursAt(key: string, s: string, i: int) {
    0 <= i <= |s| - |key| && s[i..i + |key|] == key
  }

  /**
   * Python's `key in v` for a string `key` and a decoded JSON value `v`:
   * key lookup on an object, element membership on an array, substring search
   * on a string. On null, booleans and numbers Python raises a TypeError,
   * represented here by `None`.
   */
  function Contains(v: Json, key: string): (r: Option<bool>)
    ensures r.None? <==> v.JNull? || v.JBool? || v.JNum?
    ensures v.JObject? ==> r == Some(key in v.fields)
  {
    match v
    case JObject(fields) => Some(key in fields)
    case JArray(items) => Some(JStr(key) in items)
    case JStr(s) => Some(IsSubstring(key, s))
    case _ => None
  }
}
