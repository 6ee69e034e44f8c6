/**
 * JSON values and the accessors of org.json / JsonUtils that the modelled code
 * uses. An accessor that would throw JSONException, or that JsonUtils turns
 * into null, yields None.
 */
module Json {
  import opened Wrappers

  datatype JsonValue =
    | JNull
    | JBool(b: bool)
    | JInt(i: int)
    | JString(s: string)
    | JArray(elems: seq<JsonValue>)
    | JObject(fields: map<string, JsonValue>)

  type JsonObject = map<string, JsonValue>

  /** JSONObject.getString: the string stored under key. */
  function GetString(o: JsonObject, key: string): Option<string> {
    if key in o && o[key].JString? then Some(o[key].s) else None
  }

  /** JSONObject.getInt: the integer stored under key. */
  function GetInt(o: JsonObject, key: string): Option<int> {
    if key in o && o[key].JInt? then Some(o[key].i) else None
  }

  /** JSONObject.getJSONObject: the object stored under key. */
  function GetObject(o: JsonObject, key: string): Option<JsonObject> {
    if key in o && o[key].JObject? then Some(o[key].fields) else None
  }

  /** JsonUtils.getJsonArrayFromJsonObject: the array under key, or null when missing or not an array. */
  function GetArray(o: JsonObject, key: string): Option<seq<JsonValue>> {
    if key in o && o[key].JArray? then Some(o[key].elems) else None
  }

  /** JsonUtils.getIntegerFromJsonArray: the integer at index j, or null when it is not one. */
  function IntegerAt(a: seq<JsonValue>, j: nat): Option<int>
    requires j < |a|
  {
    if a[j].JInt? then Some(a[j].i) else None
  }
}
