/** JSON values as the configuration code sees them, and the key and kind
    checks of src/libboxten/jsontest.cpp. Numbers are kept abstract: only a
    value's kind matters here. */
module JsonTest {
  import opened Wrappers

  datatype Json =
    | JNull
    | JBool(b: bool)
    | JNumber(n: int)
    | JString(str: string)
    | JArray(items: seq<Json>)
    | JObject(members: seq<Member>)

  datatype Member = Member(key: string, value: Json)

  /** The position of the first member named `key`. */
  function FindKey(ms: seq<Member>, key: string): (r: Option<nat>)
    ensures r.Some? ==> r.value < |ms| && ms[r.value].key == key
    ensures r.Some? ==> forall j :: 0 <= j < r.value ==> ms[j].key != key
    ensures r.None? <==> forall j :: 0 <= j < |ms| ==> ms[j].key != key
  {
    if |ms| == 0 then None
    else if ms[0].key == key then Some(0)
    else
      var t := FindKey(ms[1..], key);
      if t.None? then None else Some(t.value + 1)
  }

  /** `contains(key)` and `cfg[key]` together: the value under `key`, absent
      for a missing key and for anything that is not an object. */
  function Lookup(j: Json, key: string): (r: Option<Json>)
    ensures r.Some? <==> j.JObject? && exists i :: 0 <= i < |j.members| && j.members[i].key == key
    ensures r.Some? ==> exists i :: 0 <= i < |j.members| && j.members[i] == Member(key, r.value)
  {
    if !j.JObject? then None
    else
      var i := FindKey(j.members, key);
      if i.None? then None else Some(j.members[i.value].value)
  }

  /** `JSON_TYPE`. */
  datatype JsonType = Object | String | Array

  /** `proc_type_check`: the kind test. */
  function ProcTypeCheck(t: JsonType, j: Json): (r: bool)
    ensures r <==> (t == Object && j.JObject?) || (t == String && j.JString?) || (t == Array && j.JArray?)
  {
    match t
    case Object => j.JObject?
    case String => j.JString?
    case Array => j.JArray?
  }

  /** `type_check`: the key is present and its value has kind `t`. */
  function TypeCheck(key: string, t: JsonType, cfg: Json): (r: bool)
    ensures Lookup(cfg, key).None? ==> !r
    ensures Lookup(cfg, key).Some? ==> (r <==> ProcTypeCheck(t, Lookup(cfg, key).value))
  {
    var v := Lookup(cfg, key);
    if v.None? then false else ProcTypeCheck(t, v.value)
  }

  /** The key holds an array and every element has kind `t`. */
  predicate ArrayOf(key: string, t: JsonType, cfg: Json) {
    TypeCheck(key, Array, cfg)
    && forall i :: 0 <= i < |Lookup(cfg, key).value.items| ==> ProcTypeCheck(t, Lookup(cfg, key).value.items[i])
  }

  /** `array_type_check`: the key holds an array and every element has kind
      `t`; the loop stops at the first element that does not. */
  method ArrayTypeCheck(key: string, t: JsonType, cfg: Json) returns (r: bool)
    ensures r <==> ArrayOf(key, t, cfg)
  {
    var isArray := TypeCheck(key, Array, cfg);
    if !isArray {
      return false;
    }
    var items := Lookup(cfg, key).value.items;
    var i := 0;
    while i < |items|
      invariant 0 <= i <= |items|
      invariant forall k :: 0 <= k < i ==> ProcTypeCheck(t, items[k])
    {
      if !ProcTypeCheck(t, items[i]) {
        return false;
      }
      i := i + 1;
    }
    return true;
  }

  /** A missing key fails every check, a value that is not an array fails
      the array check, and an empty array passes it for any element kind. */
  lemma ArrayTypeCheckEdges(key: string, t: JsonType, cfg: Json)
    ensures Lookup(cfg, key).None? ==> !TypeCheck(key, t, cfg) && !ArrayOf(key, t, cfg)
    ensures Lookup(cfg, key).Some? && !Lookup(cfg, key).value.JArray? ==> !ArrayOf(key, t, cfg)
    ensures Lookup(cfg, key) == Some(JArray([])) ==> ArrayOf(key, t, cfg)
  {
  }
}
