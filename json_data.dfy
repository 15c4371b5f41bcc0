/**
 * The value `json.loads` returns, and the few Python operations the content
 * extractor applies to it: truthiness, `value[key]`, `dict.get(key)` and
 * what a `for` loop over the value yields.
 */
module JsonData {
  import opened Wrappers

  /** A parsed JSON value. An object keeps its members in document order. */
  datatype Json =
    | JNull
    | JBool(b: bool)
    | JNumber(n: real)
    | JString(s: string)
    | JArray(items: seq<Json>)
    | JObject(members: seq<(string, Json)>)

  /** Python truthiness of the decoded value: None, False, zero and empty
      strings, lists and dicts are false. */
  predicate Truthy(j: Json) {
    match j
    case JNull => false
    case JBool(b) => b
    case JNumber(n) => n != 0.0
    case JString(s) => s != ""
    case JArray(items) => items != []
    case JObject(members) => members != []
  }

  /** The value a dict built from `members` holds for `key`: `json.loads`
      keeps the last binding of a repeated key. */
  function Lookup(members: seq<(string, Json)>, key: string): (r: Option<Json>)
    ensures r.None? <==> forall i :: 0 <= i < |members| ==> members[i].0 != key
    ensures r.Some? ==> exists i :: 0 <= i < |members| && members[i] == (key, r.value)
                          && forall j :: i < j < |members| ==> members[j].0 != key
  {
    if members == [] then None
    else
      var last := members[|members| - 1];
      if last.0 == key then Some(last.1)
      else
        var init := members[..|members| - 1];
        var r := Lookup(init, key);
        assert forall i :: 0 <= i < |init| ==> init[i] == members[i];
        if r.Some? then
          LaterBindingOther(members, key, r.value);
          r
        else r
  }

  /** A binding that is the last one for its key before a final member with
      another key stays the last one for that key. */
  lemma LaterBindingOther(members: seq<(string, Json)>, key: string, v: Json)
    requires members != [] && members[|members| - 1].0 != key
    requires exists i :: 0 <= i < |members| - 1 && members[i] == (key, v)
               && forall j :: i < j < |members| - 1 ==> members[j].0 != key
    ensures exists i :: 0 <= i < |members| && members[i] == (key, v)
              && forall j :: i < j < |members| ==> members[j].0 != key
  {
    var i :| 0 <= i < |members| - 1 && members[i] == (key, v)
             && forall j :: i < j < |members| - 1 ==> members[j].0 != key;
    assert forall j :: i < j < |members| ==> members[j].0 != key;
  }

  /** `value[key]` with a string key: None when it raises, which is a
      KeyError for a dict without the key and a TypeError for any other
      kind of value. */
  function Subscript(value: Json, key: string): Option<Json> {
    match value
    case JObject(members) => Lookup(members, key)
    case _ => None
  }

  /** What `for x in value` yields, or None when the value is not iterable
      (a TypeError): the items of a list, the keys of a dict and the
      one-character strings of a string. */
  function Iterate(value: Json): Option<seq<Json>> {
    match value
    case JArray(items) => Some(items)
    case JObject(members) => Some(seq(|members|, i requires 0 <= i < |members| => JString(members[i].0)))
    case JString(s) => Some(seq(|s|, i requires 0 <= i < |s| => JString([s[i]])))
    case _ => None
  }
}
