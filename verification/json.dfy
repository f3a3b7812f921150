/** The values a realtime-database read hands to Python: `None`, booleans,
    numbers, strings, lists and dicts, with Python's truthiness and `dict.get`. */
module Json {

  /** A decoded JSON value. A dict is a sequence of (key, value) bindings in
      iteration order; a Python dict never binds a key twice. Numbers are kept
      as opaque reals: no arithmetic is ever done on them. */
  datatype JsonValue =
    | JNull
    | JBool(b: bool)
    | JNum(n: real)
    | JStr(s: string)
    | JList(items: seq<JsonValue>)
    | JObj(fields: seq<(string, JsonValue)>)

  /** Python's `bool(v)`: `None`, `False`, zero, and empty strings, lists and dicts are falsy. */
  predicate Truthy(v: JsonValue): (r: bool)
    ensures !r <==> v in {JNull, JBool(false), JNum(0.0), JStr(""), JList([]), JObj([])}
  {
    match v
    case JNull => false
    case JBool(b) => b
    case JNum(n) => n != 0.0
    case JStr(s) => |s| > 0
    case JList(xs) => |xs| > 0
    case JObj(kvs) => |kvs| > 0
  }

  /** Python's `key in d` for a dict. */
  predicate HasKey(fields: seq<(string, JsonValue)>, key: string) {
    exists i :: 0 <= i < |fields| && fields[i].0 == key
  }

  /** `fields[i]` is the binding of `key` that a lookup finds: the first one. */
  predicate FirstBinding(fields: seq<(string, JsonValue)>, key: string, i: int) {
    0 <= i < |fields| && fields[i].0 == key && forall j :: 0 <= j < i ==> fields[j].0 != key
  }

  /** Python's `d.get(key, default)`: the value bound to `key`, else `default`. */
  function Get(fields: seq<(string, JsonValue)>, key: string, default: JsonValue): (r: JsonValue)
    ensures !HasKey(fields, key) ==> r == default
    ensures forall i :: FirstBinding(fields, key, i) ==> r == fields[i].1
  {
    if |fields| == 0 then default
    else if fields[0].0 == key then fields[0].1
    else
      assert forall i :: 1 <= i < |fields| ==> fields[i] == fields[1..][i - 1];
      Get(fields[1..], key, default)
  }

  /** Python's `d.values()` (equivalently the `entry` of `for key, entry in d.items()`), in iteration order. */
  function Values(fields: seq<(string, JsonValue)>): (vs: seq<JsonValue>)
    ensures |vs| == |fields|
    ensures forall i :: 0 <= i < |fields| ==> vs[i] == fields[i].1
  {
    seq(|fields|, i requires 0 <= i < |fields| => fields[i].1)
  }
}
