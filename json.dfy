/**
 * JSON values as Python's `json.loads` returns them, Python truthiness, and the
 * runtime primitives the core calls but that are not modelled here.
 */
module JsonModel {
  import opened Wrappers

  /** A decoded JSON document: `None`, `bool`, a number, `str`, `list` or `dict`.
      Numbers stand for Python floats and ints without their rounding. A `dict`
      keeps its keys in insertion order, as Python's does. Unlike a Python
      `dict`, `JObj` admits a key twice; `json.loads` would keep the last
      duplicate where `Lookup` finds the first. No member here builds an
      object with a repeated key, and `loads` is a parameter. */
  datatype Json =
    | JNull
    | JBool(b: bool)
    | JNum(n: real)
    | JStr(s: string)
    | JArr(items: seq<Json>)
    | JObj(fields: seq<(string, Json)>)

  /** Python's `bool(x)` for a decoded JSON value. */
  predicate Truthy(j: Json) {
    match j
    case JNull => false
    case JBool(b) => b
    case JNum(n) => n != 0.0
    case JStr(s) => s != ""
    case JArr(items) => items != []
    case JObj(fields) => fields != []
  }

  /** The value bound to `key` in an ordered dict, `None` when the key is absent;
      the first binding where the key repeats. */
  function Lookup<V>(fields: seq<(string, V)>, key: string): (r: Option<V>)
    ensures r.None? <==> forall k :: 0 <= k < |fields| ==> fields[k].0 != key
    ensures r.Some? ==> (key, r.value) in fields
  {
    if fields == [] then None
    else if fields[0].0 == key then Some(fields[0].1)
    else Lookup(fields[1..], key)
  }

  /** `d[key]`: `None` where Python raises, because `d` is not a dict
      (`TypeError`, `AttributeError`) or lacks the key (`KeyError`). */
  function Index(d: Json, key: string): (r: Option<Json>)
    ensures r.Some? ==> d.JObj? && (key, r.value) in d.fields
    ensures d.JObj? && r.None? ==> forall k :: 0 <= k < |d.fields| ==> d.fields[k].0 != key
  {
    if d.JObj? then Lookup(d.fields, key) else None
  }

  /** `d.get(key, default)` on a dict. */
  function Get<V>(fields: seq<(string, V)>, key: string, default: V): (r: V)
    ensures (forall k :: 0 <= k < |fields| ==> fields[k].0 != key) ==> r == default
    ensures r == default || (key, r) in fields
  {
    Lookup(fields, key).GetOr(default)
  }

  /**
   * The Python runtime primitives the core calls, kept uninterpreted:
   *  - `dumps`: `json.dumps(x, indent=2)`;
   *  - `format`: how an f-string renders a value (`str(x)`);
   *  - `loads`: `json.loads(s)`, `None` where it raises;
   *  - `parseFloat`: `float(s)` on a token, `None` where it raises `ValueError`.
   */
  datatype Host = Host(
    dumps: Json -> string,
    format: Json -> string,
    loads: string -> Option<Json>,
    parseFloat: string -> Option<real>)

  /** `json.dumps` writes a dict as an object, which starts with `{`. */
  ghost predicate DumpsObjectsBraced(h: Host) {
    forall fields: seq<(string, Json)> ::
      h.dumps(JObj(fields)) != [] && h.dumps(JObj(fields))[0] == '{'
  }
}
