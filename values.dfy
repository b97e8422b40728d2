/** The Python values that the decoded feeds, the scraper output and the result dicts are made of. */
module Values {
  import opened Wrappers
  import Text

  datatype Value =
    | VNone
    | VBool(b: bool)
    | VInt(i: int)
    | VFloat(x: real)
    | VStr(s: string)
    | VList(items: seq<Value>)
    | VDict(entries: map<string, Value>)

  /** Python's truth value of v. */
  predicate Truthy(v: Value) {
    match v
    case VNone => false
    case VBool(b) => b
    case VInt(i) => i != 0
    case VFloat(x) => x != 0.0
    case VStr(s) => s != []
    case VList(items) => items != []
    case VDict(entries) => entries != map[]
  }

  /** v.get(key): the value stored under key, None when absent; AttributeError when v is not a dict. */
  function Get(v: Value, key: string): Result<Value> {
    if !v.VDict? then Raised("AttributeError")
    else if key in v.entries then Ok(v.entries[key])
    else Ok(VNone)
  }

  /** v.get(key) if isinstance(v, dict) else {}: one step of the guarded descent into a feed. */
  function Child(v: Value, key: string): Value {
    if v.VDict? then (if key in v.entries then v.entries[key] else VNone) else VDict(map[])
  }

  /** The number v holds when isinstance(v, (int, float)); a bool is an int in Python. */
  function Numeric(v: Value): (r: Option<real>)
    ensures r.Some? <==> (v.VInt? || v.VFloat? || v.VBool?)
  {
    match v
    case VInt(i) => Some(i as real)
    case VFloat(x) => Some(x)
    case VBool(b) => Some(if b then 1.0 else 0.0)
    case _ => None
  }

  /** Python's key in v: a dict key, a substring, a list element; TypeError for the rest. */
  function In(key: string, v: Value): (r: Result<bool>)
    ensures v.VDict? ==> r == Ok(key in v.entries)
    ensures v.VList? ==> r == Ok(VStr(key) in v.items)
    ensures r.Raised? <==> !(v.VDict? || v.VList? || v.VStr?)
  {
    match v
    case VDict(entries) => Ok(key in entries)
    case VList(items) => Ok(VStr(key) in items)
    case VStr(s) => Ok(Text.Contains(s, key))
    case _ => Raised("TypeError")
  }
}
