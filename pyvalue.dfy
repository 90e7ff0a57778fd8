/**
 * The values `request.json()` and `json.loads` produce, and the Python operations
 * `receive_message` applies to them. An operation that raises (`KeyError`, `IndexError`,
 * `TypeError`, `AttributeError`) yields `None`: the handler's catch-all turns every one of
 * them into the same outcome, so which exception it was does not matter.
 */
module PyValue {
  import opened Wrappers
  import opened PyStr
  import PyInt

  /** A decoded JSON document: `None`, `bool`, `int`, `str`, `list` or `dict` with `str` keys. */
  datatype JsonValue =
    | JNull
    | JBool(b: bool)
    | JNum(n: int)
    | JStr(s: string)
    | JArr(items: seq<JsonValue>)
    | JObj(fields: map<string, JsonValue>)

  /** `v.get(key, default)`: only a `dict` has `get`. */
  function Get(v: JsonValue, key: string, default: JsonValue): (r: Option<JsonValue>)
  {
    match v
    case JObj(fields) => Some(if key in fields then fields[key] else default)
    case _ => None
  }

  /** `v[0]`: the first item of a non-empty `list`, or the first character of a non-empty
      `str`; an empty one raises `IndexError`, a `dict` `KeyError`, the rest `TypeError`. */
  function First(v: JsonValue): (r: Option<JsonValue>)
  {
    match v
    case JArr(items) => if |items| > 0 then Some(items[0]) else None
    case JStr(s) => if |s| > 0 then Some(JStr([s[0]])) else None
    case _ => None
  }

  /** `v[key]` with a `str` key: only a `dict` holding the key answers. */
  function Subscript(v: JsonValue, key: string): (r: Option<JsonValue>)
  {
    match v
    case JObj(fields) => if key in fields then Some(fields[key]) else None
    case _ => None
  }

  /** `key in v` for a `str` key: a key of a `dict`, an element of a `list` (only an equal
      `str` compares equal), a substring of a `str`; `None`, `bool` and `int` raise. */
  function In(key: string, v: JsonValue): (r: Option<bool>)
  {
    match v
    case JObj(fields) => Some(key in fields)
    case JArr(items) => Some(JStr(key) in items)
    case JStr(s) => Some(Contains(s, key))
    case _ => None
  }

  /** Python truthiness: `None`, `False`, `0` and empty containers are false. */
  predicate Truthy(v: JsonValue)
  {
    match v
    case JNull => false
    case JBool(b) => b
    case JNum(n) => n != 0
    case JStr(s) => s != []
    case JArr(items) => items != []
    case JObj(fields) => fields != map[]
  }

  /** What an f-string replacement field `{v}` renders: `str(v)`. Lists and dicts are
      rendered by a fixed placeholder, since Python's `repr` of containers is not modelled. */
  function Str(v: JsonValue): string
  {
    match v
    case JNull => "None"
    case JBool(b) => if b then "True" else "False"
    case JNum(n) => PyInt.DecimalString(n)
    case JStr(s) => s
    case JArr(_) => "[...]"
    case JObj(_) => "{...}"
  }

  /** On a dict, `key in v` holds exactly when `v[key]` does not raise: once the handler has
      seen `'messages' in value`, the lookup `value['messages']` that follows succeeds. */
  lemma InDictMeansSubscript(v: JsonValue, key: string)
    requires v.JObj?
    ensures In(key, v) == Some(Subscript(v, key).Some?)
  {
  }

  /** `.get` never raises on a dict. It returns what `v[key]` returns where that succeeds,
      and the default where `key in v` is false. */
  lemma GetAgreesWithSubscript(v: JsonValue, key: string, default: JsonValue)
    requires v.JObj?
    ensures Get(v, key, default).Some?
    ensures Subscript(v, key).Some? ==> Get(v, key, default) == Subscript(v, key)
    ensures In(key, v) == Some(false) ==> Get(v, key, default) == Some(default)
  {
  }

  /** `v[0]` succeeds exactly on a truthy list or string. The item it returns is an element
      of the list, or a one-character substring of the string. */
  lemma FirstOfTruthy(v: JsonValue)
    ensures First(v).Some? <==> (v.JArr? || v.JStr?) && Truthy(v)
    ensures v.JArr? && First(v).Some? ==> First(v).value in v.items
    ensures v.JStr? && First(v).Some? ==> First(v).value.JStr? && In(First(v).value.s, v) == Some(true)
  {
    if v.JStr? && |v.s| > 0 {
      assert OccursAt(v.s, [v.s[0]], 0);
    }
  }

  /** `in` and `[key]` agree only on dicts: whatever `[key]` finds, `in` finds too, but on
      a list or a string `key in v` answers while `v[key]` raises `TypeError`. */
  lemma SubscriptNeedsDict(key: string, v: JsonValue)
    ensures Subscript(v, key).Some? ==> In(key, v) == Some(true)
    ensures v.JArr? || v.JStr? ==> In(key, v).Some? && Subscript(v, key).None?
  {
  }
}
