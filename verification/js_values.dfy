/**
 * The loosely typed values that reach the modelled code from outside: request
 * payloads, Firestore documents and entries read back from browser storage.
 * Only the shapes the code inspects are kept; numbers are reals, so `NaN` and
 * the infinities have no counterpart.
 */
module JsValues {

  datatype JsValue =
    | Undefined
    | Null
    | Bool(b: bool)
    | Num(n: real)
    | Str(s: string)
    | Arr(items: seq<JsValue>)
    | Obj(fields: map<string, JsValue>)

  /** JavaScript truthiness, as used by `!v`, `v || w` and `if (v)`. */
  predicate Truthy(v: JsValue) {
    match v
    case Undefined => false
    case Null => false
    case Bool(b) => b
    case Num(n) => n != 0.0
    case Str(s) => s != ""
    case _ => true
  }

  /** `typeof v === 'object' && v !== null` */
  predicate IsObject(v: JsValue) {
    v.Arr? || v.Obj?
  }

  /** The optional property read `v?.key`: `undefined` for a missing key and for a non-object. */
  function Get(v: JsValue, key: string): JsValue {
    if v.Obj? && key in v.fields then v.fields[key] else Undefined
  }

  /** `v ?? fallback` */
  function Coalesce(v: JsValue, fallback: JsValue): JsValue {
    if v.Undefined? || v.Null? then fallback else v
  }

  /** `Number.isInteger(v)` */
  predicate IsIntegral(v: JsValue) {
    v.Num? && v.n == v.n.Floor as real
  }
}
