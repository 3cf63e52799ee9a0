/** The JavaScript values the helpers and the storage layer inspect: what
    `chrome.storage` hands back and what a caller passes in.  Numbers are
    integers here (no `NaN`, no fractions), and an object is its own
    enumerable properties. */
module JsValues {

  datatype JsValue =
    | Undefined
    | Null
    | Bool(b: bool)
    | Num(n: int)
    | Str(s: string)
    | Arr(items: seq<JsValue>)
    | Obj(fields: map<string, JsValue>)

  /** JavaScript truthiness: `undefined`, `null`, `false`, `0` and `""`
      are falsy, every array and object is truthy. */
  predicate Truthy(v: JsValue) {
    match v
    case Undefined => false
    case Null => false
    case Bool(b) => b
    case Num(n) => n != 0
    case Str(s) => s != ""
    case Arr(_) => true
    case Obj(_) => true
  }

  /** `typeof v === 'object'`, which holds for `null` and arrays too. */
  predicate IsObjectType(v: JsValue) {
    v.Null? || v.Arr? || v.Obj?
  }

  /** `v.hasOwnProperty(name)` for the named properties of objects. */
  predicate HasOwn(v: JsValue, name: string) {
    v.Obj? && name in v.fields
  }

  /** `v[name]`: `undefined` when the property is missing. */
  function Get(v: JsValue, name: string): (r: JsValue)
    ensures !HasOwn(v, name) ==> r == Undefined
  {
    if HasOwn(v, name) then v.fields[name] else Undefined
  }
}
