/** Values of the JavaScript runtime that the modelled code inspects:
    optional values (a property that may be `undefined`), the shape of a
    parsed JSON document or object literal, and the truthiness tests the
    code applies to them. */
module JsValues {
  import opened Chars

  /** A value that may be absent (`undefined` / `null` in the source). */
  datatype Option<+T> = None | Some(value: T)

  /** A JavaScript value as far as the modelled code looks at it: object
      literals and parsed JSON bodies are `Obj` maps from property name to
      value. Numbers are only ever integral here. */
  datatype JsValue =
    | Undefined
    | Null
    | Bool(b: bool)
    | Num(n: int)
    | Str(s: string)
    | Obj(fields: map<string, JsValue>)

  /** ECMAScript ToBoolean on a string: only the empty string is falsy. */
  predicate TruthyString(s: Option<string>)
  {
    s.Some? && s.value != ""
  }

  /** ECMAScript ToBoolean: `undefined`, `null`, `false`, `0` and `""` are
      falsy, everything else (every object) is truthy. */
  predicate Truthy(v: JsValue)
  {
    match v
    case Undefined => false
    case Null => false
    case Bool(b) => b
    case Num(n) => n != 0
    case Str(s) => s != ""
    case Obj(_) => true
  }

  /** The properties a string spreads into: one per character, keyed by
      its index written in decimal. */
  function IndexedChars(s: string): (props: map<string, JsValue>)
    ensures forall k :: 0 <= k < |s| ==> NatToDecimal(k) in props && props[NatToDecimal(k)] == Str([s[k]])
    ensures forall key :: key in props ==> exists k :: 0 <= k < |s| && key == NatToDecimal(k)
  {
    NatToDecimalInjectiveAll();
    map k | 0 <= k < |s| :: NatToDecimal(k) := Str([s[k]])
  }

  /** The own enumerable properties that object spread (`{...v}`) and
      `Object.assign(target, v)` copy from `v`: an object's fields, one
      property per character of a string, and nothing from `undefined`,
      `null`, booleans and numbers. */
  function OwnProperties(v: JsValue): (props: map<string, JsValue>)
    ensures v.Obj? ==> props == v.fields
    ensures v.Str? ==> props == IndexedChars(v.s)
    ensures !v.Obj? && !v.Str? ==> props == map[]
  {
    match v
    case Obj(fields) => fields
    case Str(s) => IndexedChars(s)
    case _ => map[]
  }
}
