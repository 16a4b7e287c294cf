/**
 * The JavaScript values that payloads carry, with the two tests the entity
 * validators are built from: truthiness (`!x`) and `typeof` / `instanceof`.
 */
module JsValues {

  /** A point in time as `Date.prototype.toISOString` renders it; that text is never empty. */
  type Instant = s: string | s != [] witness "1970-01-01T00:00:00.000Z"

  /**
   * A JavaScript value. Numbers are integers here (no fractions, no NaN);
   * `DateV` is a `Date` object, `Arr` an array and `Obj` a plain object.
   */
  datatype JsValue =
    | Undef
    | Null
    | Bool(b: bool)
    | Num(n: int)
    | Str(s: string)
    | DateV(t: Instant)
    | Arr(items: seq<JsValue>)
    | Obj(fields: map<string, JsValue>)

  /** A payload object; a key it does not hold reads as `undefined`. */
  type Payload = map<string, JsValue>

  /** JavaScript truthiness: `!v` is false exactly for these values. */
  predicate Truthy(v: JsValue)
  {
    match v
    case Undef => false
    case Null => false
    case Bool(b) => b
    case Num(n) => n != 0
    case Str(s) => s != []
    case _ => true
  }

  /** `typeof v === 'string'` */
  predicate IsString(v: JsValue) { v.Str? }

  /** `typeof v === 'boolean'` */
  predicate IsBoolean(v: JsValue) { v.Bool? }

  /** `typeof v === 'number'` */
  predicate IsNumber(v: JsValue) { v.Num? }

  /** `v instanceof Date` */
  predicate IsDate(v: JsValue) { v.DateV? }

  /** A value that passes both `!v` (it is present) and `typeof v === 'string'`. */
  predicate FilledString(v: JsValue)
  {
    v.Str? && v.s != []
  }

  /** Destructuring `const { key } = p`. */
  function Get(p: Payload, key: string): JsValue
  {
    if key in p then p[key] else Undef
  }

  /** Reading `v.key` from a value that is not null or undefined; primitives have none of the keys used here. */
  function Field(v: JsValue, key: string): JsValue
  {
    if v.Obj? then Get(v.fields, key) else Undef
  }

  /** The text of a value known to be a string. */
  function Text(v: JsValue): string
  {
    if v.Str? then v.s else ""
  }
}
