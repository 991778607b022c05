/**
 * The JavaScript coercions the route handlers apply to request input:
 * `Number(v)` and `String(v ?? "")`. How a string spells a number, and how a
 * number is written out, are parameters (`Coercion`); everything the
 * handlers rely on beyond that is written out here.
 */
module Js {
  import opened Wrappers

  /** A JavaScript number, as far as `Number.isFinite` can tell. */
  datatype Num = Finite(value: real) | NonFinite

  /** A JSON value in a request body; `Undefined` is an absent property. */
  datatype Value = Undefined | Null | Bool(b: bool) | Number(n: Num) | Str(s: string)

  /** `parse` is `Number(s)` on strings, `show` is `String(n)` on numbers. */
  datatype Coercion = Coercion(parse: string -> Num, show: Num -> string)

  /** `Number(v)`: `undefined` is NaN, `null` is 0, booleans are 0 and 1. */
  function ToNumber(v: Value, c: Coercion): Num {
    match v
    case Undefined => NonFinite
    case Null => Finite(0.0)
    case Bool(b) => Finite(if b then 1.0 else 0.0)
    case Number(n) => n
    case Str(s) => c.parse(s)
  }

  /** `String(v ?? "")`. */
  function ToText(v: Value, c: Coercion): string {
    match v
    case Undefined => ""
    case Null => ""
    case Bool(b) => if b then "true" else "false"
    case Number(n) => c.show(n)
    case Str(s) => s
  }

  /** `Number(p)` for a query parameter `p` that `URLSearchParams.get` gave (`null` when absent). */
  function ParamToNumber(p: Option<string>, c: Coercion): Num {
    match p
    case None => Finite(0.0)
    case Some(s) => c.parse(s)
  }
}
