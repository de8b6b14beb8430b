/** The host language's values as seen at the Optional's boundary: a value of
    type T, or one of JavaScript's two "no value" markers. */
module JsValues {

  /** A JavaScript value that is either `null`, `undefined`, or an ordinary
      value of type T (which itself is never `null` or `undefined`). Falsy
      values such as `0`, `""` and `false` are ordinary values. */
  datatype JsVal<T> = Null | Undefined | Val(v: T)

  /** The strict test `x !== null && x !== undefined`; no truthiness is involved. */
  predicate IsDefined<T>(x: JsVal<T>) {
    !x.Null? && !x.Undefined?
  }

  /** What a nullable value looks like after it has been wrapped and read back:
      `undefined` collapses to `null`, everything else is kept. */
  function Normalise<T>(x: JsVal<T>): JsVal<T> {
    if x.Undefined? then Null else x
  }
}
