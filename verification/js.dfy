/**
 * The JavaScript view of a field of a parsed JSON request body (or of a query
 * string parameter), restricted to the shapes the handlers tell apart.
 */
module Js {

  /** A field that is absent (`undefined`), JSON `null`, or a string. */
  datatype Field = Undefined | Null | Text(s: string)

  /** JavaScript truthiness: of these shapes only a non-empty string is truthy. */
  predicate Truthy(f: Field) {
    f.Text? && f.s != ""
  }

  /** `f !== undefined`: `null` and `""` are both defined. */
  predicate Defined(f: Field) {
    !f.Undefined?
  }
}
