/** JavaScript truthiness for the two kinds of request field the handlers test
    with `!x`: strings and numbers. An absent field is `undefined`, which is
    falsy; so is the empty string, and so is the number `0`. */
module Truthiness {
  import opened Wrappers

  /** `!!x` for an optional string field. */
  predicate Truthy(x: Option<string>) {
    x.Some? && x.value != ""
  }

  /** `!!x` for an optional number field (NaN is not representable here). */
  predicate TruthyNumber(x: Option<int>) {
    x.Some? && x.value != 0
  }

  /** `x || fallback` for an optional string field. */
  function OrElse(x: Option<string>, fallback: string): string
  {
    if Truthy(x) then x.value else fallback
  }
}
