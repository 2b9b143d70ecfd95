/**
  The values a Go `error` takes in this library: one of the typed errors,
  the `clierr` invalid-input error, or a plain error made by `errors.New` or
  `fmt.Errorf` whose text is all there is to it.
 */
module Errors {
  import ErrType
  import CliErr

  datatype Error =
    | Typed(typed: ErrType.TypedError)
    | CliInput(input: CliErr.InvalidInput)
    | Plain(text: string)
  {
    /** What `%s` prints for the error. */
    function Text(): string {
      match this
      case Typed(e) => e.Error()
      case CliInput(e) => e.Error()
      case Plain(t) => t
    }

    /** True iff this is the validator's `*errtype.InvalidInput`. */
    predicate IsTypedInvalidInput() {
      Typed? && typed.InvalidInput?
    }
  }
}
