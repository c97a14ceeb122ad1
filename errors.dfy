/** The two kinds of exception the verifier throws, and the outcome of a check. */
module Errors {

  /** `WebhookError` is the library's own subclass of `Error`, thrown by the
      replay guard; every other failure is a plain `Error` (or, for a
      runtime fault such as reading a property of `undefined`, a built-in
      subclass of it, also modelled as `PlainError`). Only the kind and the
      message are kept; the captured stack trace is not. */
  datatype Err = WebhookError(msg: string) | PlainError(msg: string)

  /** A check returns normally (`Pass`) or throws. */
  datatype Outcome = Pass | Fail(err: Err)
}
