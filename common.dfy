/** Envelopes and JavaScript value conventions shared by every module. */
module Common {

  /** A value that may be `null` or `undefined` in the source. */
  datatype Option<+T> = None | Some(value: T)

  /** The `{ success, ... }` / `{ success: false, error }` envelope every public operation returns. */
  datatype Result<+T> = Ok(value: T) | Err(error: string)

  /** What a failed backend call reports: its `message` and the text the error object
      turns into when it is concatenated with a string. */
  datatype BackendError = BackendError(message: string, text: string)

  /** The answer of one backend call (a row insert, an upload, a delete, a fetch). */
  datatype Outcome = Success | Failure(err: BackendError)

  /** JavaScript truthiness of an optional string: `null`, `undefined` and `''` are falsy. */
  predicate Truthy(o: Option<string>) {
    o.Some? && o.value != ""
  }

  /** `s || fallback` for a string `s`. */
  function OrElse(s: string, fallback: string): (r: string)
    ensures r == s || r == fallback
    ensures r != "" <== fallback != ""
  {
    if s != "" then s else fallback
  }

  /** `err.message || err`: the message, or the error object itself as text. */
  function Described(e: BackendError): string {
    OrElse(e.message, e.text)
  }
}
