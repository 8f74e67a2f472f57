/** Option and Result, the two failure-carrying shapes the model uses for
    JavaScript's `null` returns and thrown errors, and the errors that can be
    thrown. */
module Wrappers {

  datatype Option<+T> = None | Some(value: T) {
    function GetOr(default: T): T {
      match this
      case Some(v) => v
      case None => default
    }
  }

  datatype Result<+T, +E> = Ok(value: T) | Err(error: E)

  /** What a JavaScript `throw` can carry here. Every alternative is an
      `Error` instance: `new Error(message)`, the `SyntaxError` of
      `JSON.parse`, the `TypeError` of calling a method on the wrong kind of
      value, and a Firestore `FirebaseError` with its status code. */
  datatype Exception =
    | Error(message: string)
    | SyntaxError
    | TypeError
    | FirestoreError(code: string)

  /** JavaScript truthiness of a possibly-null string: `null` and `""` are falsy. */
  predicate Truthy(s: Option<string>) {
    s.Some? && s.value != ""
  }

  /** `m.get(k)` for a key/value store whose missing keys read as `null`. */
  function Get<K, V>(m: map<K, V>, k: K): Option<V> {
    if k in m then Some(m[k]) else None
  }
}
