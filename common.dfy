/** The wrappers of the model: `Option` for a JavaScript value that may be
    `undefined`/`null`, or for a call that may throw; `Result` for a call
    into the media service or the browser that may fail with a message. */
module Common {

  datatype Option<+T> = None | Some(value: T) {

    predicate IsFailure() {
      None?
    }

    function PropagateFailure<U>(): Option<U>
      requires None?
    {
      None
    }

    function Extract(): T
      requires Some?
    {
      value
    }
  }

  datatype Result<+T> = Ok(value: T) | Err(message: string) {

    predicate IsFailure() {
      Err?
    }

    function PropagateFailure<U>(): Result<U>
      requires Err?
    {
      Err(message)
    }

    function Extract(): T
      requires Ok?
    {
      value
    }
  }

  /** `x || fallback` for a value that is either missing or a string:
      both a missing value and the empty string are falsy. */
  function StringOr(x: Option<string>, fallback: string): (r: string)
    ensures r == fallback || (x.Some? && r == x.value && r != [])
    ensures x.Some? && x.value != [] ==> r == x.value
  {
    if x.Some? && x.value != [] then x.value else fallback
  }
}
