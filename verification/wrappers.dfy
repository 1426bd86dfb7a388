/** The two sum types the Rust code returns everywhere: `Option<T>` for a value that may
    be absent, and `anyhow::Result<T>` for a step that may fail. */
module Wrappers {

  datatype Option<+T> = None | Some(value: T)

  /** Result works with `:-`, which stands in for Rust's `?` operator. An `Err`
      stops the computation and is passed on unchanged. */
  datatype Result<+R, +E> = Ok(value: R) | Err(error: E) {
    predicate IsFailure() {
      Err?
    }

    /** The same error, retyped for the caller's success type. */
    function PropagateFailure<U>(): Result<U, E>
      requires Err?
    {
      Err(error)
    }

    function Extract(): R
      requires Ok?
    {
      value
    }
  }
}
