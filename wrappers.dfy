/** Rust's `Option` and `Result` with the combinators the address resolution chain
    is written in (`map`, `and_then`, `or_else`, `map_err`, `ok`, `expect`).
    Closures become Dafny arrows; `or_else` takes a thunk, as in Rust. */
module Wrappers {

  datatype Option<T> = None | Some(value: T) {

    /** `Option::map` */
    function Map<U>(f: T -> U): Option<U>
    {
      match this
      case Some(v) => Some(f(v))
      case None => None
    }

    /** `Option::and_then` */
    function AndThen<U>(f: T -> Option<U>): Option<U>
    {
      match this
      case Some(v) => f(v)
      case None => None
    }

    /** `Option::or_else`: the thunk is only looked at when this is `None`. */
    function OrElse(f: () -> Option<T>): Option<T>
    {
      match this
      case Some(_) => this
      case None => f()
    }

    /** `Option::expect`: panics on `None`, so callers must show `Some?`. */
    function Expect(msg: string): T
      requires Some?
    {
      value
    }
  }

  datatype Result<T, E> = Ok(value: T) | Err(error: E) {

    /** `Result::and_then` */
    function AndThen<U>(f: T -> Result<U, E>): Result<U, E>
    {
      match this
      case Ok(v) => f(v)
      case Err(e) => Err(e)
    }

    /** `Result::map_err` */
    function MapErr<F>(f: E -> F): Result<T, F>
    {
      match this
      case Ok(v) => Ok(v)
      case Err(e) => Err(f(e))
    }

    /** `Result::ok`: keeps the value and drops the error. */
    function ToOption(): Option<T>
    {
      match this
      case Ok(v) => Some(v)
      case Err(_) => None
    }
  }

  /** Rust's unit type `()`, the error type left by `map_err(|err| warn!(..))`. */
  datatype Unit = Unit
}
