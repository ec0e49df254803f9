/** Value types shared by the property store and the boundary bridge. */
module Common {

  /** Rust's `Option`: a value that may be absent. */
  datatype Option<T> = None | Some(value: T)

  /** What a call produces: it returns `value`, or it panics. A panic is the
      fatal channel reserved for host contract violations; inside an
      `extern "C"` entry point it ends the process, so nothing after it runs. */
  datatype Outcome<T> = Done(value: T) | Panicked
}
