/** The optional value the launcher's Rust code works with: `Option`, and
    `Result` values whose error is discarded. */
module Options {

  datatype Option<+T> = None | Some(value: T) {

    /** Rust's `unwrap_or`: the held value, or the fallback on `None`. */
    function UnwrapOr(fallback: T): (r: T)
      ensures Some? ==> r == value
      ensures None? ==> r == fallback
    {
      if Some? then value else fallback
    }
  }
}
