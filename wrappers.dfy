/** Option and Result, used where the game's code returns an optional value
    (`enum_iterator::Sequence::next`) or panics (`expect`, `u32` underflow). */
module Wrappers {

  datatype Option<+T> = None | Some(value: T) {
    /** `Option::unwrap_or(default)` */
    function GetOr(default: T): T {
      match this
      case Some(v) => v
      case None => default
    }
  }

  datatype Result<+R, +E> = Ok(value: R) | Err(error: E)
}
