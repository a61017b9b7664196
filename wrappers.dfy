/** Helper datatypes shared by every module of the model: an `Option` for `undefined` and `null`. */
module Wrappers {

  /** `undefined`/`null` in the source is `None`; a present value is `Some`. */
  datatype Option<+T> = None | Some(value: T) {
    function GetOr(default: T): T {
      match this
      case Some(v) => v
      case None => default
    }
  }
}
