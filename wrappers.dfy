/** Small failure-carrying datatypes shared by the rest of the model. */
module Wrappers {

  /** A value that may be absent: a C `nullptr`, a missing map entry, a failed parse. */
  datatype Option<+T> = None | Some(value: T) {
    function GetOr(default: T): T {
      match this
      case Some(v) => v
      case None => default
    }
  }

  /**
   * What a reader that assigns through a reference reports: its `bool`
   * result and the value the target holds afterwards.
   */
  datatype Outcome<T> = Outcome(ok: bool, value: T)
}
