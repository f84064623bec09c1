/** A value that may be absent: the model of a nullable reference. */
module Wrappers {
  datatype Option<+T> = None | Some(value: T) {
    function GetOr(default: T): T {
      match this
      case Some(v) => v
      case None => default
    }
  }

  /** `s ?? string.Empty` */
  function OrEmpty(s: Option<string>): string {
    s.GetOr("")
  }
}
