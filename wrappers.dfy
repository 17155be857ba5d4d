/** The nullable reference of the source (`x?.Value`, `?? fallback`) as a value. */
module Wrappers {

  datatype Option<+T> = None | Some(value: T) {

    /** `this ?? fallback` */
    function GetOr(fallback: T): T {
      match this
      case Some(v) => v
      case None => fallback
    }
  }
}
