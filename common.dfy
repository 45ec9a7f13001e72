/** Shared vocabulary: Java's nullable references and the identifiers the app passes around. */
module Common {

  /** A Java reference that may be null. */
  datatype Option<T> = None | Some(value: T) {
    function GetOr(default: T): T {
      match this
      case Some(v) => v
      case None => default
    }
  }

  /** A Firebase Authentication user id. */
  type Uid = string

  /** A key under the "rides" node of the Realtime Database. */
  type Key = string
}
