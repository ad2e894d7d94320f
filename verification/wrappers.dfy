/** The nullable values of the C# source (`string?`, `bool?`) as an option type. */
module Wrappers {

  datatype Option<+T> = None | Some(value: T) {

    /** The C# `??` operator: the held value, or `default` when null. */
    function GetOr(default: T): (r: T)
      ensures Some? ==> r == value
      ensures None? ==> r == default
    {
      match this
      case Some(v) => v
      case None => default
    }
  }
}
