/** An optional value, standing in for the C# idioms `TryGetValue`, `TryParse` and a
    null result of `as`. */
module Wrappers {

  datatype Option<+T> = None | Some(value: T) {

    /** The value held, or `default` when there is none. */
    function GetOr(default: T): T
    {
      match this
      case Some(v) => v
      case None => default
    }
  }
}
