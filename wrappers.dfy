/** Optional values and the exceptions of the .NET runtime that the modelled code can raise. */
module Wrappers {

  datatype Option<T> = None | Some(value: T) {
    function GetOr(default: T): T {
      match this
      case Some(v) => v
      case None => default
    }
  }

  /** The runtime exceptions the modelled code can throw and never catches. */
  datatype Exception =
    | IndexOutOfRange      // string indexer past the end
    | ArgumentOutOfRange   // Substring with a start or length outside the string
    | Format               // int.Parse or Convert.ToInt32 on text that is not a number
    | Argument             // Convert.ToInt32 in base 16 on text with a minus sign

  /** A value, or the exception the C# code would have thrown instead. */
  datatype Result<T> = Success(value: T) | Failure(error: Exception)
}
