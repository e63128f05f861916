/** The two result shapes shared by the models. */
module Prelude {
  datatype Option<+T> = None | Some(value: T)
  {
    function GetOr(default: T): T {
      match this
      case None => default
      case Some(v) => v
    }
  }

  datatype Result<+T> = Failure | Success(value: T)
}
