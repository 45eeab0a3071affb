/** Small value types shared by the whole model. */
module Wrappers {
  datatype Option<+T> = None | Some(value: T) {
    function GetOr(default: T): T {
      match this
      case Some(v) => v
      case None => default
    }
  }

  /** The kinds of result the store reports; the message texts are not modelled. */
  datatype Status = Ok | NotFound | NotOpen | InvalidArgument | Corruption | IoError
}
