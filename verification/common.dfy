/** Values the dashboard reads from loosely typed JSON: a field is either
    present or missing (`null` / `undefined`). */
module Common {

  datatype Option<+T> = None | Some(value: T) {

    /** The present value, or `default` when the field is missing. */
    function GetOr(default: T): T {
      match this
      case Some(v) => v
      case None => default
    }
  }
}
