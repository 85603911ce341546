/** The optional-value wrapper used for the records' optional fields and for
    lookups that can come back `undefined`. */
module Wrappers {

  datatype Option<+T> = None | Some(value: T) {

    /** The wrapped value, or `default` when there is none (JavaScript's `v || default`
        for the fields where a falsy present value equals the default). */
    function GetOr(default: T): T {
      match this
      case Some(v) => v
      case None => default
    }
  }
}
