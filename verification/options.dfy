/** A value that may be absent: how the model writes a Java `null` answer,
    such as a cancelled dialog, a missing selection or a failed load. */
module Options {

  datatype Option<+T> = None | Some(value: T) {

    /** Falls back to `default` when nothing is there. */
    function GetOr(default: T): (r: T)
      ensures Some? ==> r == value
      ensures None? ==> r == default
    {
      match this
      case Some(v) => v
      case None => default
    }
  }
}
