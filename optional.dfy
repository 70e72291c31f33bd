/** An optional value: `None` stands for the `null` of a .NET reference. */
module Optional {

  datatype Option<+T> = None | Some(value: T) {

    function GetOr(default: T): T
    {
      match this
      case Some(v) => v
      case None => default
    }
  }
}
