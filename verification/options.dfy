/** Cells that can be missing in the shipment data: a date the parser
    rejected, a port or carrier left blank, a ratio with no inflow behind it,
    a key a table does not hold. */
module Options {

  datatype Option<T> = None | Some(value: T) {

    /** What the cell holds, with `default` standing in for a missing one
        (the `fillna` of the data frames). */
    function GetOr(default: T): T {
      match this
      case None => default
      case Some(v) => v
    }
  }
}
