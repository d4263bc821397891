/** The optional-value datatype used for bus values that may be unassigned
    (the source's `None`) and for fields that start out undefined. */
module Options {

  datatype Option<+T> = None | Some(value: T)
}
