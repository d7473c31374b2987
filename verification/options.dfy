/** The conventional optional-value datatype, used where a lookup may find nothing. */
module Options {

  datatype Option<+T> = None | Some(value: T)
}
