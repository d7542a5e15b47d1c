/** The conventional optional value, used for the nullable columns and results of every component. */
module Options {
  datatype Option<+T> = None | Some(value: T)
}
