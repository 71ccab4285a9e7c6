/** The optional value used wherever the modelled code uses `None`. */
module Optional {

  datatype Option<+T> = None | Some(value: T)
}
