/** The conventional optional value; `None` is how a Go `nil` result, a returned
    error without detail or a panic is modelled. */
module Options {
  datatype Option<+T> = None | Some(value: T)
}
