/** An optional value, and the outcome of a call that may raise. */
module Options {
  datatype Option<+T> = None | Some(value: T)

  datatype Attempt<+T> = Returns(value: T) | Raises
}
