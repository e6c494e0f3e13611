/** A value that may be absent: the model's stand-in for C's "the call filled
    the buffer" / "the call did not". */
module Optional {
  datatype Option<+T> = None | Some(value: T)
}
