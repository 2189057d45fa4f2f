/** An optional value: `std::optional`, a Python `None`, a missing key. */
module Optional {
  datatype Option<+T> = None | Some(value: T)
}
