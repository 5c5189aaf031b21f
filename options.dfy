/** The optional value that Rust's `Option` stands for. */
module Options {
  datatype Option<+T> = None | Some(value: T)
}
