/** An optional value: `None` stands for a JavaScript field or argument that is `undefined`. */
module Options {
  datatype Option<+T> = None | Some(value: T)
}
