/** The usual optional value, standing for JavaScript's `undefined`/`null` results. */
module Options {
  datatype Option<+T> = None | Some(value: T)
}
