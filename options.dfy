/** The optional value used for JavaScript's `undefined`, `null` and `NaN` outcomes. */
module Options {

  datatype Option<T> = None | Some(value: T)
}
