/** The absent-or-present value used where the source has `undefined`, `null` or NaN. */
module Options {

  datatype Option<T> = None | Some(value: T)
}
