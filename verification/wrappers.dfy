/** The one wrapper the model needs: a value that may be absent. */
module Wrappers {

  /** A value that is present (`Some`) or absent (`None`), as `undefined` is in the page. */
  datatype Option<+T> = None | Some(value: T)
}
