/** The one wrapper the model needs: a value that may be absent
    (JavaScript's `undefined`, or a field missing from a request). */
module Wrappers {

  datatype Option<+T> = None | Some(value: T)
}
