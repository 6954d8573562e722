/** The one optional-value type the model needs: a JavaScript value that may be
    `undefined` (a failed lookup, an unparsable number, a form opened empty). */
module Wrappers {
  datatype Option<+T> = None | Some(value: T)
}
