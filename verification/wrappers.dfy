/** The optional-value wrapper used for a converted age: `None` is JavaScript's
    `NaN`, `Some(x)` a number the conversion accepted. */
module Wrappers {

  datatype Option<+T> = None | Some(value: T)

}
