/** The optional value used wherever the modelled code returns `null`
    or a JavaScript `NaN`. */
module Wrappers {

  datatype Option<+T> = None | Some(value: T)
}
