/** The optional value used wherever the TypeScript code returns `undefined`
    or stores `null`. */
module Wrappers {

  datatype Option<+T> = None | Some(value: T)
}
