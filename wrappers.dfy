/** The optional value used wherever the PHP code returns a value or `false`/`null`. */
module Wrappers {

  datatype Option<+T> = None | Some(value: T)

}
