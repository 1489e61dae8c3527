/** The optional value used wherever the guard reads a JSON key that may be absent
    or a backend that may answer "nothing". */
module Wrappers {

  datatype Option<+T> = None | Some(value: T)
}
