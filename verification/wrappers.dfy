/** The optional value used wherever the program works with something that may be absent
    (a missing environment variable, an anchor without an href, a row without a link). */
module Wrappers {

  datatype Option<+T> = None | Some(value: T)
}
