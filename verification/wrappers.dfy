/** The Some/None datatype used for observations that may be absent
    (a failed size read, a preset listing that could not be obtained). */
module Wrappers {

  datatype Option<+T> = None | Some(value: T)
}
