// Optional results: every hit test and scatter that can fail returns one.
module Wrappers {
  datatype Option<+T> = None | Some(value: T)
}
