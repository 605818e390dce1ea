/** The optional value used where the C# code returns `null`. */
module Wrappers {

  datatype Option<+T> = None | Some(value: T)
}
