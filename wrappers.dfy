/** Option type shared by every module: `None` stands for the C# `null`
  * results and the failed `TryParse` calls of the device drivers. */
module Wrappers {
  datatype Option<T> = None | Some(value: T)
}
