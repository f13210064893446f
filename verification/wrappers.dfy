/** Optional values. `None` stands for a C# `null` reference (a null string, a null
    object, a null expression or a null validator delegate). */
module Wrappers {

  datatype Option<+T> = None | Some(value: T)
}
