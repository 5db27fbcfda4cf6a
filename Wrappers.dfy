/** The nullable result of an allocation: `None` stands for the null pointer
    the allocators return when they are exhausted. */
module Wrappers {

  datatype Option<+T> = None | Some(value: T)
}
