/** Small failure-carrying datatypes shared by the model. */
module Wrappers {

  /** An optional value; `None` stands for a native `VK_NULL_HANDLE` or an absent input. */
  datatype Option<+T> = None | Some(value: T)
}
