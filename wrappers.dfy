/** The optional-value datatype shared by the modules of this project. */
module Wrappers {

  /** `None` stands for JavaScript's `undefined` where a field or a name may be absent. */
  datatype Option<+T> = None | Some(value: T)
}
