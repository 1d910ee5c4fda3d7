/** The result of a call into a collaborator that may fail. */
module Wrappers {

  /** `None` stands for a failed call (an exception or a missing value). */
  datatype Option<+T> = None | Some(value: T)

}
