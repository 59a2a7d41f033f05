/** The optional-value datatype shared by the model. */
module Wrappers {

  /** `None` stands for SQL NULL, a missing row or a value the source does not supply. */
  datatype Option<+T> = None | Some(value: T)
}
