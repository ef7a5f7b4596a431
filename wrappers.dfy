/** Option and Result datatypes used wherever the Java code returns null,
    an Optional, or throws. */
module Wrappers {

  datatype Option<+T> = None | Some(value: T)

  /** `Err` stands for an exception the Java code throws; its message
      carries the exception text where the source spells one out. */
  datatype Result<+T> = Ok(value: T) | Err(message: string)
}
