/** Option and Result, standing for the source's nullable references and exceptions. */
module Wrappers {

  datatype Option<+T> = None | Some(value: T)

  /** The exceptions the core throws on bad arguments. */
  datatype Error =
    | ArgumentNull(parameter: string)   // ArgumentNullException(parameter)
    | Argument(message: string)         // ArgumentException(message)
    | InvalidOperation                  // InvalidOperationException from a base collection
    | DuplicateKey(key: string)         // ArgumentException from Dictionary.Add
    | NullReference                     // NullReferenceException: a null delegate or member dereferenced

  datatype Result<+R> = Ok(value: R) | Err(error: Error)
}
