/** Option and Result, used where the engine returns "nothing" or raises. */
module Wrappers {

  datatype Option<+T> = None | Some(value: T)

  datatype Result<+T, +E> = Ok(value: T) | Err(error: E)

  /** The exceptions the engine's operations can raise. */
  datatype Error =
    | FileNotFound(path: string)  // shutil.copy: the sample file does not exist
    | SameFile(path: string)      // shutil.copy: source and destination are one file
    | IndexError                  // list(languages)[0] on an empty collection
}
