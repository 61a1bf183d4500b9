/** Option and Result types shared by the whole model, and the exceptions the
    modelled code raises, which become the error half of a Result. */
module Wrappers {

  datatype Option<+T> = None | Some(value: T)

  /** The exceptions raised by the modelled Python code, by their Python names. */
  datatype Exception =
    | InvalidFormatException        // Dependencies.InvalidFormatException
    | ValueError
    | KeyError
    | IndexError
    | TypeError
    | AttributeError
    | NoEnvironmentFoundException   // InferDockerfile.NoEnvironmentFoundException
    | TimeoutException              // InferDockerfile.TimeoutException
    | DirectoryNotFoundException    // InferDockerfile.DirectoryNotFoundException
    | NotADirectoryException        // InferDockerfile.NotADirectoryException
    | FileNotFoundError
    | NotADirectoryError
    | NoEnviromentFoundExcpetion    // the legacy driver's own exception, spelt as there

  /** A value, or the exception that was raised instead of returning it. */
  datatype Result<+T> = Ok(value: T) | Err(error: Exception)
}
