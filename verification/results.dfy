/** Option, Result and the Python exceptions the modelled code can raise.
    An exception or an `exit` becomes an `Err` value that each caller passes
    on, the way an uncaught exception unwinds the Python call stack. */
module Results {

  datatype Option<+T> = None | Some(value: T) {

    function GetOr(default: T): T {
      match this
      case Some(v) => v
      case None => default
    }
  }

  /** The failures the modelled scripts end in. */
  datatype Error =
    | ValueError(message: string)
    | KeyError(key: string)
    | IndexError
    | TypeError
    | AttributeError
    | ZeroDivisionError
    | EOFError
    | FormatError
    | NotADirectoryError
    | FileExistsError
    | FileNotFoundError
    | MoveError(message: string)
    | AmbiguousMatch(directory: string)
      /** `exit(code)`: the process ends with a status code. */
    | Exited(code: int)
      /** `sys.exit(message)`: the process ends with a message. */
    | Stopped(message: string)

  datatype Result<+T> = Ok(value: T) | Err(error: Error)
}
