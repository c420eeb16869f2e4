/** The core layer's error type. */
module Errors {

  /** Errors of the core layer. Foreign I/O and TOML errors carry their message only. */
  datatype CoreError =
    | Io(message: string)
    | Toml(message: string)
    | InvalidProject(message: string)
    | NotFound(message: string)
    | Other(message: string)
}
