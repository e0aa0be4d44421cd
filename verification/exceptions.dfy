/** The exceptions the modelled code raises or lets through. */
module Exceptions {
  import opened Paths

  datatype Exc =
    | FileExistsError(at: Path)
    | FileNotFoundError(at: Path)
    | NotADirectoryError(at: Path)
    | IsADirectoryError(at: Path)
      /** a required command-line tool is not installed */
    | ToolMissing(tool: string)
      /** a command exited with a non-zero status */
    | CalledProcessError(command: string)
    | ValueError(subject: string)
    | AssertionError(subject: string)
      /** whatever `importlib.util.find_spec` raised for this name */
    | LookupRaised(name: string)
}
