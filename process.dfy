/** The process boundary of a command: what a `catch` clause receives, and
    `process.exit(1)` together with the lines written to stderr before it.
    Every exit in the CLI uses status 1, so the status is not recorded. */
module Process {

  /** A caught value: an `Error` object with its message, or anything else. */
  datatype Thrown = ErrorObject(message: string) | NonError

  /** The command ended with `process.exit(1)` after writing `stderr`. */
  datatype Exit = Exit(stderr: seq<string>)
}
