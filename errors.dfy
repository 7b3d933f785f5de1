/** How a repository operation ends when it does not succeed. */
module Errors {
  /**
   * Failed: the operation returns an error with this message (wrapped errors
   * keep only their own text). Fatal: the process logs and exits (log.Fatal),
   * so the caller never sees a result.
   */
  datatype Error = Failed(message: string) | Fatal
}
