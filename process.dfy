/**
 * What running an external program (esptool, netsh) or an HTTP request gives
 * back. Starting and waiting for the process, and the transport, are outside
 * the model: each call is answered by a value supplied by the caller of the
 * modelled operation.
 */
module Process {

  /** The process ran and exited with `code`, or the call threw (start failure, cancellation). */
  datatype ProcOutcome = Exited(code: int, stdout: string, stderr: string) | Faulted(message: string)

  /** The message of the exception a cancelled `Task.Delay` throws. */
  const TaskCanceledMessage := "A task was canceled."

  /** `IsSuccessStatusCode`: a status in 200..299. */
  predicate IsSuccessStatus(code: int) {
    200 <= code <= 299
  }
}
