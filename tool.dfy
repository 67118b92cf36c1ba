/** The `hdhomerun_config` utility seen from the gateway: each invocation is an
    argument vector with a timeout, answered either by the captured standard output
    or by a failure (non-zero exit, timeout kill, missing executable). The process
    itself is an oracle that the operations take as a parameter. */
module Tool {
  import opened Text

  /** Timeout of an ordinary invocation, in milliseconds. */
  const DefaultTimeout: nat := 8000

  /** Timeout of the status read of a monitoring tick, in milliseconds. */
  const TickTimeout: nat := 4000

  datatype Call = Call(args: seq<string>, timeout: nat)

  datatype ExecResult = Done(stdout: string) | Failed(stderr: string)

  /** What the utility answers to each call. */
  type Oracle = Call -> ExecResult

  datatype Failure =
    | InvalidArgument(message: string)  // answered before any call is made
    | ToolFailure(detail: string)       // a call the handler does not tolerate failed

  datatype Result<+T> = Ok(value: T) | Err(failure: Failure)

  /** What a request handler did: the calls it issued, in order, and its answer. */
  datatype Reply<+T> = Reply(calls: seq<Call>, result: Result<T>)

  /** `/tuner${tuner}/<leaf>`; the tuner index is the request's path segment, as text. */
  function TunerPath(tuner: string, leaf: string): string {
    "/tuner" + tuner + "/" + leaf
  }

  /** `hdhomerun_config <id> get <path>` */
  function GetCall(id: string, path: string): Call {
    Call([id, "get", path], DefaultTimeout)
  }

  /** `hdhomerun_config <id> set <path> <value>` */
  function SetCall(id: string, path: string, value: string): Call {
    Call([id, "set", path, value], DefaultTimeout)
  }
}
