/** The two process primitives the registry actions call
    (cli_commander.py:58-84). Only their guards are modelled: the signal
    calls themselves are replaced by `delivers`, the operating system's
    answer to "would this signal reach this pid?". */
module ProcessProbe {
  import opened Wrappers

  /** The signals whose delivery decides a result: signal 0, the liveness
      probe, and SIGTERM. */
  datatype Signal = Probe | Term

  /** Python truthiness of a stored pid: present and not 0. */
  predicate PidTruthy(pid: Option<int>) {
    pid.Some? && pid.value != 0
  }

  /** `is_process_running`: a falsy pid is never running; otherwise the
      answer is whether signal 0 reaches the process. */
  function IsProcessRunning(pid: Option<int>, delivers: (int, Signal) -> bool): (running: bool)
    ensures running ==> PidTruthy(pid)
    ensures PidTruthy(pid) ==> (running <==> delivers(pid.value, Probe))
  {
    PidTruthy(pid) && delivers(pid.value, Probe)
  }

  /** `terminate_process`: a falsy pid is refused; otherwise the result
      says whether SIGTERM was delivered. The SIGKILL follow-up and its
      errors are swallowed by the source and do not affect the result. */
  function TerminateProcess(pid: Option<int>, delivers: (int, Signal) -> bool): (sent: bool)
    ensures sent ==> PidTruthy(pid)
    ensures PidTruthy(pid) ==> (sent <==> delivers(pid.value, Term))
  {
    PidTruthy(pid) && delivers(pid.value, Term)
  }
}
