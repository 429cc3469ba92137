/**
 The stop ladder: how far the controller has gone in stopping one worker, and
 which signal is due next. Pure functions of time, as in the source.
 */
module Safety {
  import opened Wrappers

  /** Unasked, asked over the control pipe, SIGTERM sent, SIGKILL sent. */
  datatype StopStep = Unasked | Requested | Terminated | Killed

  datatype Signal = SigTerm | SigKill

  /** kill(2): queued, ESRCH, or any other error. */
  datatype KillAnswer = Queued | NoProcess | KillRefused

  /** How long the request, and then SIGTERM, is given before the next step. */
  datatype Grace = Grace(stopNs: int, killNs: int)

  function EscalationDue(step: StopStep, sinceNs: int, nowNs: int, grace: Grace): Option<Signal> {
    var waited := nowNs - sinceNs;
    if step == Requested && waited >= grace.stopNs then Some(SigTerm)
    else if step == Terminated && waited >= grace.killNs then Some(SigKill)
    else None
  }

  function StepAfter(signal: Signal): StopStep {
    if signal == SigKill then Killed else Terminated
  }

  /** The order of the ladder's rungs. */
  function Rank(step: StopStep): nat {
    match step
    case Unasked => 0
    case Requested => 1
    case Terminated => 2
    case Killed => 3
  }
}
