/**
 * The record of one task run (`TaskStats` in main.go) and how it is filled in for
 * each of the three ways a run ends. Which way it ends is decided by a race
 * between the process and its deadline; here it is an input.
 */
module Stats {
  import opened Wrappers

  /** The placeholder shown for an empty output. */
  const NotAvailable: string := "N/A"

  /** The error recorded when the process cannot be started. */
  const StartFailure: string := "can't start process"

  /** The error recorded when the deadline kills the process. */
  const TimeoutKilled: string := "timeout killed"

  /** `defaultString`: an empty text shows as "N/A", any other text as itself. */
  function DefaultString(input: string): (r: string)
    ensures r != ""
    ensures input != "" ==> r == input
    ensures input == "" ==> r == NotAvailable
  {
    if input == "" then NotAvailable else input
  }

  /** Normalising twice is normalising once. */
  lemma DefaultStringIdempotent(input: string)
    ensures DefaultString(DefaultString(input)) == DefaultString(input)
  {
  }

  /**
   * The record of a run. Times are abstract clock readings; `error` is None
   * for a nil Go error and otherwise carries its message.
   */
  datatype TaskStats = TaskStats(
    started: int,
    ended: int,
    duration: int,
    exitCode: int,
    stdOut: string,
    stdErr: string,
    isKilled: bool,
    error: Option<string>)

  /**
   * How a run ended, with what the process state and the output buffers held at
   * that point. `waitError` is the error returned by `cmd.Wait`. The exit code of
   * a killed process is whatever its state reported when it was read.
   */
  datatype Outcome =
    | StartFailed
    | TimedOut(exitCode: int, stdOut: string, stdErr: string)
    | Exited(exitCode: int, stdOut: string, stdErr: string, waitError: Option<string>)

  /** The record `executeTask` builds for an outcome between two clock readings. */
  function StatsFor(outcome: Outcome, started: int, ended: int): (s: TaskStats)
    ensures s.started == started && s.ended == ended && s.duration == ended - started
    ensures s.stdOut != "" && s.stdErr != ""
    ensures s.isKilled <==> outcome.TimedOut?
    ensures s.error.None? <==> outcome.Exited? && outcome.waitError.None?
    ensures outcome.StartFailed? ==>
              s.exitCode == -1 && s.stdOut == NotAvailable && s.stdErr == NotAvailable &&
              s.error == Some(StartFailure)
    ensures outcome.TimedOut? ==>
              s.error == Some(TimeoutKilled) &&
              s.stdOut == DefaultString(outcome.stdOut) && s.stdErr == DefaultString(outcome.stdErr)
    ensures outcome.Exited? ==>
              s.exitCode == outcome.exitCode && s.error == outcome.waitError &&
              s.stdOut == DefaultString(outcome.stdOut) && s.stdErr == DefaultString(outcome.stdErr)
  {
    match outcome
    case StartFailed =>
      TaskStats(started, ended, ended - started, -1,
                DefaultString(""), DefaultString(""), false, Some(StartFailure))
    case TimedOut(code, out, err) =>
      TaskStats(started, ended, ended - started, code,
                DefaultString(out), DefaultString(err), true, Some(TimeoutKilled))
    case Exited(code, out, err, waitError) =>
      TaskStats(started, ended, ended - started, code,
                DefaultString(out), DefaultString(err), false, waitError)
  }

  /** The three ways a run can end. */
  datatype Ending = NeverStarted | KilledByDeadline | ExitedNaturally

  function EndingOf(outcome: Outcome): (ending: Ending)
  {
    match outcome
    case StartFailed => NeverStarted
    case TimedOut(_, _, _) => KilledByDeadline
    case Exited(_, _, _, _) => ExitedNaturally
  }

  /** Reads back from a record which way the run ended. */
  function Explain(s: TaskStats): (ending: Ending)
  {
    if s.isKilled then KilledByDeadline
    else if s.error == Some(StartFailure) && s.exitCode == -1 then NeverStarted
    else ExitedNaturally
  }

  /**
   * Exactly one way of ending explains a record: the record determines it, as
   * long as a wait error never reads like the start-failure message.
   */
  lemma StatsExplainOutcome(outcome: Outcome, started: int, ended: int)
    requires outcome.Exited? ==> outcome.waitError != Some(StartFailure)
    ensures Explain(StatsFor(outcome, started, ended)) == EndingOf(outcome)
  {
  }
}
