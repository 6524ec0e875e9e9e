/**
 * `WindowsAIAssistant.execute_command`: running a proposed command and
 * turning how the process ended into a result.
 *
 * The process launch is not modelled: `run` says how a given launch ends.
 */
module Executor {
  import opened Json

  /** The two interpreters `execute_command` can use. */
  datatype Shell =
    | PowerShell // argv `["powershell", "-Command", command]`
    | Cmd        // `command` handed to the system shell (`shell=True`)

  /**
   * One `subprocess.run` call: the interpreter, the command exactly as the
   * caller passed it (no escaping), and the timeout in seconds.
   */
  datatype Launch = Launch(shell: Shell, command: JsonValue, timeoutSeconds: nat)

  /** How the child process ended. */
  datatype ProcessOutcome =
    | Completed(stdout: string, stderr: string, returncode: int) // ran to completion
    | TimedOut                                                  // subprocess.TimeoutExpired
    | LaunchFailed(message: string)                             // any other exception; `str(e)`

  /** The dict `execute_command` returns. */
  datatype ExecResult =
    | Succeeded(stdout: string, stderr: string, returncode: int) // "success": True
    | Failed(error: string)                                     // "success": False

  const TimeoutSeconds: nat := 30
  const TimeoutMessage := "Command timed out after 30 seconds"

  /** The `subprocess.run` call for `command`. */
  function Invocation(command: JsonValue, usePowerShell: bool): Launch {
    Launch(if usePowerShell then PowerShell else Cmd, command, TimeoutSeconds)
  }

  /**
   * `execute_command(command, use_powershell)`. Any process that ran to
   * completion is a success carrying its output and exit code, whatever the
   * code; only a timeout or a failure to launch is a failure.
   */
  function ExecuteCommand(command: JsonValue, usePowerShell: bool, run: Launch -> ProcessOutcome): (r: ExecResult)
    ensures var l := Invocation(command, usePowerShell);
      && l.command == command && l.timeoutSeconds == 30
      && (usePowerShell <==> l.shell == PowerShell)
    ensures var o := run(Invocation(command, usePowerShell));
      && (r.Succeeded? <==> o.Completed?)
      && (o.Completed? ==> r.stdout == o.stdout && r.stderr == o.stderr && r.returncode == o.returncode)
      && (o.TimedOut? ==> r.error == TimeoutMessage)
      && (o.LaunchFailed? ==> r.error == o.message)
  {
    match run(Invocation(command, usePowerShell))
    case Completed(out, err, code) => Succeeded(out, err, code)
    case TimedOut => Failed(TimeoutMessage)
    case LaunchFailed(message) => Failed(message)
  }

  /** Reading a result back as the process outcome it reports. */
  function ReportedOutcome(r: ExecResult): ProcessOutcome {
    match r
    case Succeeded(out, err, code) => Completed(out, err, code)
    case Failed(error) => if error == TimeoutMessage then TimedOut else LaunchFailed(error)
  }

  /**
   * The result reports the process outcome faithfully: reading it back gives
   * the outcome, except for a launch failure whose message is the timeout
   * text, which reads as a timeout.
   */
  lemma ResultReportsOutcome(command: JsonValue, usePowerShell: bool, run: Launch -> ProcessOutcome)
    ensures var o := run(Invocation(command, usePowerShell));
      o != LaunchFailed(TimeoutMessage) <==> ReportedOutcome(ExecuteCommand(command, usePowerShell, run)) == o
  {
  }

  /** A nonzero exit code is still a success. */
  lemma NonzeroExitSucceeds(command: JsonValue, usePowerShell: bool, run: Launch -> ProcessOutcome, out: string, err: string, code: int)
    requires run(Invocation(command, usePowerShell)) == Completed(out, err, code)
    requires code != 0
    ensures ExecuteCommand(command, usePowerShell, run) == Succeeded(out, err, code)
  {
  }
}
