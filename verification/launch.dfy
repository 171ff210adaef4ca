/**
 * The decisions of `main` and `exec` that do not depend on the operating
 * system: the target's argument list, the refusal of an empty one, the exit
 * status of the final process when execution fails, and the exit status of
 * each intercepting parent after it has waited for its child.
 *
 * `execvp` and `waitpid` are system calls; their outcomes are parameters.
 */
module Launch {

  /** An `io::Error`: the wrapper's own invalid-input error or an OS error number. */
  datatype IoError = InvalidInput(message: string) | Os(errno: int)

  /** What `execvp` does: replace the process image, or return an error number. */
  datatype ExecvpOutcome = ImageReplaced | Errno(code: int)

  type Execvp = (string, seq<string>) -> ExecvpOutcome

  /** What `exec` leads to; it never returns successfully. */
  datatype ExecResult = Replaced(file: string, argv: seq<string>) | Failed(error: IoError)

  /** How the final process ends: with an exit status, or by becoming the target command. */
  datatype Termination = Exit(status: int) | Became(file: string, argv: seq<string>)

  const NO_COMMAND: string := "no command"

  /** The target's argument list: the wrapper's own argument list without its first element. */
  function TargetArgv(argv: seq<string>): (r: seq<string>)
    ensures |argv| == 0 ==> |r| == 0
    ensures |argv| > 0 ==> argv == [argv[0]] + r
  {
    if |argv| == 0 then [] else argv[1..]
  }

  /** `exec`: an empty argument list is refused before anything is executed;
      otherwise the first argument is the file to run, with the whole list as its argv. */
  function Exec(args: seq<string>, execvp: Execvp): (r: ExecResult)
    ensures r == Failed(InvalidInput(NO_COMMAND)) <==> |args| == 0
    ensures r.Replaced? ==> |args| > 0 && r.file == args[0] && r.argv == args
    ensures |args| > 0 && execvp(args[0], args).ImageReplaced? ==> r == Replaced(args[0], args)
    ensures |args| > 0 && execvp(args[0], args).Errno? ==> r == Failed(Os(execvp(args[0], args).code))
  {
    if |args| == 0 then Failed(InvalidInput(NO_COMMAND))
    else match execvp(args[0], args)
      case ImageReplaced => Replaced(args[0], args)
      case Errno(code) => Failed(Os(code))
  }

  /** The end of `main` in the final process: run the target, or exit with status 1. */
  function FinalProcess(argv: seq<string>, execvp: Execvp): (r: Termination)
    ensures |argv| <= 1 ==> r == Exit(1)
    ensures r.Exit? ==> r.status == 1
    ensures r.Became? ==> |argv| >= 2 && r.file == argv[1] && [argv[0]] + r.argv == argv
    ensures |argv| >= 2 ==> (r == Became(argv[1], argv[1..]) <==> execvp(argv[1], argv[1..]).ImageReplaced?)
    ensures |argv| >= 2 && execvp(argv[1], argv[1..]).Errno? ==> r == Exit(1)
  {
    match Exec(TargetArgv(argv), execvp)
    case Replaced(file, args) => Became(file, args)
    case Failed(_) => Exit(1)
  }

  /** Any indication `waitpid` can report about the child. */
  datatype ChildStatus = Exited(code: int) | Signaled(signal: int) | OtherStatus

  datatype WaitResult = Reaped(status: ChildStatus) | WaitFailed(errno: int)

  /** The exit status of an intercepting parent: `waitpid(..).is_ok() as i32`,
      which is 1 when the wait succeeds and 0 when it fails. */
  function InterceptorExitStatus(w: WaitResult): (status: int)
    ensures status == 1 <==> w.Reaped?
    ensures status == 0 <==> w.WaitFailed?
  {
    if w.Reaped? then 1 else 0
  }
}
