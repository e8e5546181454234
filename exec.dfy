/** What the source hands to, and gets back from, `@actions/exec`. */
module Exec {

  /** One call of `exec.exec` or `exec.getExecOutput`: the command, its
      arguments and whether a non-zero exit code is returned rather than
      thrown. */
  datatype Invocation = Invocation(command: string, args: seq<string>, ignoreReturnCode: bool)

  /** `exec.ExecOutput` */
  datatype ExecOutput = ExecOutput(exitCode: int, stdout: string, stderr: string)
}
