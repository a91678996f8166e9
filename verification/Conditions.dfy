/** Success and failure conditions of pkg/conditions/conditions.go; a compiled pattern is an
    uninterpreted predicate on text. Reasons are values instead of rendered strings. */
module Conditions {
  import opened Wrappers

  datatype Reason =
    | FailurePattern
    | SuccessPattern
    | ExitCode(code: int)
    | Timeout
    | MaxRetries(last: Reason)

  datatype Verdict = Verdict(success: bool, reason: Reason)

  datatype Checker = Checker(failurePattern: Option<string -> bool>, successPattern: Option<string -> bool>)

  predicate Found(pattern: Option<string -> bool>, stdout: string, stderr: string) {
    pattern.Some? && (pattern.value(stdout) || pattern.value(stderr))
  }

  function CheckSuccess(c: Checker, exitCode: int, stdout: string, stderr: string): (v: Verdict)
    ensures v.reason == FailurePattern <==> Found(c.failurePattern, stdout, stderr)
    ensures v.success <==> !Found(c.failurePattern, stdout, stderr)
                           && (Found(c.successPattern, stdout, stderr) || exitCode == 0)
    ensures v.reason == SuccessPattern
       <==> !Found(c.failurePattern, stdout, stderr) && Found(c.successPattern, stdout, stderr)
    ensures v.reason !in {FailurePattern, SuccessPattern} ==> v.reason == ExitCode(exitCode)
  {
    if Found(c.failurePattern, stdout, stderr) then Verdict(false, FailurePattern)
    else if Found(c.successPattern, stdout, stderr) then Verdict(true, SuccessPattern)
    else Verdict(exitCode == 0, ExitCode(exitCode))
  }
}
