/** How one compilation and one execution of a test variant are judged:
    timeouts, the good file the output is compared with, success or error,
    the extra comparison of a future's output with its `.bad` file, and
    whether the output log is kept for inspection. The diff tools
    themselves are outside the model: their exit statuses are inputs.
 */
module Outcome {
  import opened Wrappers
  import opened Strings
  import opened GoodFile

  /** The exit status `timedexec` reports for a program it had to kill. */
  const TimeoutStatus: int := 222

  /* ---------------------------------------------------------------------- */
  /* Comparison with the good file                                           */
  /* ---------------------------------------------------------------------- */

  /** The result of comparing output with its good file: whether it
      matched, for a future or suppressed test whose output did not match
      and that has a readable `.bad` file whether the output matched that,
      and whether the output log was removed. */
  datatype Comparison = Comparison(success: bool, badMatch: Option<bool>, logRemoved: bool)

  /** Comparing output whose diff against the good file exited with `diff`
      and against the `.bad` file (when that is consulted) with `badDiff`. */
  function Compare(diff: int, futuretest: string, badReadable: bool, badDiff: int): (c: Comparison)
    ensures c.success <==> diff == 0
    ensures c.badMatch.Some? <==> diff != 0 && futuretest != "" && badReadable
    ensures c.badMatch.Some? ==> (c.badMatch.value <==> badDiff == 0)
    ensures c.logRemoved <==> diff == 0 || (futuretest != "" && badReadable && badDiff == 0)
  {
    if diff == 0 then Comparison(true, None, true)
    else if futuretest != "" && badReadable then
      Comparison(false, Some(badDiff == 0), badDiff == 0)
    else Comparison(false, None, false)
  }

  /** A mismatch is never reported as a success, not even when the output
      matches the `.bad` file of a future; a test that is not a future or
      suppressed never looks at a `.bad` file; and the log stays exactly
      when nothing matched. */
  lemma CompareProperties(diff: int, futuretest: string, badReadable: bool, badDiff: int)
    ensures var c := Compare(diff, futuretest, badReadable, badDiff);
            && (c.badMatch == Some(true) ==> !c.success)
            && (futuretest == "" ==> c.badMatch.None? && (c.logRemoved <==> c.success))
            && (!c.logRemoved <==> !c.success && c.badMatch != Some(true))
  {
  }

  /* ---------------------------------------------------------------------- */
  /* Compilation                                                             */
  /* ---------------------------------------------------------------------- */

  datatype CompileOutcome =
    | CompileTimedOut                                        // killed by timedexec
    | Executes                                               // compiled; an execution follows
    | NoCompileGoodFile(goodfile: string)                    // nothing to compare with
    | CompileCompared(goodfile: string, result: Comparison)  // output compared

  /** The outcome of compiling one variant, which always runs under
      `timedexec`: a timeout when it reports 222; an execution when the compiler succeeded and the test is
      executed; otherwise the compiler output is compared with the
      compile good file (the `.bad` diff ignores line numbers, but its exit
      status is an input here). */
  function CompileOutcomeOf(status: int, executeBin: bool,
                            fs: FileSystem, cfg: Config, testFilename: string, explicitGood: Option<string>,
                            diff: int, futuretest: string, badDiff: int): (o: CompileOutcome)
    ensures o.CompileTimedOut? <==> status == TimeoutStatus
    ensures o.Executes? <==> status == 0 && executeBin
    ensures (o.NoCompileGoodFile? || o.CompileCompared?) ==>
              o.goodfile == CompileGoodFile(fs, cfg, testFilename, explicitGood)
    ensures o.NoCompileGoodFile? ==> !Usable(fs, o.goodfile)
    ensures o.CompileCompared? ==> Usable(fs, o.goodfile)
  {
    if status == TimeoutStatus then CompileTimedOut
    else if status == 0 && executeBin then Executes
    else
      var goodfile := CompileGoodFile(fs, cfg, testFilename, explicitGood);
      if !Usable(fs, goodfile) then NoCompileGoodFile(goodfile)
      else CompileCompared(goodfile, Compare(diff, futuretest, testFilename + ".bad" in fs.readable, badDiff))
  }

  /** A compilation is reported a success exactly when it was not killed, is
      not followed by an execution, has a readable good file, and its output
      matched it. */
  lemma CompileSuccessIff(status: int, executeBin: bool,
                          fs: FileSystem, cfg: Config, testFilename: string, explicitGood: Option<string>,
                          diff: int, futuretest: string, badDiff: int)
    ensures var o := CompileOutcomeOf(status, executeBin, fs, cfg, testFilename, explicitGood, diff, futuretest, badDiff);
            (o.CompileCompared? && o.result.success) <==>
              && status != TimeoutStatus
              && (status != 0 || !executeBin)
              && Usable(fs, CompileGoodFile(fs, cfg, testFilename, explicitGood))
              && diff == 0
  {
  }

  /* ---------------------------------------------------------------------- */
  /* Execution                                                               */
  /* ---------------------------------------------------------------------- */

  /** What a launcher's output revealed, as the driver's regular expressions
      see it (matching them is outside the model). */
  datatype LauncherReport = ExpiredCredential | MissingOutputFile | KilledForTime | NoReport

  /** The result of one run: its status, whether it timed out, and the
      launcher error that explains a failure (empty when none). */
  datatype Run = Run(status: int, timedOut: bool, launcherError: string)

  /** A run under a launcher that enforces the timeout itself. */
  function LauncherRun(status: int, report: LauncherReport): (r: Run)
    ensures r.timedOut <==> report == KilledForTime
    ensures r.launcherError == "" <==> report == NoReport
  {
    match report
    case ExpiredCredential => Run(status, false, "Jira 18 -- Expired slurm credential for")
    case MissingOutputFile => Run(status, false, "Jira 17 -- Missing output file for")
    case KilledForTime => Run(status, true, "Timed out executing program")
    case NoReport => Run(status, false, "")
  }

  /** A run under `timedexec`: status 222 is a timeout. */
  function TimedExecRun(status: int): (r: Run)
    ensures r.timedOut <==> status == TimeoutStatus
    ensures r.launcherError == ""
  {
    Run(status, status == TimeoutStatus, "")
  }

  datatype ExecOutcome =
    | ExecTimedOut                                        // the program was killed
    | LauncherFailed(message: string)                     // the launcher explains the failure
    | PerformanceRun                                      // output goes to the performance tools
    | NoExecGoodFile(goodfile: string)                    // nothing to compare with
    | ExecCompared(goodfile: string, result: Comparison)  // output compared

  /** The outcome of one execution: no comparison after a timeout or a
      launcher error; in performance mode the output goes to the
      performance tools; otherwise it is compared with the exec good file
      (here the `.bad` file is compared with a plain diff). */
  function ExecOutcomeOf(run: Run, perftest: bool,
                         fs: FileSystem, cfg: Config, testFilename: string, onlyOne: bool,
                         compNum: nat, execNum: nat, explicitGood: Option<string>,
                         diff: int, futuretest: string, badDiff: int): (o: ExecOutcome)
    ensures o.ExecTimedOut? <==> run.timedOut
    ensures o.LauncherFailed? <==> !run.timedOut && run.launcherError != ""
    ensures o.PerformanceRun? <==> !run.timedOut && run.launcherError == "" && perftest
    ensures (o.NoExecGoodFile? || o.ExecCompared?) ==>
              o.goodfile == ExecGoodFile(fs, cfg, testFilename, onlyOne, compNum, execNum, explicitGood)
    ensures o.NoExecGoodFile? ==> !Usable(fs, o.goodfile)
    ensures o.ExecCompared? ==> Usable(fs, o.goodfile)
  {
    if run.timedOut then ExecTimedOut
    else if run.launcherError != "" then LauncherFailed(run.launcherError)
    else if perftest then PerformanceRun
    else
      var goodfile := ExecGoodFile(fs, cfg, testFilename, onlyOne, compNum, execNum, explicitGood);
      if !Usable(fs, goodfile) then NoExecGoodFile(goodfile)
      else ExecCompared(goodfile, Compare(diff, futuretest, testFilename + ".bad" in fs.readable, badDiff))
  }

  /** Under `timedexec`, an execution is reported a success exactly when its
      status is not 222, it is not a performance run, its good file is
      readable, and its output matched it; the exit status of the program
      itself does not matter. */
  lemma TimedExecSuccessIff(status: int, perftest: bool,
                            fs: FileSystem, cfg: Config, testFilename: string, onlyOne: bool,
                            compNum: nat, execNum: nat, explicitGood: Option<string>,
                            diff: int, futuretest: string, badDiff: int)
    ensures var o := ExecOutcomeOf(TimedExecRun(status), perftest, fs, cfg, testFilename, onlyOne,
                                   compNum, execNum, explicitGood, diff, futuretest, badDiff);
            (o.ExecCompared? && o.result.success) <==>
              && status != TimeoutStatus
              && !perftest
              && Usable(fs, ExecGoodFile(fs, cfg, testFilename, onlyOne, compNum, execNum, explicitGood))
              && diff == 0
  {
  }

  /** A launcher that reports a walltime kill makes the run a timeout; the
      other reports are launcher failures, and none of them is compared. */
  lemma LauncherReportsNotCompared(status: int, report: LauncherReport, perftest: bool,
                                   fs: FileSystem, cfg: Config, testFilename: string, onlyOne: bool,
                                   compNum: nat, execNum: nat, explicitGood: Option<string>,
                                   diff: int, futuretest: string, badDiff: int)
    requires report != NoReport
    ensures var o := ExecOutcomeOf(LauncherRun(status, report), perftest, fs, cfg, testFilename, onlyOne,
                                   compNum, execNum, explicitGood, diff, futuretest, badDiff);
            (o.ExecTimedOut? <==> report == KilledForTime) && !o.ExecCompared?
  {
  }
}
