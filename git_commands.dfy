/**
 * The git calls of `GitAnalyzer` as functions of what the subprocess
 * reported: `_run_git`'s error check, `get_current_branch` and
 * `get_commit_count`. Running the subprocess itself is not modelled; its
 * outcome is an input.
 */
module GitCommands {
  import opened Wrappers
  import opened PyBuiltins
  import opened GitRecords

  /** What `subprocess.run(..., capture_output=True, text=True)` hands back. */
  datatype Completed = Completed(returncode: int, stdout: string, stderr: string)

  /** A git invocation: it ran to completion, or the `git` executable was not found. */
  datatype Invocation = Ran(completed: Completed) | NotFound

  /** A failed run whose error output names a fatal git error. */
  predicate IsFatal(c: Completed) {
    c.returncode != 0 && c.stderr != "" && Contains(c.stderr, "fatal:")
  }

  /** `_run_git`: the standard output, unless git is missing or reported a fatal error. */
  function RunGit(inv: Invocation): (r: Result<string, GitError>)
    ensures inv.NotFound? ==> r == Err(GitNotInstalled)
    ensures inv.Ran? ==> (r.Ok? <==> !IsFatal(inv.completed))
    ensures inv.Ran? && r.Ok? ==> r.value == inv.completed.stdout
    ensures inv.Ran? && r.Err? ==> r.error == GitFatal("Git error: " + Strip(inv.completed.stderr))
  {
    match inv
    case NotFound => Err(GitNotInstalled)
    case Ran(c) =>
      if c.returncode != 0 && c.stderr != "" && Contains(c.stderr, "fatal:") then
        Err(GitFatal("Git error: " + Strip(c.stderr)))
      else Ok(c.stdout)
  }

  /** A zero exit status never raises, whatever git wrote to standard error. */
  lemma SuccessfulRunPasses(stdout: string, stderr: string)
    ensures RunGit(Ran(Completed(0, stdout, stderr))) == Ok(stdout)
  {
  }

  /** A failing run whose error output has no "fatal:" still yields its output. */
  lemma NonFatalFailurePasses(c: Completed)
    requires c.returncode != 0 && !Contains(c.stderr, "fatal:")
    ensures RunGit(Ran(c)) == Ok(c.stdout)
  {
  }

  /** `get_current_branch`: the stripped output of `git branch --show-current`. */
  function CurrentBranch(output: string): (name: string)
    ensures IsStripped(name)
    ensures AllSpace(output) <==> name == ""
  {
    StripEmpty(output);
    Strip(output)
  }

  /** A branch name printed on its own line is read back unchanged. */
  lemma CurrentBranchOfName(name: string)
    requires name != "" && IsStripped(name)
    ensures CurrentBranch(name + "\n") == name
  {
    assert [] + name + "\n" == name + "\n";
    StripSurrounded([], name, "\n");
  }

  /** `get_commit_count`: `int(output.strip())`, and 0 for blank output. */
  function CommitCount(output: string): (r: Result<int, GitError>)
  {
    var t := Strip(output);
    if t == "" then Ok(0)
    else
      match PyInt(t)
      case Some(n) => Ok(n)
      case None => Err(InvalidCount(t))
  }

  /** Blank output counts as zero commits. */
  lemma CommitCountBlank(output: string)
    ensures AllSpace(output) ==> CommitCount(output) == Ok(0)
  {
    StripEmpty(output);
  }

  /**
   * Non-blank output is read by `int(output.strip())`: the count fails exactly
   * where that raises, and `int()` skips nothing more of the stripped text.
   */
  lemma CommitCountParses(output: string)
    requires !AllSpace(output)
    ensures CommitCount(output).Err? <==> PyInt(Strip(output)) == None
    ensures CommitCount(output).Ok? ==> CommitCount(output) == Ok(PyInt(Strip(output)).value)
    ensures PyInt(Strip(output)) == SignedInt(Strip(output))
  {
    StripEmpty(output);
    IntLiteralOfStripped(Strip(output));
  }

  /** The count `git rev-list --count` prints, one number and a newline, is read back exactly. */
  lemma CommitCountRoundTrip(n: nat)
    ensures CommitCount(NatToString(n) + "\n") == Ok(n)
  {
    var d := NatToString(n);
    DigitsStripped(d);
    assert [] + d + "\n" == d + "\n";
    assert IsDigit(d[0]) && IsDigit(d[|d| - 1]);
    StripSurrounded([], d, "\n");
    PyIntUnsigned(d);
  }
}
