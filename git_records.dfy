/**
 * The records the git analyzer produces (`CommitInfo`, `DiffSummary`,
 * `RepoStatus`) and the errors its git calls raise.
 */
module GitRecords {

  /** One commit of `git log`. `date` is the normalised timestamp text that the
      analyzer hands to `datetime.fromisoformat`; the counts are never filled in
      by the log parser and keep their default 0. */
  datatype CommitInfo = CommitInfo(
    hash: string,
    author: string,
    email: string,
    date: string,
    subject: string,
    body: string,
    filesChanged: int,
    insertions: int,
    deletions: int)

  /** Changed files, line totals and the (possibly truncated) diff text. */
  datatype DiffSummary = DiffSummary(
    files: seq<string>,
    totalAdditions: nat,
    totalDeletions: nat,
    rawDiff: string)

  /** Working-tree status: the three file lists, the derived dirty flag and the branch. */
  datatype RepoStatus = RepoStatus(
    staged: seq<string>,
    modified: seq<string>,
    untracked: seq<string>,
    isDirty: bool,
    branch: string)

  datatype GitError =
    | GitFatal(message: string)      // RuntimeError("Git error: ...")
    | GitNotInstalled                // RuntimeError("Git is not installed or not in PATH")
    | StatusCodeTooShort             // IndexError from `code[1]` on a one-character status line
    | InvalidCount(text: string)     // ValueError from `int(...)` on `rev-list --count` output
}
