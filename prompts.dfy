/**
 * `Prompts`: the texts sent to the language model. The file list of
 * `status_summary` is capped at twenty entries; every other input is placed
 * into its template unchanged.
 */
module Prompts {
  import opened PyBuiltins

  const FileCap: nat := 20

  /** `f"  - {f}"` */
  function FileItem(f: string): string {
    "  - " + f
  }

  /** One item per shown file, in order. */
  function FileItems(shown: seq<string>): (items: seq<string>)
    ensures |items| == |shown|
    ensures forall k :: 0 <= k < |shown| ==> items[k] == FileItem(shown[k])
  {
    seq(|shown|, k requires 0 <= k < |shown| => FileItem(shown[k]))
  }

  /** `f"  ... and {n} more files"` */
  function MoreFilesLine(n: int): string {
    "  ... and " + IntToString(n) + " more files"
  }

  /** The `file_list` of `status_summary`. */
  function FileList(files: seq<string>): string {
    Join(FileItems(Take(files, FileCap)), '\n')
    + (if |files| > FileCap then ['\n'] + MoreFilesLine(|files| - FileCap) else "")
  }

  /** The lines of the file list. */
  function FileListLines(files: seq<string>): seq<string> {
    FileItems(Take(files, FileCap)) + (if |files| > FileCap then [MoreFilesLine(|files| - FileCap)] else [])
  }

  /**
   * For file names without newlines, the list has one line per file for the
   * first twenty files, in order, and one more line counting the rest exactly
   * when there are more than twenty.
   */
  lemma FileListSplits(files: seq<string>)
    requires |files| >= 1
    requires forall k :: 0 <= k < |files| ==> '\n' !in files[k]
    ensures Split(FileList(files), '\n') == FileListLines(files)
  {
    ItemsLackNewline(files);
    if |files| > FileCap {
      LongFileListSplits(files);
    } else {
      var items := FileItems(Take(files, FileCap));
      assert FileListLines(files) == items;
      assert FileList(files) == Join(items, '\n');
      SplitJoin(items, '\n');
    }
  }

  /** Without files the list is empty, which splits into one empty line rather than none. */
  lemma EmptyFileList()
    ensures FileList([]) == ""
    ensures Split(FileList([]), '\n') == [""]
  {
    var none: seq<string> := [];
    assert Take(none, FileCap) == [];
  }

  lemma ItemsLackNewline(files: seq<string>)
    requires forall k :: 0 <= k < |files| ==> '\n' !in files[k]
    ensures var items := FileItems(Take(files, FileCap)); forall k :: 0 <= k < |items| ==> '\n' !in items[k]
  {
    var items := FileItems(Take(files, FileCap));
    forall k | 0 <= k < |items|
      ensures '\n' !in items[k]
    {
      assert items[k] == "  - " + Take(files, FileCap)[k];
      assert Take(files, FileCap)[k] == files[k];
    }
  }

  lemma LongFileListSplits(files: seq<string>)
    requires |files| > FileCap
    requires var items := FileItems(Take(files, FileCap)); forall k :: 0 <= k < |items| ==> '\n' !in items[k]
    ensures Split(FileList(files), '\n') == FileListLines(files)
  {
    var items := FileItems(Take(files, FileCap));
    var more := MoreFilesLine(|files| - FileCap);
    LongFileList(files);
    SplitConcat(Join(items, '\n'), '\n', more);
    SplitJoin(items, '\n');
    SplitAbsent(more, '\n');
  }

  /** Past the cap, the list is the joined items, a newline and the line counting the rest, which holds no newline. */
  lemma LongFileList(files: seq<string>)
    requires |files| > FileCap
    ensures var more := MoreFilesLine(|files| - FileCap);
      && FileList(files) == Join(FileItems(Take(files, FileCap)), '\n') + ['\n'] + more
      && '\n' !in more
  {
    AppendAssoc(Join(FileItems(Take(files, FileCap)), '\n'), ['\n'], MoreFilesLine(|files| - FileCap));
    NumberLacks(|files| - FileCap, '\n');
  }

  // ---------------------------------------------------------------------------
  // status_summary
  // ---------------------------------------------------------------------------

  const StatusOpening: string :=
    "You are a helpful coding assistant analyzing git changes. \n"
    + "Analyze the following uncommitted changes and provide a concise, human-readable summary.\n"
    + "\n"
    + "**Changed Files:**\n"

  const StatusStatsHeading: string :=
    "\n"
    + "\n"
    + "**Statistics:**\n"

  const StatusDiffHeading: string :=
    "\n"
    + "\n"
    + "**Diff (may be truncated):**\n"
    + "```diff\n"

  const StatusClosing: string :=
    "\n"
    + "```\n"
    + "\n"
    + "**Instructions:**\n"
    + "1. Describe WHAT the developer is working on in 2-3 sentences\n"
    + "2. List the key changes as bullet points (max 5 bullets)\n"
    + "3. Note any potential issues or incomplete work if visible\n"
    + "\n"
    + "Format your response as:\n"
    + "## Summary\n"
    + "[2-3 sentence overview]\n"
    + "\n"
    + "## Key Changes\n"
    + "- [change 1]\n"
    + "- [change 2]\n"
    + "...\n"
    + "\n"
    + "## Notes\n"
    + "[Any observations about incomplete work, potential issues, etc. Skip if none.]\n"

  /** `Prompts.status_summary` */
  function StatusSummary(diff: string, stats: string, files: seq<string>): string {
    StatusOpening + FileList(files) + StatusStatsHeading + stats + StatusDiffHeading + diff + StatusClosing
  }

  /** The file list, the statistics and the diff all appear in the prompt as given. */
  lemma StatusSummaryEmbeds(diff: string, stats: string, files: seq<string>)
    ensures Contains(StatusSummary(diff, stats, files), FileList(files))
    ensures Contains(StatusSummary(diff, stats, files), stats)
    ensures Contains(StatusSummary(diff, stats, files), diff)
  {
    var x1 := StatusOpening + FileList(files);
    var x2 := x1 + StatusStatsHeading;
    var x3 := x2 + stats;
    var x4 := x3 + StatusDiffHeading;
    var x5 := x4 + diff;
    ContainsEnd(StatusOpening, FileList(files));
    ContainsExtended(x1, FileList(files), StatusStatsHeading);
    ContainsExtended(x2, FileList(files), stats);
    ContainsExtended(x3, FileList(files), StatusDiffHeading);
    ContainsExtended(x4, FileList(files), diff);
    ContainsExtended(x5, FileList(files), StatusClosing);
    ContainsEnd(x2, stats);
    ContainsExtended(x3, stats, StatusDiffHeading);
    ContainsExtended(x4, stats, diff);
    ContainsExtended(x5, stats, StatusClosing);
    ContainsEnd(x4, diff);
    ContainsExtended(x5, diff, StatusClosing);
  }

  /** The diff is placed unaltered: for given statistics and files, different diffs give different prompts. */
  lemma StatusSummaryKeepsDiff(d1: string, d2: string, stats: string, files: seq<string>)
    requires StatusSummary(d1, stats, files) == StatusSummary(d2, stats, files)
    ensures d1 == d2
  {
    CancelAround(StatusOpening + FileList(files) + StatusStatsHeading + stats + StatusDiffHeading, d1, d2, StatusClosing);
  }

  // ---------------------------------------------------------------------------
  // commit_message
  // ---------------------------------------------------------------------------

  const CommitOpening: string :=
    "You are a helpful coding assistant. Generate a conventional commit message for these changes.\n"
    + "\n"
    + "**Statistics:**\n"

  const CommitDiffHeading: string :=
    "\n"
    + "\n"
    + "**Diff:**\n"
    + "```diff\n"

  const CommitClosing: string :=
    "\n"
    + "```\n"
    + "\n"
    + "**Instructions:**\n"
    + "Generate a commit message following the Conventional Commits format:\n"
    + "- Type: feat, fix, docs, style, refactor, test, chore\n"
    + "- Scope: optional, in parentheses\n"
    + "- Description: imperative mood, lowercase, no period\n"
    + "\n"
    + "Examples:\n"
    + "- feat(auth): add JWT token refresh mechanism\n"
    + "- fix: resolve null pointer in user validation\n"
    + "- docs: update API documentation for v2 endpoints\n"
    + "\n"
    + "Respond with ONLY the commit message, nothing else.\n"

  /** `Prompts.commit_message` */
  function CommitMessage(diff: string, stats: string): string {
    CommitOpening + stats + CommitDiffHeading + diff + CommitClosing
  }

  /** The statistics and the diff appear in the prompt as given. */
  lemma CommitMessageEmbeds(diff: string, stats: string)
    ensures Contains(CommitMessage(diff, stats), stats)
    ensures Contains(CommitMessage(diff, stats), diff)
  {
    var x1 := CommitOpening + stats;
    var x2 := x1 + CommitDiffHeading;
    var x3 := x2 + diff;
    ContainsEnd(CommitOpening, stats);
    ContainsExtended(x1, stats, CommitDiffHeading);
    ContainsExtended(x2, stats, diff);
    ContainsExtended(x3, stats, CommitClosing);
    ContainsEnd(x2, diff);
    ContainsExtended(x3, diff, CommitClosing);
  }

  /** The diff is placed unaltered: for given statistics, different diffs give different prompts. */
  lemma CommitMessageKeepsDiff(d1: string, d2: string, stats: string)
    requires CommitMessage(d1, stats) == CommitMessage(d2, stats)
    ensures d1 == d2
  {
    CancelAround(CommitOpening + stats + CommitDiffHeading, d1, d2, CommitClosing);
  }

  // ---------------------------------------------------------------------------
  // progress_report
  // ---------------------------------------------------------------------------

  const ReportOpening: string :=
    "You are a helpful coding assistant creating a progress report.\n"
    + "\n"

  /** `f"**Period:** Last {days} days\n"` */
  function PeriodHeader(days: int): string {
    "**Period:** Last " + IntToString(days) + " days\n"
  }

  /** `f"**Total Commits:** {total_commits}\n"` */
  function TotalHeader(totalCommits: int): string {
    "**Total Commits:** " + IntToString(totalCommits) + "\n"
  }

  const HistoryHeading: string :=
    "\n"
    + "**Commit History:**\n"

  const ReportInstructions: string :=
    "\n"
    + "\n"
    + "**Instructions:**\n"
    + "Create a brief, developer-friendly progress report that:\n"
    + "1. Summarizes the main accomplishments in 2-3 sentences\n"
    + "2. Groups related commits into categories/features\n"
    + "3. Highlights any notable patterns (bug fixes, new features, refactoring)\n"
    + "\n"
    + "Format your response as:\n"
    + "\n"
    + "## Progress Summary\n"
    + "[2-3 sentence overview of accomplishments]\n"
    + "\n"
    + "## Work Completed\n"
    + "### [Category 1]\n"
    + "- [accomplishment]\n"
    + "- [accomplishment]\n"
    + "\n"
    + "### [Category 2]\n"
    + "- [accomplishment]\n"
    + "\n"
    + "## Statistics\n"

  /** `f"- Total commits: {total_commits}\n"` */
  function TotalStatistic(totalCommits: int): string {
    "- Total commits: " + IntToString(totalCommits) + "\n"
  }

  /** `f"- Period: {days} days\n"` */
  function PeriodStatistic(days: int): string {
    "- Period: " + IntToString(days) + " days\n"
  }

  /** `Prompts.progress_report` */
  function ProgressReport(commitsSummary: string, totalCommits: int, days: int): string {
    ReportOpening + PeriodHeader(days) + TotalHeader(totalCommits) + HistoryHeading
    + commitsSummary + ReportInstructions + TotalStatistic(totalCommits) + PeriodStatistic(days)
  }

  /**
   * The period and the commit count are stated twice: in the header that opens
   * the prompt and in the Statistics section that closes it; the commit history
   * is placed as given in between.
   */
  lemma ProgressReportStatesCounts(commitsSummary: string, totalCommits: int, days: int)
    ensures var r := ProgressReport(commitsSummary, totalCommits, days);
      && StartsWith(r, ReportOpening + PeriodHeader(days) + TotalHeader(totalCommits))
      && EndsWith(r, TotalStatistic(totalCommits) + PeriodStatistic(days))
      && Contains(r, commitsSummary)
  {
    Framed(ReportOpening + PeriodHeader(days) + TotalHeader(totalCommits), HistoryHeading, commitsSummary,
           ReportInstructions, TotalStatistic(totalCommits), PeriodStatistic(days));
  }

  /** A text built as `head + before + body + after + t1 + t2` opens with `head`, ends with `t1 + t2` and contains `body`. */
  lemma Framed(head: string, before: string, body: string, after: string, t1: string, t2: string)
    ensures var r := head + before + body + after + t1 + t2;
      && StartsWith(r, head)
      && EndsWith(r, t1 + t2)
      && Contains(r, body)
  {
    var x4 := head + before;
    var x5 := x4 + body;
    var x6 := x5 + after;
    var x7 := x6 + t1;
    var r := x7 + t2;
    assert StartsWith(r, head) by {
      StartsWithConcat(head, before);
      StartsWithExtended(x4, head, body);
      StartsWithExtended(x5, head, after);
      StartsWithExtended(x6, head, t1);
      StartsWithExtended(x7, head, t2);
    }
    assert EndsWith(r, t1 + t2) by {
      AppendAssoc(x6, t1, t2);
      CutAppended(x6, t1 + t2);
    }
    assert Contains(r, body) by {
      ContainsEnd(x4, body);
      ContainsExtended(x5, body, after);
      ContainsExtended(x6, body, t1);
      ContainsExtended(x7, body, t2);
    }
  }
}
