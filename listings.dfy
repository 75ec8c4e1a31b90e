/**
 * The decisions `OutputFormatter` takes before handing text to the console:
 * the capped groups of `print_status`, the rows of `print_commits_table`,
 * the line-capped `print_diff_preview` and the wording of
 * `print_last_activity`. Each printed line is modelled as the markup text
 * given to the console; panels, tables and colours are not modelled.
 */
module Listings {
  import opened Wrappers
  import opened PyBuiltins
  import opened GitRecords

  // ---------------------------------------------------------------------------
  // print_status
  // ---------------------------------------------------------------------------

  const StagedCap: nat := 5
  const ModifiedCap: nat := 5
  const UntrackedCap: nat := 3

  const StagedHeading: string := "\n[bold green]\U{2713} Staged ("
  const ModifiedHeading: string := "\n[bold yellow]\U{25CF} Modified ("
  const UntrackedHeading: string := "\n[dim]? Untracked ("
  const StagedBullet: string := "  [green]\U{2022}[/] "
  const ModifiedBullet: string := "  [yellow]\U{2022}[/] "
  const UntrackedBullet: string := "  [dim]\U{2022}[/] "

  /** The start every overflow line shares. */
  const MorePrefix: string := "  [dim]... and "

  /** `f"  [dim]... and {n} more[/]"` */
  function MoreLine(n: int): string {
    MorePrefix + IntToString(n) + " more[/]"
  }

  /** `f"{heading}{len(files)}):[/]"` */
  function GroupHeading(heading: string, n: int): string {
    heading + IntToString(n) + "):[/]"
  }

  /** `f"  [green]•[/] {f}"` and its yellow and dim variants. */
  function EntryLine(bullet: string, file: string): string {
    bullet + file
  }

  /** The entry lines of a group: one bulleted line per shown file, in order. */
  function EntryLines(bullet: string, shown: seq<string>): (lines: seq<string>)
    ensures |lines| == |shown|
    ensures forall k :: 0 <= k < |shown| ==> lines[k] == EntryLine(bullet, shown[k])
  {
    seq(|shown|, k requires 0 <= k < |shown| => EntryLine(bullet, shown[k]))
  }

  /** The overflow line, when there are more files than the cap. */
  function OverflowLines(total: int, cap: nat): seq<string> {
    if total > cap then [MoreLine(total - cap)] else []
  }

  /** One group of `print_status`: nothing for no files, else its heading with the count, the first `cap` files and the overflow line. */
  function StatusGroup(heading: string, bullet: string, files: seq<string>, cap: nat): seq<string> {
    if |files| == 0 then []
    else [GroupHeading(heading, |files|)] + EntryLines(bullet, Take(files, cap)) + OverflowLines(|files|, cap)
  }

  /** The status icon and text of the branch panel. */
  function BranchLine(branch: string, isDirty: bool): string {
    "\U{1F4CD} [bold cyan]" + branch + "[/] "
    + (if isDirty then "\U{1F534}" else "\U{1F7E2}") + " "
    + (if isDirty then "Has uncommitted changes" else "Clean")
  }

  /** The panel names the branch first, and reads "Clean" at its end exactly when nothing is uncommitted. */
  lemma BranchLineStates(branch: string, isDirty: bool)
    ensures StartsWith(BranchLine(branch, isDirty), "\U{1F4CD} [bold cyan]" + branch)
    ensures EndsWith(BranchLine(branch, isDirty), "Clean") <==> !isDirty
  {
    var head := "\U{1F4CD} [bold cyan]" + branch;
    var icon := if isDirty then "\U{1F534}" else "\U{1F7E2}";
    var text := if isDirty then "Has uncommitted changes" else "Clean";
    var x1 := head + "[/] ";
    var x2 := x1 + icon;
    var x3 := x2 + " ";
    assert StartsWith(x3 + text, head) by {
      StartsWithConcat(head, "[/] ");
      StartsWithExtended(x1, head, icon);
      StartsWithExtended(x2, head, " ");
      StartsWithExtended(x3, head, text);
    }
    EndOfAppended(x3, text, 5);
    if isDirty {
      assert text[|text| - 5] == 'a';
    } else {
      assert text[|text| - 5..] == text;
    }
  }

  /** The lines `print_status` prints after the branch panel. */
  function StatusLines(staged: seq<string>, modified: seq<string>, untracked: seq<string>): seq<string> {
    StatusGroup(StagedHeading, StagedBullet, staged, StagedCap)
    + StatusGroup(ModifiedHeading, ModifiedBullet, modified, ModifiedCap)
    + StatusGroup(UntrackedHeading, UntrackedBullet, untracked, UntrackedCap)
  }

  /**
   * A group lists its files in order up to the cap, and says how many more
   * there are exactly when the cap is exceeded; the shown and the untold
   * files together are all of them.
   */
  lemma StatusGroupShape(heading: string, bullet: string, files: seq<string>, cap: nat)
    ensures var g := StatusGroup(heading, bullet, files, cap);
      var shown := if |files| <= cap then |files| else cap;
      && (g == [] <==> files == [])
      && (files != [] ==>
          && |g| == 1 + shown + (if |files| > cap then 1 else 0)
          && g[0] == GroupHeading(heading, |files|)
          && (forall k :: 0 <= k < shown ==> g[1 + k] == EntryLine(bullet, files[k]))
          && (|files| > cap ==> g[|g| - 1] == MoreLine(|files| - cap) && shown + (|files| - cap) == |files|))
  {
    if files != [] {
      var g := StatusGroup(heading, bullet, files, cap);
      var shown := Take(files, cap);
      var entries := EntryLines(bullet, shown);
      var tail := OverflowLines(|files|, cap);
      forall k | 0 <= k < |entries|
        ensures g[1 + k] == EntryLine(bullet, files[k])
      {
        assert g[1 + k] == entries[k];
        assert shown[k] == files[k];
      }
      if |files| > cap {
        assert g[|g| - 1] == tail[0];
      }
    }
  }

  /** A group of `n` files has a last line after its heading, and that line is an overflow line exactly when `n` is over the cap. */
  predicate OverflowMarked(g: seq<string>, n: int, cap: int) {
    |g| >= 2 && (StartsWith(g[|g| - 1], MorePrefix) <==> n > cap)
  }

  /** The last line of a group is an overflow line exactly when the group is over its cap. */
  lemma OverflowNoted(heading: string, bullet: string, files: seq<string>, cap: nat, k: nat)
    requires files != [] && cap > 0
    requires k < |MorePrefix| && k < |bullet| && bullet[k] != MorePrefix[k]
    ensures OverflowMarked(StatusGroup(heading, bullet, files, cap), |files|, cap)
  {
    StatusGroupShape(heading, bullet, files, cap);
    if |files| <= cap {
      EntryNotOverflow(bullet, files[|files| - 1], k);
      assert StatusGroup(heading, bullet, files, cap)[|files|] == EntryLine(bullet, files[|files| - 1]);
    } else {
      StartsWithConcat(MorePrefix, IntToString(|files| - cap) + " more[/]");
    }
  }

  /** An entry line whose bullet differs from the overflow prefix at `k` is no overflow line. */
  lemma EntryNotOverflow(bullet: string, file: string, k: nat)
    requires k < |MorePrefix| && k < |bullet| && bullet[k] != MorePrefix[k]
    ensures !StartsWith(EntryLine(bullet, file), MorePrefix)
  {
    var line := EntryLine(bullet, file);
    if |MorePrefix| <= |line| {
      assert line[..|MorePrefix|][k] == line[k];
    }
  }

  /** Each status bullet differs from the overflow prefix at some character. */
  lemma BulletsDiffer()
    ensures |StagedBullet| > 3 && |ModifiedBullet| > 3 && |UntrackedBullet| > 7 && |MorePrefix| > 7
    ensures StagedBullet[3] != MorePrefix[3] && ModifiedBullet[3] != MorePrefix[3] && UntrackedBullet[7] != MorePrefix[7]
  {
  }

  /** In every status group the overflow line is there exactly when the group is over its cap. */
  lemma StatusOverflowNoted(staged: seq<string>, modified: seq<string>, untracked: seq<string>)
    ensures staged != [] ==> var g := StatusGroup(StagedHeading, StagedBullet, staged, StagedCap);
      OverflowMarked(g, |staged|, StagedCap)
    ensures modified != [] ==> var g := StatusGroup(ModifiedHeading, ModifiedBullet, modified, ModifiedCap);
      OverflowMarked(g, |modified|, ModifiedCap)
    ensures untracked != [] ==> var g := StatusGroup(UntrackedHeading, UntrackedBullet, untracked, UntrackedCap);
      OverflowMarked(g, |untracked|, UntrackedCap)
  {
    BulletsDiffer();
    if staged != [] { OverflowNoted(StagedHeading, StagedBullet, staged, StagedCap, 3); }
    if modified != [] { OverflowNoted(ModifiedHeading, ModifiedBullet, modified, ModifiedCap, 3); }
    if untracked != [] { OverflowNoted(UntrackedHeading, UntrackedBullet, untracked, UntrackedCap, 7); }
  }

  // ---------------------------------------------------------------------------
  // print_commits_table
  // ---------------------------------------------------------------------------

  const TableRows: nat := 15
  const SubjectWidth: nat := 50

  /** A row of the commits table. */
  datatype Row = Row(number: string, date: string, message: string, author: string)

  /** `subject[:50] + "..." if len(subject) > 50 else subject` */
  function SubjectDisplay(subject: string): (d: string)
    ensures |subject| <= SubjectWidth ==> d == subject
    ensures |subject| > SubjectWidth ==> |d| == SubjectWidth + 3 && d[..SubjectWidth] == subject[..SubjectWidth] && d[SubjectWidth..] == "..."
  {
    if |subject| > SubjectWidth then subject[..SubjectWidth] + "..." else subject
  }

  /** The row of the commit numbered `i`; `formatDate` stands for `strftime("%m/%d")`. */
  function CommitRow(i: int, c: CommitInfo, formatDate: string -> string): Row {
    Row(IntToString(i), formatDate(c.date), SubjectDisplay(c.subject), c.author)
  }

  /** The row that reports the commits left out. */
  function OverflowRow(n: int): Row {
    Row("", "", "[dim]... and " + IntToString(n) + " more[/]", "")
  }

  /** `enumerate(shown, 1)`: one row per commit, numbered from 1. */
  function NumberedRows(shown: seq<CommitInfo>, formatDate: string -> string): (rows: seq<Row>)
    ensures |rows| == |shown|
    ensures forall k :: 0 <= k < |shown| ==> rows[k] == CommitRow(k + 1, shown[k], formatDate)
  {
    seq(|shown|, k requires 0 <= k < |shown| => CommitRow(k + 1, shown[k], formatDate))
  }

  /** `print_commits_table`: no table for no commits, else rows numbered from 1 for the first 15 and an overflow row. */
  function CommitRows(commits: seq<CommitInfo>, formatDate: string -> string): Option<seq<Row>> {
    if |commits| == 0 then None
    else
      Some(NumberedRows(Take(commits, TableRows), formatDate)
        + (if |commits| > TableRows then [OverflowRow(|commits| - TableRows)] else []))
  }

  /**
   * The table has at most 16 rows: row `k` shows commit `k` under the number
   * `k + 1` (reading the number back gives `k + 1`), and one last row counts the
   * commits past the fifteenth.
   */
  lemma CommitRowsShape(commits: seq<CommitInfo>, formatDate: string -> string)
    ensures CommitRows(commits, formatDate).None? <==> commits == []
    ensures commits != [] ==>
      var rows := CommitRows(commits, formatDate).value;
      var shown := if |commits| <= TableRows then |commits| else TableRows;
      && |rows| == shown + (if |commits| > TableRows then 1 else 0) <= TableRows + 1
      && (forall k :: 0 <= k < shown ==> RowShows(rows[k], k, commits[k], formatDate))
      && (|commits| > TableRows ==> rows[|rows| - 1] == OverflowRow(|commits| - TableRows))
  {
    if commits != [] {
      var shown := if |commits| <= TableRows then |commits| else TableRows;
      forall k | 0 <= k < shown
        ensures RowShows(CommitRows(commits, formatDate).value[k], k, commits[k], formatDate)
      {
        CommitRowAt(commits, formatDate, k);
      }
    }
  }

  /** Row `k` of the table shows commit `c` under the number `k + 1`. */
  predicate RowShows(row: Row, k: int, c: CommitInfo, formatDate: string -> string) {
    && PyInt(row.number) == Some(k + 1)
    && row.date == formatDate(c.date)
    && row.message == SubjectDisplay(c.subject)
    && row.author == c.author
  }

  /** One shown row of a non-empty table. */
  lemma CommitRowAt(commits: seq<CommitInfo>, formatDate: string -> string, k: nat)
    requires k < |commits| && k < TableRows
    ensures |CommitRows(commits, formatDate).value| > k
    ensures RowShows(CommitRows(commits, formatDate).value[k], k, commits[k], formatDate)
  {
    var shown := Take(commits, TableRows);
    var numbered := NumberedRows(shown, formatDate);
    var rows := CommitRows(commits, formatDate).value;
    assert rows[k] == numbered[k];
    assert shown[k] == commits[k];
    PyIntOfIntToString(k + 1);
  }

  /** A shown subject keeps at most its first 50 characters, and at most 53 are shown. */
  lemma SubjectDisplayBounded(subject: string)
    ensures var d := SubjectDisplay(subject);
      |d| <= SubjectWidth + 3 && StartsWith(d, Take(subject, SubjectWidth))
  {
  }

  // ---------------------------------------------------------------------------
  // print_diff_preview
  // ---------------------------------------------------------------------------

  /** `f"\n... ({n} more lines)"` */
  function MoreLinesNote(n: int): string {
    "\n... (" + IntToString(n) + " more lines)"
  }

  /** `print_diff_preview`: nothing for a blank diff, else the first `maxLines` lines and a note of how many are left. */
  function DiffPreview(diff: string, maxLines: int): Option<string> {
    if Strip(diff) == "" then None
    else
      var lines := Split(diff, '\n');
      var preview := Join(Take(lines, maxLines), '\n');
      Some(if |lines| > maxLines then preview + MoreLinesNote(|lines| - maxLines) else preview)
  }

  /** Exactly a whitespace-only diff prints nothing. */
  lemma PreviewBlank(diff: string, maxLines: int)
    ensures DiffPreview(diff, maxLines).None? <==> AllSpace(diff)
  {
    StripEmpty(diff);
  }

  /** A diff within the line budget is shown whole, with no note. */
  lemma PreviewWhole(diff: string, maxLines: int)
    requires Strip(diff) != "" && |Split(diff, '\n')| <= maxLines
    ensures DiffPreview(diff, maxLines) == Some(diff)
  {
    var lines := Split(diff, '\n');
    assert Take(lines, maxLines) == lines;
    assert Join(lines, '\n') == diff by {
      JoinSplit(diff, '\n');
    }
  }

  /**
   * A longer diff is cut after `maxLines` lines: the preview is exactly those
   * lines, followed by the note, and the note counts exactly the lines of the
   * rest of the diff.
   */
  lemma PreviewCut(diff: string, maxLines: int)
    requires Strip(diff) != "" && 1 <= maxLines < |Split(diff, '\n')|
    ensures var lines := Split(diff, '\n');
      var shown, rest := Join(Take(lines, maxLines), '\n'), Join(DropFrom(lines, maxLines), '\n');
      && DiffPreview(diff, maxLines) == Some(shown + MoreLinesNote(|lines| - maxLines))
      && diff == shown + ['\n'] + rest
      && Split(shown, '\n') == Take(lines, maxLines) && |Take(lines, maxLines)| == maxLines
      && |Split(rest, '\n')| == |lines| - maxLines
  {
    PreviewCutText(diff, maxLines);
    SplitCut(diff, maxLines, '\n');
  }

  /** Past the limit the preview is the first lines and the note. */
  lemma PreviewCutText(diff: string, maxLines: int)
    requires Strip(diff) != "" && 1 <= maxLines < |Split(diff, '\n')|
    ensures var lines := Split(diff, '\n');
      DiffPreview(diff, maxLines) == Some(Join(Take(lines, maxLines), '\n') + MoreLinesNote(|lines| - maxLines))
  {
  }

  // ---------------------------------------------------------------------------
  // print_last_activity
  // ---------------------------------------------------------------------------

  /** A `timedelta` by its `days` and `seconds` attributes. */
  datatype Delta = Delta(days: int, seconds: int)

  /** Python keeps the `seconds` of a `timedelta` within one day. */
  predicate Normalised(d: Delta) {
    0 <= d.seconds < 86400
  }

  /** The wording `print_last_activity` picks. */
  datatype Bucket = MinutesAgo(minutes: int) | HoursAgo(hours: int) | Yesterday | DaysAgo(days: int)

  /** The branch chain of `print_last_activity`: the count shown is the elapsed time rounded down. */
  function Bucketing(d: Delta): (b: Bucket)
    requires Normalised(d)
    ensures b.MinutesAgo? <==> d.days == 0 && d.seconds < 3600
    ensures b.MinutesAgo? ==> 0 <= b.minutes < 60 && b.minutes * 60 <= d.seconds < b.minutes * 60 + 60
    ensures b.HoursAgo? <==> d.days == 0 && d.seconds >= 3600
    ensures b.HoursAgo? ==> 1 <= b.hours <= 23 && b.hours * 3600 <= d.seconds < b.hours * 3600 + 3600
    ensures b.Yesterday? <==> d.days == 1
    ensures b.DaysAgo? <==> d.days != 0 && d.days != 1
    ensures b.DaysAgo? ==> b.days == d.days
  {
    if d.days == 0 then
      if d.seconds < 3600 then MinutesAgo(d.seconds / 60) else HoursAgo(d.seconds / 3600)
    else if d.days == 1 then Yesterday
    else DaysAgo(d.days)
  }

  /** `time_str` */
  function ActivityText(b: Bucket): string {
    match b
    case MinutesAgo(n) => IntToString(n) + " minutes ago"
    case HoursAgo(n) => IntToString(n) + " hours ago"
    case Yesterday => "Yesterday"
    case DaysAgo(n) => IntToString(n) + " days ago"
  }

  /** The text before the wording of the last-activity line. */
  const ActivityLead: string := "\U{1F550} Last activity: [bold]"

  /** The text after the wording: the timestamp in brackets. */
  function StampNote(stamp: string): string {
    "[/] [dim](" + stamp + ")[/]"
  }

  /** The line of `print_last_activity`, or nothing without a last activity; `stamp` stands for `strftime('%Y-%m-%d %H:%M')`. */
  function LastActivityLine(delta: Option<Delta>, stamp: string): (r: Option<string>)
    requires delta.Some? ==> Normalised(delta.value)
    ensures r.Some? <==> delta.Some?
  {
    match delta
    case None => None
    case Some(d) => Some(ActivityLead + ActivityText(Bucketing(d)) + StampNote(stamp))
  }

  /** The printed line shows the wording of the elapsed time right after its lead, and closes with the timestamp. */
  lemma ActivityLineShows(d: Delta, stamp: string)
    requires Normalised(d)
    ensures var line, t := LastActivityLine(Some(d), stamp).value, ActivityText(Bucketing(d));
      && StartsWith(line, ActivityLead + t)
      && line[|ActivityLead|..|ActivityLead| + |t|] == t
      && EndsWith(line, StampNote(stamp))
  {
    var t := ActivityText(Bucketing(d));
    var head := ActivityLead + t;
    StartsWithConcat(head, StampNote(stamp));
    CutAppended(head, StampNote(stamp));
    CutAppended(ActivityLead, t);
  }

  /** The word that follows the count in a wording with a count. */
  function Unit(b: Bucket): string {
    match b
    case MinutesAgo(_) => " minutes ago"
    case HoursAgo(_) => " hours ago"
    case Yesterday => ""
    case DaysAgo(_) => " days ago"
  }

  /** The count a wording shows. */
  function Count(b: Bucket): int
    requires !b.Yesterday?
  {
    match b
    case MinutesAgo(n) => n
    case HoursAgo(n) => n
    case DaysAgo(n) => n
  }

  /** A wording with a count ends in its own unit, and reading the text before the unit with `int()` gives the count back. */
  lemma ActivityCountReadsBack(b: Bucket)
    requires !b.Yesterday?
    ensures var t, u := ActivityText(b), Unit(b);
      && |u| < |t| && t[|t| - |u|..] == u
      && PyInt(t[..|t| - |u|]) == Some(Count(b))
  {
    var t, u, c := ActivityText(b), Unit(b), IntToString(Count(b));
    assert t == c + u;
    CutAppended(c, u);
    PyIntOfIntToString(Count(b));
  }

  /** The three units differ from each other and from "Yesterday", so the unit tells the bucket's kind. */
  lemma UnitsDistinct()
    ensures Unit(MinutesAgo(0)) != Unit(HoursAgo(0)) && Unit(MinutesAgo(0)) != Unit(DaysAgo(0)) && Unit(HoursAgo(0)) != Unit(DaysAgo(0))
    ensures forall n :: ActivityText(MinutesAgo(n)) != "Yesterday" && ActivityText(HoursAgo(n)) != "Yesterday" && ActivityText(DaysAgo(n)) != "Yesterday"
  {
    assert |Unit(MinutesAgo(0))| == 12 && |Unit(HoursAgo(0))| == 10 && |Unit(DaysAgo(0))| == 9;
    forall n: int
      ensures ActivityText(MinutesAgo(n)) != "Yesterday" && ActivityText(HoursAgo(n)) != "Yesterday" && ActivityText(DaysAgo(n)) != "Yesterday"
    {
      NotYesterday(n, " minutes ago");
      NotYesterday(n, " hours ago");
      NotYesterday(n, " days ago");
    }
  }

  /** A count followed by an ending of nine or more characters is longer than "Yesterday". */
  lemma NotYesterday(n: int, suffix: string)
    requires |suffix| >= 9
    ensures IntToString(n) + suffix != "Yesterday"
  {
  }
}
