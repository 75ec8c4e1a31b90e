/**
 * `SlackSender`: the message blocks `send_report` builds, the commit list it
 * puts in them, and `_truncate`. The webhook post is not modelled.
 */
module Slack {
  import opened PyBuiltins
  import opened GitRecords

  /** `_truncate(text, max_length)`; a negative `max_length - 3` slices from the end, as in Python. */
  function Truncate(text: string, maxLength: int): (r: string)
    ensures |text| <= maxLength ==> r == text
    ensures |text| > maxLength && maxLength >= 3 ==> |r| == maxLength
    ensures |text| > maxLength && maxLength >= 3 ==> r == text[..maxLength - 3] + "..."
  {
    if |text| <= maxLength then text else Take(text, maxLength - 3) + "..."
  }

  /** The result never exceeds a budget of at least three characters, and keeps a prefix of the text. */
  lemma TruncateBounded(text: string, maxLength: int)
    requires maxLength >= 3
    ensures |Truncate(text, maxLength)| <= maxLength
    ensures exists n :: 0 <= n <= |text| && StartsWith(Truncate(text, maxLength), text[..n])
  {
    var r := Truncate(text, maxLength);
    if |text| <= maxLength {
      assert text[..|text|] == text;
      assert StartsWith(r, text[..|text|]);
    } else {
      var n := maxLength - 3;
      assert r[..n] == text[..n];
      assert StartsWith(r, text[..n]);
    }
  }

  /** The block kinds of a Slack message that `send_report` uses. */
  datatype Block =
    | Header(plainText: string)
    | Fields(fields: seq<string>)
    | Divider
    | Section(mrkdwn: string)
    | Context(mrkdwn: string)

  const SummaryHeading: string := "*\U{1F4DD} Summary*\n"
  const CommitsHeading: string := "*\U{1F4DC} Recent Commits*\n"
  const Footer: string := "_Sent by Git-Summarizer_ \U{1F680}"
  const ShownCommits: nat := 5
  const SubjectWidth: nat := 50

  /** `f"• {subject}\n"` with the subject cut to 50 characters. */
  function BulletLine(c: CommitInfo): string {
    "\U{2022} " + Take(c.subject, SubjectWidth) + "\n"
  }

  /** The bullet lines of `cs`, in order. */
  function BulletLines(cs: seq<CommitInfo>): string {
    if |cs| == 0 then "" else BulletLines(cs[..|cs| - 1]) + BulletLine(cs[|cs| - 1])
  }

  /** `f"_... and {n} more_"` */
  function MoreNote(n: int): string {
    "_... and " + IntToString(n) + " more_"
  }

  /** The text of the recent-commits section. */
  function CommitText(cs: seq<CommitInfo>): string {
    CommitsHeading + BulletLines(Take(cs, ShownCommits)) + (if |cs| > ShownCommits then MoreNote(|cs| - ShownCommits) else "")
  }

  /** The loop of `send_report` that builds the commit list. */
  method BuildCommitText(commits: seq<CommitInfo>) returns (text: string)
    ensures text == CommitText(commits)
  {
    var shown := Take(commits, ShownCommits);
    text := CommitsHeading;
    var i := 0;
    while i < |shown|
      invariant i <= |shown|
      invariant text == CommitsHeading + BulletLines(shown[..i])
    {
      assert shown[..i + 1][..i] == shown[..i];
      text := text + BulletLine(shown[i]);
      i := i + 1;
    }
    assert shown[..i] == shown;
    if |commits| > ShownCommits {
      text := text + MoreNote(|commits| - ShownCommits);
    }
  }

  /** The note is there exactly when more than five commits were given: the text then ends in `_`, otherwise in a newline. */
  lemma MoreNoteIffOverflow(cs: seq<CommitInfo>)
    ensures var t := CommitText(cs); t != "" && (t[|t| - 1] == '_' <==> |cs| > ShownCommits)
  {
    var t := CommitText(cs);
    if |cs| > ShownCommits {
      var note := MoreNote(|cs| - ShownCommits);
      assert note[|note| - 1] == '_';
    } else {
      var body := CommitsHeading + BulletLines(Take(cs, ShownCommits));
      assert t == body;
      assert body[|body| - 1] == '\n' by {
        LinesEndInNewline(Take(cs, ShownCommits));
      }
    }
  }

  /** The bullet lines are empty or end in a newline. */
  lemma LinesEndInNewline(cs: seq<CommitInfo>)
    ensures var b := CommitsHeading + BulletLines(cs); b != "" && b[|b| - 1] == '\n'
  {
    if |cs| > 0 {
      var line := BulletLine(cs[|cs| - 1]);
      assert line[|line| - 1] == '\n';
    }
  }

  /** Only the first five commits are listed: later ones change nothing but the count. */
  lemma OnlyFirstFiveListed(cs: seq<CommitInfo>, more: seq<CommitInfo>)
    requires |cs| >= ShownCommits
    ensures CommitText(cs + more) == CommitsHeading + BulletLines(cs[..ShownCommits])
      + (if |cs| + |more| > ShownCommits then MoreNote(|cs| + |more| - ShownCommits) else "")
  {
    assert Take(cs + more, ShownCommits) == cs[..ShownCommits];
  }

  /** Each listed commit contributes its own line, in order: the lines of a concatenation concatenate. */
  lemma {:induction false} BulletLinesConcat(a: seq<CommitInfo>, b: seq<CommitInfo>)
    ensures BulletLines(a + b) == BulletLines(a) + BulletLines(b)
    decreases |b|
  {
    if |b| == 0 {
      assert a + b == a;
    } else {
      var init, last := b[..|b| - 1], b[|b| - 1];
      assert BulletLines(a + b) == BulletLines(a + init) + BulletLine(last) by {
        assert (a + b)[..|a + b| - 1] == a + init;
      }
      BulletLinesConcat(a, init);
    }
  }

  /** The inputs of `send_report`; the average is a float and stays an opaque text. */
  datatype Report = Report(repoName: string, days: int, totalCommits: int, averageText: string,
                           reportText: string, commits: seq<CommitInfo>)

  /** The four fixed blocks that open every message. */
  function OpeningBlocks(r: Report): seq<Block> {
    [ Header("\U{1F4CA} Git Progress Report"),
      Fields([ "*Repository:*\n" + r.repoName,
               "*Period:*\nLast " + IntToString(r.days) + " days",
               "*Total Commits:*\n" + IntToString(r.totalCommits),
               "*Average:*\n" + r.averageText + " commits/day" ]),
      Divider,
      Section(SummaryHeading + Truncate(r.reportText, 2500)) ]
  }

  /** The message blocks of `send_report`. */
  function ReportBlocks(r: Report): seq<Block> {
    OpeningBlocks(r)
    + (if |r.commits| > 0 then [Section(CommitText(r.commits))] else [])
    + [Divider, Context(Footer)]
  }

  /** `send_report` up to the post: the block list, extended step by step. */
  method BuildBlocks(r: Report) returns (blocks: seq<Block>)
    ensures blocks == ReportBlocks(r)
  {
    blocks := OpeningBlocks(r);
    if |r.commits| > 0 {
      var commitText := BuildCommitText(r.commits);
      blocks := blocks + [Section(commitText)];
    }
    blocks := blocks + [Divider];
    blocks := blocks + [Context(Footer)];
  }

  /** The shape of every message: the opening blocks, the commit section only when there are commits, then a divider and the footer. */
  lemma BlocksShape(r: Report)
    ensures var b := ReportBlocks(r);
      && |b| == (if |r.commits| > 0 then 7 else 6)
      && b[..4] == OpeningBlocks(r)
      && b[|b| - 2] == Divider && b[|b| - 1] == Context(Footer)
      && (|r.commits| > 0 ==> b[4] == Section(CommitText(r.commits)))
  {
  }

  /** The summary section holds at most 2500 characters of the report, after its heading. */
  lemma SummaryBounded(r: Report)
    ensures ReportBlocks(r)[3] == Section(SummaryHeading + Truncate(r.reportText, 2500))
    ensures |Truncate(r.reportText, 2500)| <= 2500
  {
  }
}
