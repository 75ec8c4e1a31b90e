/**
 * `GitAnalyzer._parse_diff_stats` and `get_commit_diff`: the file names of
 * `git diff --stat`, the insertion and deletion totals of its summary line,
 * and the truncation of a diff to a character budget.
 */
module DiffStats {
  import opened Wrappers
  import opened PyBuiltins
  import opened GitRecords

  // ---------------------------------------------------------------------------
  // File names
  // ---------------------------------------------------------------------------

  /** The lines `_parse_diff_stats` visits: `stat_output.strip().split('\n')`. */
  function StatLines(stat: string): seq<string> {
    Split(Strip(stat), '\n')
  }

  /** `'|' in line`: a per-file line of the stat output. */
  predicate IsStatLine(line: string) {
    '|' in line
  }

  /** `line.split('|')[0].strip()` */
  function StatFileName(line: string): string {
    Strip(Split(line, '|')[0])
  }

  /** The `files` list for a sequence of stat lines. */
  function StatFilesOfLines(lines: seq<string>): seq<string> {
    FilterMap(lines, IsStatLine, StatFileName)
  }

  /** The loop of `_parse_diff_stats` that collects file names. */
  method ScanStatLines(lines: seq<string>) returns (files: seq<string>)
    ensures files == StatFilesOfLines(lines)
  {
    files := [];
    var i := 0;
    while i < |lines|
      invariant 0 <= i <= |lines|
      invariant files == FilterMap(lines[..i], IsStatLine, StatFileName)
    {
      var line := lines[i];
      assert lines[..i + 1] == lines[..i] + [line];
      FilterMapSnoc(lines[..i], line, IsStatLine, StatFileName);
      if '|' in line {
        var filename := Strip(Split(line, '|')[0]);
        files := files + [filename];
      }
      i := i + 1;
    }
    assert lines[..|lines|] == lines;
  }

  /** The name of a stat line is the trimmed text before its first `|`. */
  lemma StatFileNameBeforeBar(line: string)
    requires IsStatLine(line)
    ensures var i := IndexOf(line, '|');
      i < |line| && '|' !in line[..i] && StatFileName(line) == Strip(line[..i])
  {
    SplitUnfold(line, '|');
  }

  /** `files` holds exactly the names of the lines with a `|`. */
  lemma StatFilesMembership(lines: seq<string>, f: string)
    ensures f in StatFilesOfLines(lines) <==>
      exists k :: 0 <= k < |lines| && IsStatLine(lines[k]) && StatFileName(lines[k]) == f
  {
    FilterMapMember(lines, IsStatLine, StatFileName, f);
  }

  /** A line without `|`, such as the summary line, adds no file. */
  lemma SummaryLineAddsNoFile(lines: seq<string>, summary: string)
    requires '|' !in summary
    ensures StatFilesOfLines(lines + [summary]) == StatFilesOfLines(lines)
  {
    FilterMapSnoc(lines, summary, IsStatLine, StatFileName);
  }

  /** One per-file line of `git diff --stat`: ` <name><pad> | <change>`, where
      `pad` spaces bring the names to a common column. */
  datatype StatEntry = StatEntry(name: string, pad: nat, change: string)

  /** `n` spaces. */
  function Spaces(n: nat): (s: string)
    ensures |s| == n && AllSpace(s)
    ensures forall k :: 0 <= k < n ==> s[k] == ' '
  {
    seq(n, k => ' ')
  }

  predicate WellFormedEntry(e: StatEntry) {
    && e.name != "" && IsStripped(e.name) && '|' !in e.name && '\n' !in e.name
    && '\n' !in e.change
  }

  /** The line without its leading space. */
  function StatEntryCore(e: StatEntry): string {
    e.name + (Spaces(e.pad) + " | ") + e.change
  }

  function StatEntryLine(e: StatEntry): string {
    [' '] + StatEntryCore(e)
  }

  function StatEntryLines(es: seq<StatEntry>): (lines: seq<string>)
    ensures |lines| == |es|
  {
    if |es| == 0 then [] else [StatEntryLine(es[0])] + StatEntryLines(es[1..])
  }

  function EntryNames(es: seq<StatEntry>): (names: seq<string>)
    ensures |names| == |es|
  {
    if |es| == 0 then [] else [es[0].name] + EntryNames(es[1..])
  }

  /** The stat output: the file lines, the summary line, and a final newline. */
  function StatText(es: seq<StatEntry>, summary: string): string {
    Join(StatEntryLines(es) + [summary, ""], '\n')
  }

  /** The lines of the stripped stat output: the first has lost its leading space. */
  function StrippedStatLines(es: seq<StatEntry>, summary: string): seq<string>
    requires |es| >= 1
  {
    [StatEntryCore(es[0])] + StatEntryLines(es[1..]) + [summary]
  }

  /** `files` is the entries' names in order, although the strip of the whole
      output cuts the first line's leading space: each name is stripped again. */
  lemma StatTextRoundTrip(es: seq<StatEntry>, summary: string)
    requires |es| >= 1 && forall k :: 0 <= k < |es| ==> WellFormedEntry(es[k])
    requires '|' !in summary && '\n' !in summary && summary != "" && !IsSpace(summary[|summary| - 1])
    ensures StatFilesOfLines(StatLines(StatText(es, summary))) == EntryNames(es)
  {
    StatTextStrip(es, summary);
    StatTextSplit(es, summary);
    StrippedNames(es, summary);
  }

  /** The outer strip removes the leading space and the final newline. */
  lemma StatTextStrip(es: seq<StatEntry>, summary: string)
    requires |es| >= 1 && WellFormedEntry(es[0])
    requires summary != "" && !IsSpace(summary[|summary| - 1])
    ensures Strip(StatText(es, summary)) == Join(StrippedStatLines(es, summary), '\n')
  {
    StatTextFramed(es, summary);
    StrippedLinesJoined(es, summary);
    StripSurrounded([' '], Join(StrippedStatLines(es, summary), '\n'), "\n");
  }

  /** The stripped lines joined start with the first name and end with the summary, so have no space at either end. */
  lemma StrippedLinesJoined(es: seq<StatEntry>, summary: string)
    requires |es| >= 1 && WellFormedEntry(es[0])
    requires summary != "" && !IsSpace(summary[|summary| - 1])
    ensures var body := Join(StrippedStatLines(es, summary), '\n'); body != [] && IsStripped(body)
  {
    var lines := StrippedStatLines(es, summary);
    assert lines[0][0] == es[0].name[0];
    JoinFirst(lines, '\n');
    JoinLast(lines, '\n');
  }

  /** The stat output is a space, the stripped lines joined, and a newline. */
  lemma StatTextFramed(es: seq<StatEntry>, summary: string)
    requires |es| >= 1
    ensures StatText(es, summary) == [' '] + Join(StrippedStatLines(es, summary), '\n') + "\n"
  {
    JoinFramed(StatEntryCore(es[0]), StatEntryLines(es[1..]), summary, '\n');
  }

  /** Joining lines whose first has a leading space and whose last is empty. */
  lemma JoinFramed(first: string, mid: seq<string>, last: string, sep: char)
    ensures Join([[' '] + first] + mid + [last, ""], sep) == [' '] + Join([first] + mid + [last], sep) + [sep]
  {
    var rest := mid + [last];
    assert [[' '] + first] + mid + [last, ""] == [[' '] + first] + (rest + [""]);
    JoinCons([' '] + first, rest + [""], sep);
    JoinConcat(rest, [""], sep);
    assert [first] + mid + [last] == [first] + rest;
    JoinCons(first, rest, sep);
  }

  /** Splitting the stripped text gives back its lines. */
  lemma StatTextSplit(es: seq<StatEntry>, summary: string)
    requires |es| >= 1 && forall k :: 0 <= k < |es| ==> WellFormedEntry(es[k])
    requires '\n' !in summary
    ensures Split(Join(StrippedStatLines(es, summary), '\n'), '\n') == StrippedStatLines(es, summary)
  {
    var parts := StrippedStatLines(es, summary);
    var tail := StatEntryLines(es[1..]);
    StatEntryLinesNoNewline(es[1..]);
    EntryNoNewline(es[0]);
    forall k | 0 <= k < |parts| ensures '\n' !in parts[k] {
      if 0 < k < |parts| - 1 {
        assert parts[k] == tail[k - 1];
      }
    }
    SplitJoin(parts, '\n');
  }

  /** A character that is neither a space nor a bar and occurs in no field
      occurs nowhere in the entry's line. */
  lemma EntryLacks(e: StatEntry, c: char)
    requires c != ' ' && c != '|' && c !in e.name && c !in e.change
    ensures c !in StatEntryCore(e) && c !in StatEntryLine(e)
  {
    var core := StatEntryCore(e);
    var mid := Spaces(e.pad) + " | ";
    assert c !in mid by {
      forall j | 0 <= j < |mid| ensures mid[j] != c {
        if j < e.pad {
          assert mid[j] == ' ';
        }
      }
    }
    forall j | 0 <= j < |core| ensures core[j] != c {
      if j < |e.name| {
        assert core[j] == e.name[j];
      } else if j < |e.name| + |mid| {
        assert core[j] == mid[j - |e.name|];
      } else {
        assert core[j] == e.change[j - |e.name| - |mid|];
      }
    }
    assert StatEntryLine(e)[1..] == core;
  }

  lemma EntryNoNewline(e: StatEntry)
    requires WellFormedEntry(e)
    ensures '\n' !in StatEntryCore(e) && '\n' !in StatEntryLine(e)
  {
    EntryLacks(e, '\n');
  }

  lemma {:induction false} StatEntryLinesLack(es: seq<StatEntry>, c: char)
    requires c != ' ' && c != '|'
    requires forall k :: 0 <= k < |es| ==> c !in es[k].name && c !in es[k].change
    ensures forall k :: 0 <= k < |es| ==> c !in StatEntryLines(es)[k]
  {
    if |es| > 0 {
      StatEntryLinesLack(es[1..], c);
      EntryLacks(es[0], c);
      var lines := StatEntryLines(es);
      forall k | 0 < k < |es| ensures lines[k] == StatEntryLines(es[1..])[k - 1] { }
    }
  }

  lemma StatEntryLinesNoNewline(es: seq<StatEntry>)
    requires forall k :: 0 <= k < |es| ==> WellFormedEntry(es[k])
    ensures forall k :: 0 <= k < |es| ==> '\n' !in StatEntryLines(es)[k]
  {
    StatEntryLinesLack(es, '\n');
  }

  /** Without `(` in the entries and the summary, no `(` is in the stat text. */
  lemma NoParenthesis(es: seq<StatEntry>, summary: string)
    requires forall k :: 0 <= k < |es| ==> '(' !in es[k].name && '(' !in es[k].change
    requires '(' !in summary
    ensures forall sign: char :: !Contains(StatText(es, summary), ['(', sign, ')'])
  {
    var lines := StatEntryLines(es);
    var parts := lines + [summary, ""];
    StatEntryLinesLack(es, '(');
    forall k | 0 <= k < |parts| ensures '(' !in parts[k] {
      if k < |lines| {
        assert parts[k] == lines[k];
      }
    }
    JoinLacks(parts, '\n', '(');
    forall sign: char ensures !Contains(StatText(es, summary), ['(', sign, ')']) {
      AbsentNotContained(StatText(es, summary), ['(', sign, ')'], '(');
    }
  }

  /** The names survive the lost leading space, and the summary adds none. */
  lemma StrippedNames(es: seq<StatEntry>, summary: string)
    requires |es| >= 1 && forall k :: 0 <= k < |es| ==> WellFormedEntry(es[k])
    requires '|' !in summary
    ensures StatFilesOfLines(StrippedStatLines(es, summary)) == EntryNames(es)
  {
    var core := StatEntryCore(es[0]);
    var tail := StatEntryLines(es[1..]);
    assert StrippedStatLines(es, summary) == ([core] + tail) + [summary];
    SummaryLineAddsNoFile([core] + tail, summary);
    StatCoreName(es[0]);
    FilterMapConcat([core], tail, IsStatLine, StatFileName);
    OneStatLine(core);
    assert FilterMap([core], IsStatLine, StatFileName) == [es[0].name];
    TailWellFormed(es);
    StatEntryLinesNames(es[1..]);
    assert FilterMap(tail, IsStatLine, StatFileName) == EntryNames(es[1..]);
  }

  lemma TailWellFormed(es: seq<StatEntry>)
    requires |es| >= 1 && forall k :: 0 <= k < |es| ==> WellFormedEntry(es[k])
    ensures forall k :: 0 <= k < |es[1..]| ==> WellFormedEntry(es[1..][k])
  {
    forall k | 0 <= k < |es[1..]| ensures WellFormedEntry(es[1..][k]) {
      assert es[1..][k] == es[k + 1];
    }
  }

  lemma OneStatLine(line: string)
    ensures FilterMap([line], IsStatLine, StatFileName) == if IsStatLine(line) then [StatFileName(line)] else []
  {
    assert [line] == [] + [line];
    FilterMapSnoc([], line, IsStatLine, StatFileName);
  }

  lemma {:induction false} StatEntryLinesNames(es: seq<StatEntry>)
    requires forall k :: 0 <= k < |es| ==> WellFormedEntry(es[k])
    ensures StatFilesOfLines(StatEntryLines(es)) == EntryNames(es)
  {
    if |es| > 0 {
      StatEntryLinesNames(es[1..]);
      StatLineName(es[0]);
      FilterMapConcat([StatEntryLine(es[0])], StatEntryLines(es[1..]), IsStatLine, StatFileName);
      OneStatLine(StatEntryLine(es[0]));
    }
  }

  /** A file line names its file. */
  lemma StatLineName(e: StatEntry)
    requires WellFormedEntry(e)
    ensures IsStatLine(StatEntryLine(e)) && StatFileName(StatEntryLine(e)) == e.name
  {
    var trail := Spaces(e.pad) + [' '];
    var a := [' '] + e.name + trail;
    assert StatEntryLine(e) == a + ['|'] + ([' '] + e.change);
    NameField(a, [' '], e.name, trail, [' '] + e.change);
  }

  /** The line without its leading space names the same file. */
  lemma StatCoreName(e: StatEntry)
    requires WellFormedEntry(e)
    ensures IsStatLine(StatEntryCore(e)) && StatFileName(StatEntryCore(e)) == e.name
  {
    var trail := Spaces(e.pad) + [' '];
    var a := e.name + trail;
    assert StatEntryCore(e) == a + ['|'] + ([' '] + e.change);
    assert a == [] + e.name + trail;
    NameField(a, [], e.name, trail, [' '] + e.change);
  }

  /** The name field `lead + name + trail` before the first bar strips to the name. */
  lemma NameField(a: string, lead: string, name: string, trail: string, b: string)
    requires name != "" && IsStripped(name) && '|' !in name
    requires AllSpace(lead) && '|' !in lead && AllSpace(trail) && '|' !in trail
    requires a == lead + name + trail
    ensures IsStatLine(a + ['|'] + b) && StatFileName(a + ['|'] + b) == name
  {
    var line := a + ['|'] + b;
    assert line[|a|] == '|';
    assert '|' !in a by {
      forall j | 0 <= j < |a| ensures a[j] != '|' {
        if j < |lead| {
          assert a[j] == lead[j];
        } else if j < |lead| + |name| {
          assert a[j] == name[j - |lead|];
        } else {
          assert a[j] == trail[j - |lead| - |name|];
        }
      }
    }
    SplitFirst(a, '|', b);
    StripSurrounded(lead, name, trail);
  }

  // ---------------------------------------------------------------------------
  // The summary totals: re.search(r'(\d+) insertions?\(\+\)', stat_output)
  // ---------------------------------------------------------------------------

  /** End of the run of ASCII digits that starts at `p`. */
  function DigitRunEnd(s: string, p: nat): (e: nat)
    requires p <= |s|
    ensures p <= e <= |s|
    ensures forall k :: p <= k < e ==> IsDigit(s[k])
    ensures e < |s| ==> !IsDigit(s[e])
    decreases |s| - p
  {
    if p < |s| && IsDigit(s[p]) then DigitRunEnd(s, p + 1) else p
  }

  /** After the digits: a space, `word`, an optional `s`, then `(sign)`. */
  predicate CountSuffix(rest: string, word: string, sign: char) {
    && StartsWith(rest, [' '] + word)
    && var tail := rest[|word| + 1..];
      StartsWith(tail, ['(', sign, ')']) || StartsWith(tail, ['s', '(', sign, ')'])
  }

  /** The pattern `(\d+) <word>s?\(<sign>\)` matches at `p`. The greedy `\d+`
      takes the whole digit run: a shorter group would be followed by a digit,
      never by the space the pattern needs, so backtracking finds nothing else. */
  predicate MatchesAt(s: string, p: nat, word: string, sign: char)
    requires p <= |s|
  {
    p < |s| && IsDigit(s[p]) && CountSuffix(s[DigitRunEnd(s, p)..], word, sign)
  }

  /** The pattern matches nowhere in `[lo, hi)`. */
  predicate NoMatchIn(s: string, word: string, sign: char, lo: nat, hi: nat)
    requires hi <= |s|
  {
    forall q :: lo <= q < hi ==> !MatchesAt(s, q, word, sign)
  }

  /** `re.search` from position `from`: the leftmost match at or after it. */
  function FirstMatch(s: string, word: string, sign: char, from: nat): (r: Option<nat>)
    requires from <= |s|
    ensures r.Some? ==> from <= r.value < |s| && MatchesAt(s, r.value, word, sign)
    ensures r.Some? ==> NoMatchIn(s, word, sign, from, r.value)
    ensures r.None? ==> NoMatchIn(s, word, sign, from, |s|)
    decreases |s| - from
  {
    if from == |s| then None
    else if MatchesAt(s, from, word, sign) then Some(from)
    else FirstMatch(s, word, sign, from + 1)
  }

  /** `re.search(...)` and its `group(1)`: the digits of the leftmost match. */
  function Search(s: string, word: string, sign: char): (g: Option<string>)
    ensures g.Some? ==> |g.value| >= 1 && AllDigits(g.value)
  {
    match FirstMatch(s, word, sign, 0)
    case None => None
    case Some(p) => Some(s[p..DigitRunEnd(s, p)])
  }

  /** `int(match.group(1))` of the first match, or 0 when there is none. */
  function CountOf(s: string, word: string, sign: char): nat {
    match Search(s, word, sign)
    case None => 0
    case Some(g) => DigitsValue(g)
  }

  function Insertions(stat: string): nat {
    CountOf(stat, "insertion", '+')
  }

  function Deletions(stat: string): nat {
    CountOf(stat, "deletion", '-')
  }

  /** The leftmost match starts a whole number: no digit stands right before
      it, so the group is never the tail of a longer number. */
  lemma MatchIsWholeNumber(s: string, word: string, sign: char)
    requires FirstMatch(s, word, sign, 0).Some?
    ensures var p := FirstMatch(s, word, sign, 0).value; p == 0 || !IsDigit(s[p - 1])
  {
    var p := FirstMatch(s, word, sign, 0).value;
    if p > 0 {
      MatchExtendsLeft(s, p, word, sign);
    }
  }

  /** A match preceded by a digit is also a match one position earlier. */
  lemma MatchExtendsLeft(s: string, p: nat, word: string, sign: char)
    requires 0 < p <= |s| && MatchesAt(s, p, word, sign)
    ensures IsDigit(s[p - 1]) ==> MatchesAt(s, p - 1, word, sign)
  {
    if IsDigit(s[p - 1]) {
      RunEndFromInside(s, p - 1);
    }
  }

  /** A digit run ends at the same place from any of its digits. */
  lemma RunEndFromInside(s: string, p: nat)
    requires p < |s| && IsDigit(s[p])
    ensures DigitRunEnd(s, p) == DigitRunEnd(s, p + 1)
  {
  }

  /** The group of the first match is a valid `int()` literal whose value is the
      count, so the count is what `int(match.group(1))` returns. */
  lemma CountIsPyInt(s: string, word: string, sign: char)
    requires Search(s, word, sign).Some?
    ensures PyInt(Search(s, word, sign).value) == Some(CountOf(s, word, sign) as int)
  {
    var g := Search(s, word, sign).value;
    PyIntUnsigned(g);
  }

  /** A count can be read only from text holding the marker `(sign)`; without
      it the total is 0, whatever file lines there are. */
  lemma NoMarkerNoCount(s: string, word: string, sign: char)
    requires !Contains(s, ['(', sign, ')'])
    ensures Search(s, word, sign) == None && CountOf(s, word, sign) == 0
  {
    if FirstMatch(s, word, sign, 0).Some? {
      var p := FirstMatch(s, word, sign, 0).value;
      var e := DigitRunEnd(s, p);
      var j := SuffixMarker(s[e..], word, sign);
      assert s[e..][j..] == s[e + j..];
      ContainsAt(s, e + j, ['(', sign, ')']);
    }
  }

  /** Where the marker `(sign)` stands in a matching suffix. */
  lemma SuffixMarker(rest: string, word: string, sign: char) returns (j: nat)
    requires CountSuffix(rest, word, sign)
    ensures j <= |rest| && StartsWith(rest[j..], ['(', sign, ')'])
  {
    var tail := rest[|word| + 1..];
    if StartsWith(tail, ['(', sign, ')']) {
      j := |word| + 1;
    } else {
      assert rest[|word| + 2..] == tail[1..];
      j := |word| + 2;
    }
  }

  /** A number followed by the pattern's words is what the search reads. */
  lemma CountAtStart(x: string, rest: string, word: string, sign: char)
    requires |x| >= 1 && AllDigits(x) && CountSuffix(rest, word, sign)
    ensures Search(x + rest, word, sign) == Some(x)
    ensures CountOf(x + rest, word, sign) == DigitsValue(x)
  {
    var s := x + rest;
    assert rest[0] == ' ';
    RunOfPrefix(x, rest);
    assert s[|x|..] == rest;
    assert MatchesAt(s, 0, word, sign);
    assert s[0..|x|] == x;
  }

  /** A stat output with a file line but no counts, as git prints for a binary
      file, has a non-empty `files` list and both totals 0. */
  lemma FilesWithoutTotals(name: string, pad: nat)
    requires WellFormedEntry(StatEntry(name, pad, "Bin")) && '(' !in name
    ensures var stat := StatText([StatEntry(name, pad, "Bin")], " 1 file changed");
      && StatFilesOfLines(StatLines(stat)) == [name]
      && Insertions(stat) == 0 && Deletions(stat) == 0
  {
    var es := [StatEntry(name, pad, "Bin")];
    var stat := StatText(es, " 1 file changed");
    StatTextRoundTrip(es, " 1 file changed");
    assert EntryNames(es) == [name];
    NoParenthesis(es, " 1 file changed");
    NoMarkerNoCount(stat, "insertion", '+');
    NoMarkerNoCount(stat, "deletion", '-');
  }

  /** The digits of `x` form the whole run at the start of `x + rest`. */
  lemma RunOfPrefix(x: string, rest: string)
    requires AllDigits(x)
    requires rest == [] || !IsDigit(rest[0])
    ensures DigitRunEnd(x + rest, 0) == |x|
  {
    RunFromInside(x, rest, 0);
  }

  lemma {:induction false} RunFromInside(x: string, rest: string, q: nat)
    requires AllDigits(x) && q <= |x|
    requires rest == [] || !IsDigit(rest[0])
    ensures DigitRunEnd(x + rest, q) == |x|
    decreases |x| - q
  {
    var s := x + rest;
    if q < |x| {
      assert IsDigit(s[q]);
      RunFromInside(x, rest, q + 1);
    } else if rest != [] {
      assert s[q] == rest[0];
    }
  }

  /** A match at `at` with none before it is what `re.search` finds. */
  lemma {:induction false} FirstMatchAt(s: string, word: string, sign: char, from: nat, at: nat)
    requires from <= at < |s| && MatchesAt(s, at, word, sign)
    requires NoMatchIn(s, word, sign, from, at)
    ensures FirstMatch(s, word, sign, from) == Some(at)
    decreases at - from
  {
    if from < at {
      assert !MatchesAt(s, from, word, sign);
      FirstMatchAt(s, word, sign, from + 1, at);
    }
  }

  // ---------------------------------------------------------------------------
  // Truncation
  // ---------------------------------------------------------------------------

  /** The marker appended to a cut diff. */
  const TruncationMarker: string := "\n\n... (truncated)"

  /** `if max_chars and len(raw) > max_chars`: a budget of `None` or 0 is falsy. */
  predicate Truncates(raw: string, maxChars: Option<int>) {
    maxChars.Some? && maxChars.value != 0 && |raw| > maxChars.value
  }

  /** The truncation rule of `_parse_diff_stats` and `get_commit_diff`; a
      negative budget is passed to the slice as Python reads it. */
  function TruncateDiff(raw: string, maxChars: Option<int>): (r: string)
    ensures !Truncates(raw, maxChars) ==> r == raw
    ensures Truncates(raw, maxChars) ==> r == Take(raw, maxChars.value) + TruncationMarker
  {
    if Truncates(raw, maxChars) then Take(raw, maxChars.value) + TruncationMarker else raw
  }

  /** A positive budget keeps exactly the first `max_chars` characters and then
      the marker; the result is never more than 17 characters over the budget. */
  lemma TruncateKeepsPrefix(raw: string, m: int)
    requires m > 0 && |raw| > m
    ensures var r := TruncateDiff(raw, Some(m));
      && |r| == m + |TruncationMarker| && |TruncationMarker| == 17
      && r[..m] == raw[..m] && r[m..] == TruncationMarker
  {
  }

  /** Text within the budget, an absent budget and a zero budget leave the diff unchanged. */
  lemma TruncateUnchanged(raw: string, maxChars: Option<int>)
    requires maxChars.None? || maxChars.value == 0 || |raw| <= maxChars.value
    ensures TruncateDiff(raw, maxChars) == raw
  {
  }

  /** A negative budget always truncates, dropping `-max_chars` characters from the end. */
  lemma NegativeBudget(raw: string, m: int)
    requires m < 0
    ensures var r := TruncateDiff(raw, Some(m));
      r == raw[..if -m <= |raw| then |raw| + m else 0] + TruncationMarker
  {
  }

  /** What `get_commit_diff` returns for the output of `git show`. */
  function CommitDiff(diff: string, maxChars: Option<int>): string {
    TruncateDiff(diff, maxChars)
  }

  // ---------------------------------------------------------------------------
  // The whole summary
  // ---------------------------------------------------------------------------

  /** What `_parse_diff_stats` returns. */
  function DiffSummaryOf(raw: string, stat: string, maxChars: Option<int>): DiffSummary {
    DiffSummary(StatFilesOfLines(StatLines(stat)), Insertions(stat), Deletions(stat), TruncateDiff(raw, maxChars))
  }

  /** `_parse_diff_stats`. */
  method ParseDiffStats(raw: string, stat: string, maxChars: Option<int>) returns (d: DiffSummary)
    ensures d == DiffSummaryOf(raw, stat, maxChars)
  {
    var files := ScanStatLines(StatLines(stat));
    var additions, deletions := 0, 0;
    var summaryMatch := Search(stat, "insertion", '+');
    if summaryMatch.Some? {
      additions := DigitsValue(summaryMatch.value);
    }
    var delMatch := Search(stat, "deletion", '-');
    if delMatch.Some? {
      deletions := DigitsValue(delMatch.value);
    }
    var diffText := raw;
    if maxChars.Some? && maxChars.value != 0 && |raw| > maxChars.value {
      diffText := Take(raw, maxChars.value) + TruncationMarker;
    }
    d := DiffSummary(files, additions, deletions, diffText);
  }
}
