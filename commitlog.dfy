/**
 * `GitAnalyzer.get_recent_commits`: the output of
 * `git log --pretty=format:%H%x00%an%x00%ae%x00%ad%x00%s%x00%b%x00%x01 --date=iso`
 * cut into records on `\x01` and into fields on `\x00`.
 */
module CommitLog {
  import opened Wrappers
  import opened PyBuiltins
  import opened GitRecords

  const RecordSep: char := '\U{1}'
  const FieldSep: char := '\U{0}'

  // ---------------------------------------------------------------------------
  // The date text handed to datetime.fromisoformat
  // ---------------------------------------------------------------------------

  /** `s.replace(' ', 'T', 1)` */
  function ReplaceFirstSpace(s: string): (r: string)
    ensures |r| == |s|
  {
    var i := IndexOf(s, ' ');
    if i == |s| then s else s[..i] + "T" + s[i + 1..]
  }

  predicate NotBlank(c: char) {
    c != ' '
  }

  function Same(c: char): char {
    c
  }

  /** `s.replace(' ', '')` */
  function RemoveSpaces(s: string): (r: string)
    ensures ' ' !in r
  {
    var r := FilterMap(s, NotBlank, Same);
    assert ' ' !in r by {
      if ' ' in r {
        FilterMapMember(s, NotBlank, Same, ' ');
      }
    }
    r
  }

  /** `date_str.replace(' ', 'T', 1).replace(' ', '')` */
  function IsoText(dateStr: string): string {
    RemoveSpaces(ReplaceFirstSpace(dateStr))
  }

  lemma {:induction false} RemoveSpacesAbsent(s: string)
    requires ' ' !in s
    ensures RemoveSpaces(s) == s
  {
    FilterMapAll(s, NotBlank, Same);
  }

  /** Git's ISO date `day time zone` becomes `dayTtimezone`. */
  lemma IsoTextOfGitDate(day: string, time: string, zone: string)
    requires ' ' !in day && ' ' !in time && ' ' !in zone
    ensures IsoText(day + " " + time + " " + zone) == day + "T" + time + zone
  {
    FirstSpaceReplaced(day, time, zone);
    var u := day + "T" + time;
    assert ' ' !in u;
    SpaceRemoved(u, zone);
  }

  lemma FirstSpaceReplaced(day: string, time: string, zone: string)
    requires ' ' !in day
    ensures ReplaceFirstSpace(day + " " + time + " " + zone) == day + "T" + time + " " + zone
  {
    var rest := time + " " + zone;
    var s := day + [' '] + rest;
    assert day + " " + time + " " + zone == s;
    IndexOfFirst(day, ' ', rest);
    assert s[..|day|] == day && s[|day| + 1..] == rest;
  }

  lemma SpaceRemoved(u: string, zone: string)
    requires ' ' !in u && ' ' !in zone
    ensures RemoveSpaces(u + " " + zone) == u + zone
  {
    FilterMapConcat(u + " ", zone, NotBlank, Same);
    FilterMapSnoc(u, ' ', NotBlank, Same);
    RemoveSpacesAbsent(u);
    RemoveSpacesAbsent(zone);
  }

  // ---------------------------------------------------------------------------
  // Records
  // ---------------------------------------------------------------------------

  /** `parts[k]`, or `""` past the end. */
  function Field(parts: seq<string>, k: nat): string {
    if k < |parts| then parts[k] else ""
  }

  /** The fields of one `\x01` fragment: `entry.strip().split('\x00')`. */
  function EntryParts(entry: string): seq<string> {
    Split(Strip(entry), FieldSep)
  }

  /** A fragment that yields a commit: non-blank, with at least five fields. */
  predicate IsRecord(entry: string) {
    Strip(entry) != "" && |EntryParts(entry)| >= 5
  }

  /** The commit built from the fields of a record (used only with five or more fields). */
  function CommitOfParts(parts: seq<string>): CommitInfo {
    CommitInfo(Field(parts, 0), Field(parts, 1), Field(parts, 2), IsoText(Strip(Field(parts, 3))),
               Field(parts, 4), Field(parts, 5), 0, 0, 0)
  }

  function RecordOf(entry: string): CommitInfo {
    CommitOfParts(EntryParts(entry))
  }

  /** The commits of a list of fragments, in order. */
  function CommitsOfEntries(entries: seq<string>): seq<CommitInfo> {
    FilterMap(entries, IsRecord, RecordOf)
  }

  /** What `get_recent_commits` returns for the log output. */
  function CommitsOf(output: string): seq<CommitInfo> {
    if Strip(output) == "" then [] else CommitsOfEntries(LogEntries(output))
  }

  /** `get_recent_commits` after the git call. */
  method ParseCommitLog(output: string) returns (commits: seq<CommitInfo>)
    ensures commits == CommitsOf(output)
  {
    if Strip(output) == "" {
      return [];
    }
    commits := ScanLogEntries(LogEntries(output));
  }

  /** The loop of `get_recent_commits` over the `\x01` fragments. */
  method ScanLogEntries(entries: seq<string>) returns (commits: seq<CommitInfo>)
    ensures commits == CommitsOfEntries(entries)
  {
    commits := [];
    var i := 0;
    while i < |entries|
      invariant i <= |entries|
      invariant commits == CommitsOfEntries(entries[..i])
    {
      FilterMapSnoc(entries[..i], entries[i], IsRecord, RecordOf);
      assert entries[..i + 1] == entries[..i] + [entries[i]];
      var entry := Strip(entries[i]);
      if entry != "" {
        var parts := Split(entry, FieldSep);
        if |parts| >= 5 {
          var body := if |parts| > 5 then parts[5] else "";
          var date := IsoText(Strip(parts[3]));
          commits := commits + [CommitInfo(parts[0], parts[1], parts[2], date, parts[4], body, 0, 0, 0)];
        }
      }
      i := i + 1;
    }
    assert entries[..i] == entries;
  }

  /** Blank log output has no commits. */
  lemma BlankLogHasNoCommits(output: string)
    requires AllSpace(output)
    ensures CommitsOf(output) == []
  {
    StripEmpty(output);
  }

  /** A blank fragment, or one with fewer than five fields, contributes nothing. */
  lemma DroppedFragment(before: seq<string>, entry: string, after: seq<string>)
    requires AllSpace(entry) || |EntryParts(entry)| < 5
    ensures CommitsOfEntries(before + [entry] + after) == CommitsOfEntries(before + after)
  {
    StripEmpty(entry);
    FilterMapConcat(before + [entry], after, IsRecord, RecordOf);
    FilterMapSnoc(before, entry, IsRecord, RecordOf);
    FilterMapConcat(before, after, IsRecord, RecordOf);
  }

  /** The `\x01` fragments of the log output. */
  function LogEntries(output: string): seq<string> {
    Split(output, RecordSep)
  }

  /** Every commit comes from one record fragment of the output, and every record yields one. */
  lemma CommitMembership(output: string, c: CommitInfo)
    requires !AllSpace(output)
    ensures c in CommitsOf(output) <==>
      exists k :: 0 <= k < |LogEntries(output)| && IsRecord(LogEntries(output)[k]) && RecordOf(LogEntries(output)[k]) == c
  {
    StripEmpty(output);
    FilterMapMember(LogEntries(output), IsRecord, RecordOf, c);
  }

  // ---------------------------------------------------------------------------
  // Round trip from the log format
  // ---------------------------------------------------------------------------

  /** One commit as the log format prints its placeholders. */
  datatype LogRecord = LogRecord(hash: string, author: string, email: string, date: string,
                                 subject: string, body: string)

  /** Fields git never fills with the separators, and a hash that starts the record. */
  predicate WellFormedRecord(r: LogRecord) {
    && r.hash != "" && !IsSpace(r.hash[0])
    && forall f :: f in RecordFields(r) ==> FieldSep !in f && RecordSep !in f
  }

  function RecordFields(r: LogRecord): seq<string> {
    [r.hash, r.author, r.email, r.date, r.subject, r.body]
  }

  /** `%H%x00%an%x00%ae%x00%ad%x00%s%x00%b%x00` for one commit. */
  function RecordText(r: LogRecord): string {
    Join(RecordFields(r) + [""], FieldSep)
  }

  /** The `\x01` fragments: git puts a newline between commits. */
  function LogFragments(rs: seq<LogRecord>): seq<string> {
    seq(|rs|, k requires 0 <= k < |rs| => (if k == 0 then "" else "\n") + RecordText(rs[k]))
  }

  /** The output of the log command for the commits `rs`. */
  function LogText(rs: seq<LogRecord>): string {
    Join(LogFragments(rs) + [""], RecordSep)
  }

  /** The commit the analyzer should build for a record. */
  function Expected(r: LogRecord): CommitInfo {
    CommitInfo(r.hash, r.author, r.email, IsoText(Strip(r.date)), r.subject, r.body, 0, 0, 0)
  }

  /** Parsing the log text of well-formed records gives back every record, in order. */
  lemma LogRoundTrip(rs: seq<LogRecord>)
    requires forall k :: 0 <= k < |rs| ==> WellFormedRecord(rs[k])
    ensures |CommitsOf(LogText(rs))| == |rs|
    ensures forall k :: 0 <= k < |rs| ==> CommitsOf(LogText(rs))[k] == Expected(rs[k])
  {
    var frags := LogFragments(rs);
    FragmentsAreRecords(rs);
    FilterMapAll(frags, IsRecord, RecordOf);
    LogTextCommits(rs);
  }

  /** The commits of the log text are those of its fragments. */
  lemma LogTextCommits(rs: seq<LogRecord>)
    requires forall k :: 0 <= k < |rs| ==> WellFormedRecord(rs[k])
    ensures CommitsOf(LogText(rs)) == CommitsOfEntries(LogFragments(rs))
  {
    LogTextEntries(rs);
    FilterMapSnoc(LogFragments(rs), "", IsRecord, RecordOf);
    if rs == [] {
      assert LogText(rs) == "";
    } else {
      LogTextNotBlank(rs);
    }
  }

  /** The log text splits back into its fragments and the empty text after the last `\x01`. */
  lemma LogTextEntries(rs: seq<LogRecord>)
    requires forall k :: 0 <= k < |rs| ==> WellFormedRecord(rs[k])
    ensures LogEntries(LogText(rs)) == LogFragments(rs) + [""]
  {
    var parts := LogFragments(rs) + [""];
    forall k | 0 <= k < |parts|
      ensures RecordSep !in parts[k]
    {
      if k < |rs| {
        RecordTextLacks(rs[k], RecordSep);
      }
    }
    SplitJoin(parts, RecordSep);
  }

  /** Every fragment of the log text is a record and reads back as its commit. */
  lemma FragmentsAreRecords(rs: seq<LogRecord>)
    requires forall k :: 0 <= k < |rs| ==> WellFormedRecord(rs[k])
    ensures forall k :: 0 <= k < |rs| ==> IsRecord(LogFragments(rs)[k]) && RecordOf(LogFragments(rs)[k]) == Expected(rs[k])
  {
    var frags := LogFragments(rs);
    forall k | 0 <= k < |frags|
      ensures IsRecord(frags[k]) && RecordOf(frags[k]) == Expected(rs[k])
    {
      var lead := if k == 0 then "" else "\n";
      assert frags[k] == lead + RecordText(rs[k]);
      FragmentRecord(rs[k], lead);
    }
  }

  /** The log text of at least one commit is not blank: it starts with the first hash. */
  lemma LogTextNotBlank(rs: seq<LogRecord>)
    requires |rs| > 0 && WellFormedRecord(rs[0])
    ensures Strip(LogText(rs)) != ""
  {
    var parts := LogFragments(rs) + [""];
    FragmentStripped(rs[0], "");
    assert parts[0] == RecordText(rs[0]);
    JoinFirst(parts, RecordSep);
    StripEmpty(LogText(rs));
  }

  /** One fragment, after its leading whitespace, is the record's text and reads back as the record. */
  lemma FragmentRecord(r: LogRecord, lead: string)
    requires WellFormedRecord(r) && AllSpace(lead)
    ensures RecordText(r) != "" && RecordText(r)[0] == r.hash[0]
    ensures IsRecord(lead + RecordText(r)) && RecordOf(lead + RecordText(r)) == Expected(r)
  {
    var t := RecordText(r);
    FragmentStripped(r, lead);
    RecordTextSplit(r);
    assert EntryParts(lead + t) == RecordFields(r) + [""];
    PartsOfRecord(r);
  }

  /** Stripping a fragment leaves exactly the record's text. */
  lemma FragmentStripped(r: LogRecord, lead: string)
    requires WellFormedRecord(r) && AllSpace(lead)
    ensures RecordText(r) != "" && RecordText(r)[0] == r.hash[0]
    ensures Strip(lead + RecordText(r)) == RecordText(r)
  {
    var t := RecordText(r);
    JoinFirst(RecordFields(r) + [""], FieldSep);
    RecordTextEnds(r);
    assert IsStripped(t);
    assert lead + t + [] == lead + t;
    StripSurrounded(lead, t, []);
  }

  /** A record's text splits into its six fields and the empty text after the last separator. */
  lemma RecordTextSplit(r: LogRecord)
    requires WellFormedRecord(r)
    ensures Split(RecordText(r), FieldSep) == RecordFields(r) + [""]
  {
    var fields := RecordFields(r) + [""];
    forall k | 0 <= k < |fields|
      ensures FieldSep !in fields[k]
    {
      if k < 6 { assert fields[k] in RecordFields(r); }
    }
    SplitJoin(fields, FieldSep);
  }

  /** The seven fields of a record build the record's commit. */
  lemma PartsOfRecord(r: LogRecord)
    ensures CommitOfParts(RecordFields(r) + [""]) == Expected(r)
  {
    var fields := RecordFields(r) + [""];
    assert Field(fields, 0) == r.hash && Field(fields, 1) == r.author && Field(fields, 2) == r.email;
    assert Field(fields, 3) == r.date && Field(fields, 4) == r.subject && Field(fields, 5) == r.body;
  }

  /** A record's text ends with the field separator. */
  lemma RecordTextEnds(r: LogRecord)
    ensures var t := RecordText(r); t != "" && t[|t| - 1] == FieldSep
  {
    var fields := RecordFields(r);
    JoinConcat(fields, [""], FieldSep);
  }

  /** A record's text holds the record separator nowhere. */
  lemma RecordTextLacks(r: LogRecord, c: char)
    requires WellFormedRecord(r) && c == RecordSep
    ensures c !in RecordText(r)
    ensures c !in "\n" + RecordText(r)
  {
    var fields := RecordFields(r) + [""];
    forall k | 0 <= k < |fields|
      ensures c !in fields[k]
    {
      if k < 6 { assert fields[k] in RecordFields(r); }
    }
    JoinLacks(fields, FieldSep, c);
  }
}
