/**
 * `GitAnalyzer.get_repo_status`: reading `git status --porcelain` (format v1)
 * into the staged, modified and untracked lists.
 *
 * The analyzer strips the whole output before splitting it into lines, so a
 * first line whose index column is a space loses that space and is read two
 * columns off. `StatusOf` and `ParseStatus` model the code as written;
 * `CorrectedStatusOf` splits without stripping, and the lemmas at the end
 * relate the two.
 */
module GitStatus {
  import opened Wrappers
  import opened PyBuiltins
  import opened GitRecords

  /** The lines the analyzer visits: `status_output.strip().split('\n')`. */
  function StatusLines(output: string): seq<string> {
    Split(Strip(output), '\n')
  }

  /** The index-column codes `get_repo_status` counts as staged: M, A, D, R, C. */
  predicate StagedCode(c: char) {
    c == 'M' || c == 'A' || c == 'D' || c == 'R' || c == 'C'
  }

  /** `code[0] in 'MADRC'`: the index column shows a change. */
  predicate IsStagedLine(line: string) {
    |line| >= 1 && StagedCode(line[0])
  }

  /** `code[1] == 'M'`: the work tree column shows a modification. */
  predicate IsModifiedLine(line: string) {
    |line| >= 2 && line[1] == 'M'
  }

  /** `code == '??'`: the file is untracked. */
  predicate IsUntrackedLine(line: string) {
    |line| >= 2 && line[0] == '?' && line[1] == '?'
  }

  /** A one-character line, on which `code[1]` raises IndexError. */
  predicate IsTooShortLine(line: string) {
    |line| == 1
  }

  /** `filename = line[3:]` */
  function PathField(line: string): string {
    DropFrom(line, 3)
  }

  /** The file lists of a sequence of status lines, or the IndexError. */
  function StatusOfLines(lines: seq<string>, branchOutput: string): Result<RepoStatus, GitError>
  {
    if exists k | 0 <= k < |lines| :: IsTooShortLine(lines[k]) then Err(StatusCodeTooShort)
    else
      var staged := FilterMap(lines, IsStagedLine, PathField);
      var modified := FilterMap(lines, IsModifiedLine, PathField);
      var untracked := FilterMap(lines, IsUntrackedLine, PathField);
      Ok(RepoStatus(staged, modified, untracked, staged != [] || modified != [], Strip(branchOutput)))
  }

  /** What `get_repo_status` returns for the two git outputs it reads
      (`status --porcelain`, then `branch --show-current`). */
  function StatusOf(output: string, branchOutput: string): Result<RepoStatus, GitError>
  {
    StatusOfLines(StatusLines(output), branchOutput)
  }

  /** `get_repo_status`: strip and split the porcelain output, then scan its lines. */
  method ParseStatus(output: string, branchOutput: string) returns (r: Result<RepoStatus, GitError>)
    ensures r == StatusOf(output, branchOutput)
  {
    r := ScanStatusLines(StatusLines(output), branchOutput);
  }

  /** The loop of `get_repo_status` over the status lines. With `code = line[:2]`,
      `code[0]`, `code[1]` and `code == '??'` read the line's first two characters,
      which is how the line predicates are stated; an empty line satisfies none of
      them, as the `continue` intends, and a one-character line makes `code[1]`
      raise. */
  method ScanStatusLines(lines: seq<string>, branchOutput: string) returns (r: Result<RepoStatus, GitError>)
    ensures r == StatusOfLines(lines, branchOutput)
  {
    var staged, modified, untracked := [], [], [];
    var i := 0;
    while i < |lines|
      invariant 0 <= i <= |lines|
      invariant staged == FilterMap(lines[..i], IsStagedLine, PathField)
      invariant modified == FilterMap(lines[..i], IsModifiedLine, PathField)
      invariant untracked == FilterMap(lines[..i], IsUntrackedLine, PathField)
      invariant forall k :: 0 <= k < i ==> !IsTooShortLine(lines[k])
    {
      var line := lines[i];
      NextLine(lines, i);
      if IsStagedLine(line) {
        staged := staged + [PathField(line)];
      }
      if IsTooShortLine(line) {
        return Err(StatusCodeTooShort);
      }
      if IsModifiedLine(line) {
        modified := modified + [PathField(line)];
      }
      if IsUntrackedLine(line) {
        untracked := untracked + [PathField(line)];
      }
      i := i + 1;
    }
    assert lines[..|lines|] == lines;
    r := Ok(RepoStatus(staged, modified, untracked, staged != [] || modified != [], Strip(branchOutput)));
  }

  /** One more line extends each list by that line's path when its code selects it. */
  lemma NextLine(lines: seq<string>, i: nat)
    requires i < |lines|
    ensures var line := lines[i];
      && FilterMap(lines[..i + 1], IsStagedLine, PathField) ==
           FilterMap(lines[..i], IsStagedLine, PathField) + (if IsStagedLine(line) then [PathField(line)] else [])
      && FilterMap(lines[..i + 1], IsModifiedLine, PathField) ==
           FilterMap(lines[..i], IsModifiedLine, PathField) + (if IsModifiedLine(line) then [PathField(line)] else [])
      && FilterMap(lines[..i + 1], IsUntrackedLine, PathField) ==
           FilterMap(lines[..i], IsUntrackedLine, PathField) + (if IsUntrackedLine(line) then [PathField(line)] else [])
  {
    assert lines[..i + 1] == lines[..i] + [lines[i]];
    FilterMapSnoc(lines[..i], lines[i], IsStagedLine, PathField);
    FilterMapSnoc(lines[..i], lines[i], IsModifiedLine, PathField);
    FilterMapSnoc(lines[..i], lines[i], IsUntrackedLine, PathField);
  }

  // ---------------------------------------------------------------------------
  // Properties of the parse as written
  // ---------------------------------------------------------------------------

  /** Each list holds exactly the paths of the lines whose code selects it
      (for `StatusOf`, take `lines := StatusLines(output)`). */
  lemma StatusMembership(lines: seq<string>, branchOutput: string, f: string)
    requires StatusOfLines(lines, branchOutput).Ok?
    ensures var st := StatusOfLines(lines, branchOutput).value;
      && (f in st.staged <==> exists k :: 0 <= k < |lines| && IsStagedLine(lines[k]) && PathField(lines[k]) == f)
      && (f in st.modified <==> exists k :: 0 <= k < |lines| && IsModifiedLine(lines[k]) && PathField(lines[k]) == f)
      && (f in st.untracked <==> exists k :: 0 <= k < |lines| && IsUntrackedLine(lines[k]) && PathField(lines[k]) == f)
  {
    FilterMapMember(lines, IsStagedLine, PathField, f);
    FilterMapMember(lines, IsModifiedLine, PathField, f);
    FilterMapMember(lines, IsUntrackedLine, PathField, f);
  }

  /** The parse fails exactly when some line is a single character. */
  lemma StatusFailsOnlyOnShortLine(lines: seq<string>, branchOutput: string)
    ensures StatusOfLines(lines, branchOutput).Err? <==> exists k :: 0 <= k < |lines| && |lines[k]| == 1
  {
  }

  /** `is_dirty` holds exactly when some line is staged or modified; untracked
      files alone leave the repository clean. */
  lemma {:induction false} DirtyIffStagedOrModified(lines: seq<string>, branchOutput: string)
    requires StatusOfLines(lines, branchOutput).Ok?
    ensures StatusOfLines(lines, branchOutput).value.isDirty <==>
      exists k :: 0 <= k < |lines| && (IsStagedLine(lines[k]) || IsModifiedLine(lines[k]))
  {
    FilterMapEmpty(lines, IsStagedLine, PathField);
    FilterMapEmpty(lines, IsModifiedLine, PathField);
  }

  /** A one-line output with both columns changed lands in staged and modified. */
  lemma StagedAndModifiedLine(line: string, branchOutput: string)
    requires IsStripped(line) && '\n' !in line
    requires |line| >= 2 && StagedCode(line[0]) && line[1] == 'M'
    ensures StatusOf(line, branchOutput) ==
      Ok(RepoStatus([PathField(line)], [PathField(line)], [], true, Strip(branchOutput)))
  {
    SingleLine(line);
    OneLineStatus(line, branchOutput);
  }

  /** A stripped text without newlines is one status line. */
  lemma SingleLine(line: string)
    requires IsStripped(line) && '\n' !in line
    ensures StatusLines(line) == [line]
  {
    StripStripped(line);
    SplitAbsent(line, '\n');
  }

  /** A one-line untracked output is never staged or modified and is not dirty. */
  lemma UntrackedLineOnly(path: string, branchOutput: string)
    requires '\n' !in path && IsStripped(path) && path != ""
    ensures StatusOf("?? " + path, branchOutput) ==
      Ok(RepoStatus([], [], [path], false, Strip(branchOutput)))
  {
    var line := UntrackedLineRead(path);
    SingleLine(line);
    OneLineStatus(line, branchOutput);
  }

  lemma UntrackedLineRead(path: string) returns (line: string)
    requires '\n' !in path && IsStripped(path) && path != ""
    ensures line == "?? " + path
    ensures IsStripped(line) && '\n' !in line
    ensures !IsStagedLine(line) && !IsModifiedLine(line) && IsUntrackedLine(line)
    ensures !IsTooShortLine(line) && PathField(line) == path
  {
    line := "?? " + path;
    assert line[0] == '?' && line[1] == '?';
    assert line[|line| - 1] == path[|path| - 1];
    assert '\n' !in line by {
      assert line == "?? " + path;
    }
    assert line[3..] == path;
  }

  /** The parse of a single line that is not too short. */
  lemma OneLineStatus(line: string, branchOutput: string)
    requires !IsTooShortLine(line)
    ensures var staged := if IsStagedLine(line) then [PathField(line)] else [];
      var modified := if IsModifiedLine(line) then [PathField(line)] else [];
      StatusOfLines([line], branchOutput) ==
        Ok(RepoStatus(staged, modified, if IsUntrackedLine(line) then [PathField(line)] else [],
                      staged != [] || modified != [], Strip(branchOutput)))
  {
    OneLine(line);
    assert !IsTooShortLine([line][0]);
  }

  /** A single line is selected by its own predicates and nothing else. */
  lemma OneLine(line: string)
    ensures FilterMap([line], IsStagedLine, PathField) == if IsStagedLine(line) then [PathField(line)] else []
    ensures FilterMap([line], IsModifiedLine, PathField) == if IsModifiedLine(line) then [PathField(line)] else []
    ensures FilterMap([line], IsUntrackedLine, PathField) == if IsUntrackedLine(line) then [PathField(line)] else []
  {
    assert [line] == [] + [line];
    FilterMapSnoc([], line, IsStagedLine, PathField);
    FilterMapSnoc([], line, IsModifiedLine, PathField);
    FilterMapSnoc([], line, IsUntrackedLine, PathField);
  }

  // ---------------------------------------------------------------------------
  // Porcelain text, and the parse without the leading strip
  // ---------------------------------------------------------------------------

  /** One entry as git prints it: index column, work tree column, a space, the path. */
  datatype StatusEntry = StatusEntry(index: char, worktree: char, path: string)

  predicate WellFormed(e: StatusEntry) {
    e.index != '\n' && e.worktree != '\n' && '\n' !in e.path
  }

  function EntryLine(e: StatusEntry): string {
    [e.index, e.worktree, ' '] + e.path
  }

  function EntryLines(es: seq<StatusEntry>): (lines: seq<string>)
    ensures |lines| == |es|
  {
    if |es| == 0 then [] else EntryLines(es[..|es| - 1]) + [EntryLine(es[|es| - 1])]
  }

  /** `git status --porcelain` output: each entry's line followed by a newline. */
  function PorcelainText(es: seq<StatusEntry>): string {
    Join(EntryLines(es) + [""], '\n')
  }

  predicate IndexChanged(e: StatusEntry) { StagedCode(e.index) }
  predicate WorktreeModified(e: StatusEntry) { e.worktree == 'M' }
  predicate Untracked(e: StatusEntry) { e.index == '?' && e.worktree == '?' }
  function EntryPath(e: StatusEntry): string { e.path }

  /** The intended parse: split the output as it is, without stripping it first. */
  function CorrectedStatusOf(output: string, branchOutput: string): Result<RepoStatus, GitError>
  {
    StatusOfLines(Split(output, '\n'), branchOutput)
  }

  lemma {:induction false} EntryLinesStaged(es: seq<StatusEntry>)
    ensures FilterMap(EntryLines(es), IsStagedLine, PathField) == FilterMap(es, IndexChanged, EntryPath)
  {
    if |es| > 0 {
      var init, e := es[..|es| - 1], es[|es| - 1];
      EntryLinesStaged(init);
      EntryLineFields(e);
      FilterMapSnoc(EntryLines(init), EntryLine(e), IsStagedLine, PathField);
      assert es == init + [e];
      FilterMapSnoc(init, e, IndexChanged, EntryPath);
    }
  }

  lemma {:induction false} EntryLinesModified(es: seq<StatusEntry>)
    ensures FilterMap(EntryLines(es), IsModifiedLine, PathField) == FilterMap(es, WorktreeModified, EntryPath)
  {
    if |es| > 0 {
      var init, e := es[..|es| - 1], es[|es| - 1];
      EntryLinesModified(init);
      EntryLineFields(e);
      FilterMapSnoc(EntryLines(init), EntryLine(e), IsModifiedLine, PathField);
      assert es == init + [e];
      FilterMapSnoc(init, e, WorktreeModified, EntryPath);
    }
  }

  lemma {:induction false} EntryLinesUntracked(es: seq<StatusEntry>)
    ensures FilterMap(EntryLines(es), IsUntrackedLine, PathField) == FilterMap(es, Untracked, EntryPath)
  {
    if |es| > 0 {
      var init, e := es[..|es| - 1], es[|es| - 1];
      EntryLinesUntracked(init);
      EntryLineFields(e);
      FilterMapSnoc(EntryLines(init), EntryLine(e), IsUntrackedLine, PathField);
      assert es == init + [e];
      FilterMapSnoc(init, e, Untracked, EntryPath);
    }
  }

  /** How the line predicates read one entry's line. */
  lemma EntryLineFields(e: StatusEntry)
    ensures IsStagedLine(EntryLine(e)) == IndexChanged(e)
    ensures IsModifiedLine(EntryLine(e)) == WorktreeModified(e)
    ensures IsUntrackedLine(EntryLine(e)) == Untracked(e)
    ensures PathField(EntryLine(e)) == e.path
    ensures !IsTooShortLine(EntryLine(e))
  {
    var line := EntryLine(e);
    assert line[0] == e.index && line[1] == e.worktree;
    assert line[3..] == e.path;
  }

  lemma {:induction false} EntryLinesLong(es: seq<StatusEntry>)
    ensures forall k :: 0 <= k < |es| ==> !IsTooShortLine(EntryLines(es)[k])
  {
    if |es| > 0 {
      EntryLinesLong(es[..|es| - 1]);
      EntryLineFields(es[|es| - 1]);
    }
  }

  /** No line of the porcelain text, nor the empty one after the final newline, is too short. */
  lemma NoTooShortLine(es: seq<StatusEntry>)
    ensures var all := EntryLines(es) + [""];
      !exists k | 0 <= k < |all| :: IsTooShortLine(all[k])
  {
    var lines := EntryLines(es);
    var all := lines + [""];
    EntryLinesLong(es);
    forall k | 0 <= k < |all| ensures !IsTooShortLine(all[k]) {
      if k < |lines| { assert all[k] == lines[k]; }
    }
  }

  lemma {:induction false} EntryLinesNoNewline(es: seq<StatusEntry>)
    requires forall k :: 0 <= k < |es| ==> WellFormed(es[k])
    ensures forall k :: 0 <= k < |es| ==> '\n' !in EntryLines(es)[k]
  {
    if |es| > 0 {
      EntryLinesNoNewline(es[..|es| - 1]);
      var e := es[|es| - 1];
      var line := EntryLine(e);
      forall j | 0 <= j < |line| ensures line[j] != '\n' {
        if j >= 3 { assert line[j] == e.path[j - 3]; }
      }
    }
  }

  /** The corrected parse reads every well-formed porcelain text back exactly:
      staged, modified and untracked are the entries' paths selected by their
      columns, in input order and with repetitions. */
  lemma CorrectedRoundTrip(es: seq<StatusEntry>, branchOutput: string)
    requires forall k :: 0 <= k < |es| ==> WellFormed(es[k])
    ensures var staged := FilterMap(es, IndexChanged, EntryPath);
      var modified := FilterMap(es, WorktreeModified, EntryPath);
      CorrectedStatusOf(PorcelainText(es), branchOutput) ==
        Ok(RepoStatus(staged, modified, FilterMap(es, Untracked, EntryPath),
                      staged != [] || modified != [], Strip(branchOutput)))
  {
    var lines := EntryLines(es);
    CorrectedLines(es);
    EmptyLineIgnored(lines, branchOutput);
    EntryLinesStaged(es);
    EntryLinesModified(es);
    EntryLinesUntracked(es);
    EntryLinesLong(es);
  }

  /** The empty line after the final newline selects nothing. */
  lemma SameSelection(lines: seq<string>)
    ensures FilterMap(lines + [""], IsStagedLine, PathField) == FilterMap(lines, IsStagedLine, PathField)
    ensures FilterMap(lines + [""], IsModifiedLine, PathField) == FilterMap(lines, IsModifiedLine, PathField)
    ensures FilterMap(lines + [""], IsUntrackedLine, PathField) == FilterMap(lines, IsUntrackedLine, PathField)
  {
    FilterMapSnoc(lines, "", IsStagedLine, PathField);
    FilterMapSnoc(lines, "", IsModifiedLine, PathField);
    FilterMapSnoc(lines, "", IsUntrackedLine, PathField);
  }

  /** Finding: a first line with a blank index column (` M <path>`, a file changed
      only in the work tree) loses its leading space to the strip, so it is read
      as a staged file named `path[1:]`; the corrected parse reads it as the
      modified file `path` (FirstLineCorrected). With `path == "a.py"` the staged
      name is `.py`. */
  lemma FirstLineSpaceLost(path: string, branchOutput: string)
    requires '\n' !in path && IsStripped(path) && path != ""
    ensures StatusOf(" M " + path + "\n", branchOutput) ==
      Ok(RepoStatus([path[1..]], [], [], true, Strip(branchOutput)))
  {
    var line := SpaceLineStripped(path);
    SpaceLineRead(line, path);
    OneLineStatus(line, branchOutput);
  }

  /** The corrected parse reads ` M <path>` as the modified file `path`. */
  lemma FirstLineCorrected(path: string, branchOutput: string)
    requires '\n' !in path
    ensures CorrectedStatusOf(" M " + path + "\n", branchOutput) ==
      Ok(RepoStatus([], [path], [], true, Strip(branchOutput)))
  {
    var es := [StatusEntry(' ', 'M', path)];
    SpaceLinePorcelain(es, path);
    CorrectedRoundTrip(es, branchOutput);
    OneEntry(es[0]);
  }

  /** The strip turns ` M <path>` and its newline into the single line `M <path>`. */
  lemma SpaceLineStripped(path: string) returns (line: string)
    requires '\n' !in path && IsStripped(path) && path != ""
    ensures line == "M " + path
    ensures StatusLines(" M " + path + "\n") == [line]
  {
    line := "M " + path;
    assert " M " + path + "\n" == " " + line + "\n";
    assert line[|line| - 1] == path[|path| - 1];
    StripSurrounded(" ", line, "\n");
    assert '\n' !in line by {
      assert line == "M " + path;
    }
    SplitAbsent(line, '\n');
  }

  /** `M <path>` is staged only, under the name `path[1:]`. */
  lemma SpaceLineRead(line: string, path: string)
    requires line == "M " + path && path != ""
    ensures IsStagedLine(line) && !IsModifiedLine(line) && !IsUntrackedLine(line)
    ensures PathField(line) == path[1..]
  {
    assert line[0] == 'M' && line[1] == ' ';
    assert line[3..] == path[1..];
  }

  lemma SpaceLinePorcelain(es: seq<StatusEntry>, path: string)
    requires es == [StatusEntry(' ', 'M', path)]
    ensures PorcelainText(es) == " M " + path + "\n"
  {
    assert es[..0] == [];
    assert EntryLines(es) == [EntryLine(es[0])];
    JoinCons(EntryLine(es[0]), [""], '\n');
  }

  lemma OneEntry(e: StatusEntry)
    ensures FilterMap([e], IndexChanged, EntryPath) == if IndexChanged(e) then [e.path] else []
    ensures FilterMap([e], WorktreeModified, EntryPath) == if WorktreeModified(e) then [e.path] else []
    ensures FilterMap([e], Untracked, EntryPath) == if Untracked(e) then [e.path] else []
  {
    assert [e] == [] + [e];
    FilterMapSnoc([], e, IndexChanged, EntryPath);
    FilterMapSnoc([], e, WorktreeModified, EntryPath);
    FilterMapSnoc([], e, Untracked, EntryPath);
  }

  /** When the first entry's index column is not blank and the last path does
      not end in whitespace, the parse as written agrees with the corrected one. */
  lemma AsWrittenAgrees(es: seq<StatusEntry>, branchOutput: string)
    requires forall k :: 0 <= k < |es| ==> WellFormed(es[k])
    requires |es| >= 1 && !IsSpace(es[0].index)
    requires var p := es[|es| - 1].path; p != "" && !IsSpace(p[|p| - 1])
    ensures StatusOf(PorcelainText(es), branchOutput) == CorrectedStatusOf(PorcelainText(es), branchOutput)
  {
    AsWrittenLines(es);
    CorrectedLines(es);
    EmptyLineIgnored(EntryLines(es), branchOutput);
  }

  /** Under the same conditions the strip-and-split yields exactly the entry lines. */
  lemma AsWrittenLines(es: seq<StatusEntry>)
    requires forall k :: 0 <= k < |es| ==> WellFormed(es[k])
    requires |es| >= 1 && !IsSpace(es[0].index)
    requires var p := es[|es| - 1].path; p != "" && !IsSpace(p[|p| - 1])
    ensures StatusLines(PorcelainText(es)) == EntryLines(es)
  {
    StripPorcelain(es);
    EntryLinesNoNewline(es);
    SplitJoin(EntryLines(es), '\n');
  }

  /** Splitting porcelain text yields the entry lines and one empty line after them. */
  lemma CorrectedLines(es: seq<StatusEntry>)
    requires forall k :: 0 <= k < |es| ==> WellFormed(es[k])
    ensures Split(PorcelainText(es), '\n') == EntryLines(es) + [""]
  {
    EntryLinesNoNewline(es);
    NoNewlineWithEmpty(EntryLines(es));
    SplitJoin(EntryLines(es) + [""], '\n');
  }

  lemma NoNewlineWithEmpty(lines: seq<string>)
    requires forall k :: 0 <= k < |lines| ==> '\n' !in lines[k]
    ensures forall k :: 0 <= k < |lines| + 1 ==> '\n' !in (lines + [""])[k]
  {
    forall k | 0 <= k < |lines| + 1 ensures '\n' !in (lines + [""])[k] {
      if k < |lines| { assert (lines + [""])[k] == lines[k]; }
    }
  }

  /** An empty line changes no list and no error: the loop skips it. */
  lemma EmptyLineIgnored(lines: seq<string>, branchOutput: string)
    ensures StatusOfLines(lines + [""], branchOutput) == StatusOfLines(lines, branchOutput)
  {
    var all := lines + [""];
    SameSelection(lines);
    forall k | 0 <= k < |lines| ensures all[k] == lines[k] { }
    assert !IsTooShortLine(all[|lines|]);
  }

  /** Under the conditions of AsWrittenAgrees, the leading strip removes only the final newline. */
  lemma StripPorcelain(es: seq<StatusEntry>)
    requires |es| >= 1 && !IsSpace(es[0].index)
    requires var p := es[|es| - 1].path; p != "" && !IsSpace(p[|p| - 1])
    ensures Strip(PorcelainText(es)) == Join(EntryLines(es), '\n')
  {
    var lines := EntryLines(es);
    JoinConcat(lines, [""], '\n');
    var body := Join(lines, '\n');
    assert PorcelainText(es) == "" + body + "\n";
    EntryLinesFirst(es);
    JoinFirst(lines, '\n');
    var last := EntryLine(es[|es| - 1]);
    assert last[|last| - 1] == es[|es| - 1].path[|es[|es| - 1].path| - 1];
    JoinLast(lines, '\n');
    StripSurrounded("", body, "\n");
  }

  lemma {:induction false} EntryLinesFirst(es: seq<StatusEntry>)
    requires |es| >= 1
    ensures EntryLines(es)[0] == EntryLine(es[0])
  {
    if |es| > 1 {
      EntryLinesFirst(es[..|es| - 1]);
    }
  }
}
