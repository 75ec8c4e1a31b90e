# Git-Summarizer: a verified model of its parsing and formatting rules

Git-Summarizer reads a git repository and turns the output of `git status`,
`git diff --stat`, `git log` and `git rev-list` into records. It then asks an
LLM (Gemini or OpenRouter) to summarise them, prints them to the terminal and
can post a report to Slack. This project is a Dafny model of the deterministic
core of that program, with proofs of what it does:

- **Git output parsing** (`git/analyzer.py`):
  - `GitStatus`: porcelain status lines become the staged, modified and untracked lists.
  - `DiffStats`: the stat output gives the file names and the insertion and deletion totals, and a diff is truncated to a character budget (this also covers `get_commit_diff`).
  - `CommitLog`: `\x01`/`\x00`-separated log records become commits.
  - `GitCommands`: the error check of `_run_git`, the current branch and the commit count.
  - The records themselves are in `GitRecords`.
- **Configuration** (`config.py`, module `Configuration`): reading settings from the environment, the choice of provider, `validate`, and the global `get_config`, modelled as a class whose field holds the kept configuration.
- **LLM client** (`llm/client.py`, module `LlmClient`): how the constructor picks provider, key, model and endpoint (the class `LLMClient` with its setup methods), the provider's display name, and the cleanup of fenced commit-message replies.
- **Prompts** (`llm/prompts.py`, module `Prompts`): the capped file list, and how the diff, the statistics, the history and the counts are embedded.
- **Slack** (`integrations/slack.py`, module `Slack`): `_truncate`, the commit-list text and the block list of `send_report`, each built by a loop as in the source.
- **Terminal output** (`output/formatter.py`):
  - `Listings`: the branch line, the capped status groups, the commits table, the diff preview and the last-activity wording.
  - `FileIcons`: the extension-to-icon lookup.
  - `FileTree`: the directory grouping of `print_file_tree`.

The Python built-ins these rules rely on are written out in `PyBuiltins`, and `Wrappers` holds the `Option`, `Result` and `Outcome` types. The built-ins are `str.strip`, `split` and `join` on one character, slicing with negative bounds, `int()` and `str()` of an integer. Git's outputs, the environment and the time elapsed since the last commit are inputs to the model. Nothing is run: a process, a request and a clock become parameters.

## Model

| member | source | states |
|---|---|---|
| `GitCommands.RunGit` | src/git_summarizer/git/analyzer.py:57-73 | A missing git executable gives "not installed". A run fails exactly when it is fatal: a non-zero exit with non-empty stderr containing `fatal:`. The error carries the stripped stderr. Every other run returns its stdout. |
| `GitCommands.SuccessfulRunPasses` | src/git_summarizer/git/analyzer.py:67-71 | A zero exit status returns stdout, whatever git wrote to stderr. |
| `GitCommands.NonFatalFailurePasses` | src/git_summarizer/git/analyzer.py:67-71 | A failing run whose stderr does not contain `fatal:` anywhere still returns its stdout. |
| `GitCommands.CurrentBranch` | src/git_summarizer/git/analyzer.py:75-77 | The branch name has no surrounding whitespace, and it is empty exactly when git printed only whitespace. |
| `GitCommands.CurrentBranchOfName` | src/git_summarizer/git/analyzer.py:75-77 | A branch name printed on its own line is read back unchanged. |
| `GitCommands.CommitCount` | src/git_summarizer/git/analyzer.py:221-229 | `get_commit_count` on the git output. Its contract is stated by `CommitCountBlank`, `CommitCountParses` and `CommitCountRoundTrip` below. |
| `GitCommands.CommitCountBlank` | src/git_summarizer/git/analyzer.py:229 | Blank `rev-list --count` output counts as 0 commits. |
| `GitCommands.CommitCountParses` | src/git_summarizer/git/analyzer.py:229 | For non-blank output, the count fails exactly where `int(output.strip())` raises, and otherwise is the value it reads. `int()` skips nothing more of the stripped text. |
| `GitCommands.CommitCountRoundTrip` | src/git_summarizer/git/analyzer.py:221-229 | The decimal count git prints, followed by a newline, is read back as that number. |
| `GitStatus.ParseStatus` | src/git_summarizer/git/analyzer.py:79-109 | `get_repo_status` gives the status of the stripped, split porcelain output (`StatusOf`), about which the lemmas below are proved. |
| `GitStatus.ScanStatusLines` | src/git_summarizer/git/analyzer.py:87-101 | The loop builds the three lists as the in-order, duplicate-keeping selection of each line's path (`line[3:]`) by its code. A one-character line makes it fail with the IndexError of `code[1]`. |
| `GitStatus.StatusMembership` | src/git_summarizer/git/analyzer.py:90-101 | A path is in staged, modified or untracked exactly when some line with the matching code (index column in MADRC, work-tree column M, or `??`) carries it. |
| `GitStatus.StatusFailsOnlyOnShortLine` | src/git_summarizer/git/analyzer.py:90-97 | The parse raises exactly when some line is one character long. |
| `GitStatus.DirtyIffStagedOrModified` | src/git_summarizer/git/analyzer.py:107 | `is_dirty` holds exactly when some line is staged or modified, so untracked files alone leave the repository clean. |
| `GitStatus.StagedAndModifiedLine` | src/git_summarizer/git/analyzer.py:94-98 | A line changed in both columns puts its path in both staged and modified. |
| `GitStatus.UntrackedLineOnly` | src/git_summarizer/git/analyzer.py:94-101 | A `?? path` line goes to untracked only, and the repository is not dirty. |
| `GitStatus.EmptyLineIgnored` | src/git_summarizer/git/analyzer.py:88-89 | An empty line changes no list and causes no error. |
| `GitStatus.CorrectedRoundTrip` | src/git_summarizer/git/analyzer.py:87-107 | Splitting without the leading strip reads every well-formed porcelain text back exactly. Each list is the entries selected by their columns, in order and with repetitions. Dirty means some entry is staged or modified. |
| `GitStatus.AsWrittenAgrees` | src/git_summarizer/git/analyzer.py:87 | When the first entry's index column is not blank and the last path does not end in whitespace, the parse as written equals the corrected parse. |
| `GitStatus.FirstLineSpaceLost` | src/git_summarizer/git/analyzer.py:87-91 | A first line ` M path` loses its leading space to the strip. It is read as a staged file named `path[1:]`, not as modified. |
| `GitStatus.FirstLineCorrected` | src/git_summarizer/git/analyzer.py:87-91 | The corrected parse reads ` M path` as the modified file `path`. |
| `DiffStats.ScanStatLines` | src/git_summarizer/git/analyzer.py:136-139 | The loop collects, in order, the file name of every stripped stat line that contains a bar. |
| `DiffStats.StatFileNameBeforeBar` | src/git_summarizer/git/analyzer.py:138 | A file name is the stripped text before the line's first bar. |
| `DiffStats.StatFilesMembership` | src/git_summarizer/git/analyzer.py:136-139 | A name is in `files` exactly when some line with a bar names it. |
| `DiffStats.SummaryLineAddsNoFile` | src/git_summarizer/git/analyzer.py:136-139 | A line without a bar, such as the summary line, adds no file. |
| `DiffStats.StatTextRoundTrip` | src/git_summarizer/git/analyzer.py:136-139 | For stat output of well-formed entries and a summary line, `files` is exactly the entries' names in order. Each name may be padded with any number of spaces before its bar, as git aligns the bars. This holds even though the outer strip removes the first line's leading space. |
| `DiffStats.FirstMatch` | src/git_summarizer/git/analyzer.py:142-145 | `re.search` from a position: a found position is a match with no match between the start and it, and "not found" means no match anywhere after the start. |
| `DiffStats.FirstMatchAt` | src/git_summarizer/git/analyzer.py:142-145 | Conversely, a match with none before it is the one the search finds. |
| `DiffStats.Search` | src/git_summarizer/git/analyzer.py:142-147 | The captured group is a non-empty run of digits. |
| `DiffStats.MatchIsWholeNumber` | src/git_summarizer/git/analyzer.py:142-145 | No digit stands right before the leftmost match, so the group is never the tail of a longer number. |
| `DiffStats.CountIsPyInt` | src/git_summarizer/git/analyzer.py:146-154 | The count is what `int(match.group(1))` returns for the first match. |
| `DiffStats.NoMarkerNoCount` | src/git_summarizer/git/analyzer.py:142-154 | Without the text `(+)` (or `(-)`) there is no match and the total is 0. |
| `DiffStats.CountAtStart` | src/git_summarizer/git/analyzer.py:142-154 | A number followed by ` insertion(s)(+)` (or the deletion form) is the count read. |
| `DiffStats.Insertions` | src/git_summarizer/git/analyzer.py:142-147 | The insertion total. Its contract is stated by `CountIsPyInt`, `NoMarkerNoCount` and `CountAtStart` for the word `insertion` and the sign `+`. |
| `DiffStats.Deletions` | src/git_summarizer/git/analyzer.py:149-154 | The deletion total. Its contract is stated by `CountIsPyInt`, `NoMarkerNoCount` and `CountAtStart` for the word `deletion` and the sign `-`. |
| `DiffStats.FilesWithoutTotals` | src/git_summarizer/git/analyzer.py:132-154 | A stat output with a binary file line (with any padding) and no counts has a non-empty `files` list and both totals 0. |
| `DiffStats.ParseDiffStats` | src/git_summarizer/git/analyzer.py:125-166 | `_parse_diff_stats` returns the files, the two totals and the truncated diff that the functions above specify. |
| `DiffStats.DiffSummaryOf` | src/git_summarizer/git/analyzer.py:125-166 | The `DiffSummary` returned. `ParseDiffStats` ties the method to it, `StatTextRoundTrip` and `FilesWithoutTotals` state its files and totals, and `TruncateKeepsPrefix`, `TruncateUnchanged` and `NegativeBudget` state its diff. |
| `DiffStats.TruncateDiff` | src/git_summarizer/git/analyzer.py:157-159 | The rule shared with `get_commit_diff` (lines 216-219). It is stated by `TruncateKeepsPrefix`, `TruncateUnchanged` and `NegativeBudget` below: an exceeded positive budget keeps the first `max_chars` characters and adds the marker, and no budget, a zero budget or a diff within budget is unchanged. |
| `DiffStats.TruncateKeepsPrefix` | src/git_summarizer/git/analyzer.py:216-217 | With a positive budget that is exceeded, exactly the first `max_chars` characters stay, followed by the 17-character marker. |
| `DiffStats.TruncateUnchanged` | src/git_summarizer/git/analyzer.py:216-219 | No budget, a zero budget, or a diff within the budget (including exactly at it) leaves the diff unchanged. |
| `DiffStats.NegativeBudget` | src/git_summarizer/git/analyzer.py:158-159 | A negative budget always truncates: Python's slice drops `-max_chars` characters from the end. |
| `CommitLog.ParseCommitLog` | src/git_summarizer/git/analyzer.py:180-210 | `get_recent_commits` returns the commits of the log output as `CommitsOf` defines them, about which the lemmas below are proved. |
| `CommitLog.ScanLogEntries` | src/git_summarizer/git/analyzer.py:186-208 | The loop keeps one commit per non-blank fragment with at least five fields, in order. The hash, author, email and subject are fields 0, 1, 2 and 4. The body is field 5 or empty. |
| `CommitLog.BlankLogHasNoCommits` | src/git_summarizer/git/analyzer.py:180-181 | Blank output has no commits. |
| `CommitLog.DroppedFragment` | src/git_summarizer/git/analyzer.py:187-192 | A blank fragment, or one with fewer than five fields, contributes nothing wherever it stands. |
| `CommitLog.CommitMembership` | src/git_summarizer/git/analyzer.py:184-208 | A commit is in the result exactly when some fragment is a record that builds it. |
| `CommitLog.LogRoundTrip` | src/git_summarizer/git/analyzer.py:171-208 | The output of the log format for well-formed commits parses back to exactly those commits, in order. |
| `CommitLog.IsoTextOfGitDate` | src/git_summarizer/git/analyzer.py:195-197 | Git's ISO date `day time zone` is normalised to `dayTtimezone` before `fromisoformat`. |
| `Configuration.ProviderValue` | src/git_summarizer/config.py:15-18 | The enum values are "gemini" and "openrouter". |
| `Configuration.GetEnv` | src/git_summarizer/config.py:26-41 | `os.getenv`: the variable's value when it is set, otherwise the default. |
| `Configuration.IntSetting` | src/git_summarizer/config.py:30-31 | A numeric setting fails exactly where `int()` fails on the variable or its default. `int()` skips only the whitespace `PyIntKeepsSeparators` describes. The error records the variable and the text that failed. |
| `PyBuiltins.PyIntKeepsSeparators` | src/git_summarizer/config.py:30-31 | `int()` does not skip the separators U+1C to U+1F, which `strip()` removes, so a setting starting with one fails. Space and newline around the digits are skipped. |
| `Configuration.LoadConfig` | src/git_summarizer/config.py:21-41 | `Config.load()` (`cls()`, lines 67-70) succeeds exactly when both numeric settings parse. Then the day count and the diff budget are their parsed values, and the two keys, the two model names, the preference and the webhook URL come from their variables. Their defaults are empty, "gemini-flash-latest", "xiaomi/mimo-v2-flash:free", "auto" and empty. The fields are built in declaration order, so a bad `GIT_SUMMARIZER_DAYS` is the error reported even when `GIT_SUMMARIZER_MAX_DIFF` is bad too, and otherwise a bad `GIT_SUMMARIZER_MAX_DIFF` is. |
| `Configuration.LoadEmptyEnvironment` | src/git_summarizer/config.py:26-41 | With nothing set, the defaults hold: 7 days, 8000 characters, the two default models and "auto". |
| `Configuration.ActiveProvider` | src/git_summarizer/config.py:43-61 | `get_active_provider` as a decision table. An explicit preference is honoured only with its key and never falls back. Under "auto", OpenRouter wins whenever its key is set and Gemini is used otherwise if its key is set. An unknown preference always raises. A chosen provider has a non-empty key. |
| `Configuration.ProviderAvailable` | src/git_summarizer/config.py:45-54 | A provider is found exactly when a key the preference permits is set. |
| `Configuration.Validate` | src/git_summarizer/config.py:63-65 | `validate` raises exactly when `get_active_provider` would, with the same error. |
| `Configuration.ConfigRegistry.constructor` | src/git_summarizer/config.py:74 | The global configuration starts unset. |
| `Configuration.ConfigRegistry.GetConfig` | src/git_summarizer/config.py:77-82 | The first successful call loads and keeps the configuration. Every later call returns the kept one unchanged. A failing load keeps nothing. |
| `LlmClient.CleanCommitMessage` | src/git_summarizer/llm/client.py:118-123 | The cleaned message has no surrounding whitespace. If the stripped reply does not open with a fence, or is at most two lines, the result is the stripped reply. Otherwise the first and last lines are dropped and the rest is stripped. |
| `LlmClient.PlainMessageUnchanged` | src/git_summarizer/llm/client.py:119-123 | A stripped message that does not open with a fence comes back unchanged. |
| `LlmClient.CleanupSettles` | src/git_summarizer/llm/client.py:119-123 | Cleaning a cleaned message that does not open with a fence changes nothing. |
| `LlmClient.FencedReplyRoundTrip` | src/git_summarizer/llm/client.py:119-123 | A reply consisting of a fence line, a stripped message and a closing fence, with any whitespace around it, cleans to exactly that message, whatever its lines. |
| `LlmClient.UnfenceFenced` | src/git_summarizer/llm/client.py:120-122 | Dropping the first and last lines of a fenced reply leaves the message. |
| `LlmClient.EffectiveKey` | src/git_summarizer/llm/client.py:31 | `api_key or configured`: an explicit non-empty key wins over the configured one. |
| `LlmClient.ChosenProvider` | src/git_summarizer/llm/client.py:17-21 | A provider passed in is used as it is. Otherwise the configured choice is used, and its error is raised. |
| `LlmClient.ClientSettings` | src/git_summarizer/llm/client.py:14-46 | A constructed client has a non-empty effective key and the chosen provider's model. It has the OpenRouter base URL exactly when the provider is OpenRouter. An explicit non-empty key is always used. Construction fails exactly when no provider is chosen or the effective key is empty. |
| `LlmClient.ExplicitProviderOverrides` | src/git_summarizer/llm/client.py:18-27 | An explicit provider with a usable key is used even when the configuration would choose another provider or none. |
| `LlmClient.TitleWord` | src/git_summarizer/llm/client.py:102 | `str.title()` of one lower-case word capitalises its first letter and keeps the rest. |
| `LlmClient.LLMClient.WithProvider` | src/git_summarizer/llm/client.py:17-21 | The client starts with its provider set and nothing else. |
| `LlmClient.LLMClient.SetupGemini` | src/git_summarizer/llm/client.py:29-37 | Sets the key (`api_key or` the configured one) and the Gemini model, then raises if the key is empty. |
| `LlmClient.LLMClient.SetupOpenRouter` | src/git_summarizer/llm/client.py:39-46 | Sets the key, the OpenRouter model and the base URL, then raises if the key is empty. |
| `LlmClient.LLMClient.ProviderName` | src/git_summarizer/llm/client.py:100-102 | The display name is "Gemini" or "Openrouter": the title-cased enum value. |
| `LlmClient.NewClient` | src/git_summarizer/llm/client.py:14-27 | The constructor yields a fresh client whose fields are `ClientSettings`, or raises exactly the error `ClientSettings` names. |
| `Prompts.FileItems` | src/git_summarizer/llm/prompts.py:10 | One `  - f` item per shown file, in order. |
| `Prompts.FileList` | src/git_summarizer/llm/prompts.py:10-12 | The `file_list` text. Its contract is stated by `FileListSplits` and `EmptyFileList`. |
| `Prompts.FileListSplits` | src/git_summarizer/llm/prompts.py:10-12 | For at least one file, with no newlines in the file names, the list has one line per file for the first 20 files, in order. It has one more line counting the rest exactly when there are more than 20. |
| `Prompts.EmptyFileList` | src/git_summarizer/llm/prompts.py:10-12 | Without files the list is the empty string: one empty line, not zero lines. |
| `Prompts.LongFileList` | src/git_summarizer/llm/prompts.py:11-12 | Past 20 files, the list is the joined items, a newline, and the line counting `len(files) - 20` more files. |
| `Prompts.StatusSummary` | src/git_summarizer/llm/prompts.py:8-44 | The `status_summary` prompt. Its contract is stated by `StatusSummaryEmbeds` and `StatusSummaryKeepsDiff`. |
| `Prompts.StatusSummaryEmbeds` | src/git_summarizer/llm/prompts.py:8-44 | The summary prompt contains the file list, the statistics and the diff as given. |
| `Prompts.StatusSummaryKeepsDiff` | src/git_summarizer/llm/prompts.py:23-26 | The diff is placed unaltered: for the same statistics and files, different diffs give different prompts. |
| `Prompts.CommitMessage` | src/git_summarizer/llm/prompts.py:47-71 | The `commit_message` prompt. Its contract is stated by `CommitMessageEmbeds` and `CommitMessageKeepsDiff`. |
| `Prompts.CommitMessageEmbeds` | src/git_summarizer/llm/prompts.py:47-71 | The commit prompt contains the statistics and the diff as given. |
| `Prompts.CommitMessageKeepsDiff` | src/git_summarizer/llm/prompts.py:54-57 | For the same statistics, different diffs give different commit prompts. |
| `Prompts.ProgressReport` | src/git_summarizer/llm/prompts.py:74-106 | The `progress_report` prompt. Its contract is stated by `ProgressReportStatesCounts`. |
| `Prompts.ProgressReportStatesCounts` | src/git_summarizer/llm/prompts.py:74-106 | The report prompt opens with the period and commit-count header and ends with the statistics restating both. The commit history appears in between as given. |
| `Slack.Truncate` | src/git_summarizer/integrations/slack.py:91-95 | Text within the budget is unchanged. Longer text, with a budget of at least 3, becomes exactly `max_length` characters: the first `max_length - 3` followed by `...`. |
| `Slack.TruncateBounded` | src/git_summarizer/integrations/slack.py:91-95 | With a budget of at least 3, the result never exceeds it and starts with a prefix of the text. |
| `Slack.BuildCommitText` | src/git_summarizer/integrations/slack.py:55-65 | The loop builds the heading, one bullet per commit among the first five with its subject cut to 50 characters, and the overflow note (`CommitText`). |
| `Slack.MoreNoteIffOverflow` | src/git_summarizer/integrations/slack.py:64-65 | The `... and N more` note ends the text exactly when there are more than five commits. |
| `Slack.OnlyFirstFiveListed` | src/git_summarizer/integrations/slack.py:57-62 | Commits after the fifth change nothing but the count in the note. |
| `Slack.BulletLinesConcat` | src/git_summarizer/integrations/slack.py:57-62 | Each listed commit contributes its own line, in order. |
| `Slack.BuildBlocks` | src/git_summarizer/integrations/slack.py:26-79 | The message is built block by block, as `ReportBlocks` describes. |
| `Slack.BlocksShape` | src/git_summarizer/integrations/slack.py:54-79 | Every message has the four opening blocks, then the commit section only when there are commits, then a divider and the footer. |
| `Slack.SummaryBounded` | src/git_summarizer/integrations/slack.py:45-51 | The summary section is its heading followed by the report cut to at most 2500 characters. |
| `Listings.BranchLine` | src/git_summarizer/output/formatter.py:58-64 | The branch panel text. Its contract is stated by `BranchLineStates`. |
| `Listings.BranchLineStates` | src/git_summarizer/output/formatter.py:58-64 | The branch panel opens with the branch name and ends with "Clean" exactly when nothing is uncommitted. |
| `Listings.StatusGroup` | src/git_summarizer/output/formatter.py:71-90 | The lines of one status group. Its contract is stated by `StatusGroupShape`, `OverflowNoted` and `StatusOverflowNoted`. |
| `Listings.StatusGroupShape` | src/git_summarizer/output/formatter.py:71-90 | A group is empty exactly for no files. Otherwise it has a heading with the count, the first `cap` files in order, and a `... and N more` line only past the cap. The shown and the untold files add up to all of them. |
| `Listings.OverflowNoted` | src/git_summarizer/output/formatter.py:73-76 | The last line of a group is an overflow line exactly when the group is over its cap. |
| `Listings.StatusOverflowNoted` | src/git_summarizer/output/formatter.py:71-90 | This holds for the staged (cap 5), modified (cap 5) and untracked (cap 3) groups. |
| `Listings.SubjectDisplay` | src/git_summarizer/output/formatter.py:228 | A subject of at most 50 characters is shown whole. A longer one shows its first 50 characters and `...`. |
| `Listings.SubjectDisplayBounded` | src/git_summarizer/output/formatter.py:228 | A shown subject is at most 53 characters and starts with the subject's first 50. |
| `Listings.CommitRows` | src/git_summarizer/output/formatter.py:199-237 | The rows of the commit table. Its contract is stated by `CommitRowsShape` and `CommitRowAt`. |
| `Listings.CommitRowsShape` | src/git_summarizer/output/formatter.py:199-237 | No table for no commits. Otherwise row `k` shows commit `k` (its number read back is `k + 1`, plus date, subject and author) for the first 15 commits. A final row counts `len - 15` more only past 15. |
| `Listings.CommitRowAt` | src/git_summarizer/output/formatter.py:216-234 | Each of the first 15 rows shows its commit under its number. |
| `Listings.DiffPreview` | src/git_summarizer/output/formatter.py:136-145 | The preview printed, if any. Its contract is stated by `PreviewBlank`, `PreviewWhole` and `PreviewCut`. |
| `Listings.PreviewBlank` | src/git_summarizer/output/formatter.py:138-139 | Exactly a whitespace-only diff prints nothing. |
| `Listings.PreviewWhole` | src/git_summarizer/output/formatter.py:141-144 | A diff within the line budget is shown whole, without a note. |
| `Listings.PreviewCut` | src/git_summarizer/output/formatter.py:141-145 | A longer diff shows exactly its first `max_lines` lines, then a note. The diff is those lines, a newline and the rest, and the note counts exactly the lines of the rest. |
| `Listings.Bucketing` | src/git_summarizer/output/formatter.py:283-291 | Minutes for under an hour today, then hours for later today (1 to 23), "Yesterday" for a day, and the day count otherwise. Each count is the elapsed time rounded down. |
| `Listings.ActivityText` | src/git_summarizer/output/formatter.py:283-291 | The wording of the elapsed time. Its contract is stated by `ActivityCountReadsBack` and `UnitsDistinct`, over the buckets `Bucketing` specifies. |
| `Listings.LastActivityLine` | src/git_summarizer/output/formatter.py:279-296 | A line is printed exactly when there is a last activity. `ActivityLineShows` states what it contains. |
| `Listings.ActivityLineShows` | src/git_summarizer/output/formatter.py:293-296 | The line is the clock lead, then exactly the wording of the elapsed time's bucket, then the bracketed timestamp. |
| `Listings.ActivityCountReadsBack` | src/git_summarizer/output/formatter.py:285-291 | A wording with a count ends in its unit, and `int()` of the text before the unit gives the count back. |
| `Listings.UnitsDistinct` | src/git_summarizer/output/formatter.py:285-291 | The three units differ from each other and no counted wording is "Yesterday", so the text tells the bucket's kind. |
| `FileIcons.IconOf` | src/git_summarizer/output/formatter.py:342-359 | The icon of `_get_file_icon`. It is stated by `IconOfSuffix`, `IconIgnoresCase` and `PythonIcon`: `stem.ext` gets the table icon of the lower-cased `ext`, or the default page icon for an unknown one. Case does not matter, and `.py` files get the snake. |
| `FileIcons.FileIcon` | src/git_summarizer/output/formatter.py:339-359 | A name without a dot gets the default icon, and every icon is the default or one from the table. |
| `FileIcons.Extension` | src/git_summarizer/output/formatter.py:341 | A name without a dot has no extension, and an extension has no upper-case ASCII letter. `ExtensionIsSuffix` states which text it is. |
| `FileIcons.ExtensionIsSuffix` | src/git_summarizer/output/formatter.py:341 | The extension is the dot-free text after the last dot: the name is a stem, a dot and the extension. |
| `FileIcons.IconOfSuffix` | src/git_summarizer/output/formatter.py:341-359 | `stem.ext` gets the icon of the lower-cased `ext`. |
| `FileIcons.IconIgnoresCase` | src/git_summarizer/output/formatter.py:341 | Extensions equal up to case get the same icon. |
| `FileIcons.PythonIcon` | src/git_summarizer/output/formatter.py:341-343 | Any file whose extension lowers to `py` gets the snake icon. |
| `FileTree.Normalize` | src/git_summarizer/output/formatter.py:324 | Replacing backslashes by slashes keeps the length and leaves no backslash. |
| `FileTree.AddFile` | src/git_summarizer/output/formatter.py:324-335 | Placing a file keeps the `dirs` dictionary consistent with the tree. Every entry names a directory node at its position, and every directory node is registered. |
| `FileTree.BuildFileTree` | src/git_summarizer/output/formatter.py:313-335 | No tree for no files. Otherwise the loop builds the children of `TreeOf(files)`. |
| `FileTree.PlaceFile` | src/git_summarizer/output/formatter.py:324-335 | The loop body places one file as `AddFile` does. |
| `FileTree.OneNodePerDirectory` | src/git_summarizer/output/formatter.py:332-333 | A directory has one node: two directory children with the same path are the same child. |
| `FileTree.RootLevelFile` | src/git_summarizer/output/formatter.py:325-328 | A path of one component becomes a file directly under the root. |
| `FileTree.NestedFile` | src/git_summarizer/output/formatter.py:329-335 | A nested path goes last under the node of its directory. A node is created only for a directory not seen before. |
| `FileTree.EveryFileOnce` | src/git_summarizer/output/formatter.py:323-335 | Every input file is exactly one leaf: the leaf paths are the normalised input paths, counted with repetition. |

## Left out

- Running git, reading the environment, the Gemini SDK and OpenRouter HTTP calls (`_generate`, `summarize_changes`, `generate_report`), the Slack webhook post and all Rich rendering are I/O. Their inputs and outputs are parameters or are not modelled.
- `get_uncommitted_diff` and `get_staged_diff` only run git and pass the output to `_parse_diff_stats`, which is modelled.
- `get_last_activity`, `datetime.fromisoformat`, its `datetime.now()` fallback and `strftime` are library date handling. A commit's date is the normalised text handed to `fromisoformat`. The elapsed `timedelta` is an input (`Delta`, kept normalised as Python does), and formatted dates are function parameters.
- The `--since=N days ago` filter of `git log` and `git rev-list` is git's behaviour, not the program's.
- The Slack average (`round(total / max(days, 1), 1)`) and the diff-stat bar widths in `print_diff_stats` are floating point. The average is an opaque text in the model.
- Commits given as dictionaries or other objects (the duck-typed branches of `send_report` and `print_commits_table`) are not modelled. Only `CommitInfo` is.
- `Configuration.IntSetting`: the error text is not Python's. `int()` raises a `ValueError` that quotes only the literal, while the model's error also names the variable it came from.
- `Listings.CommitRowsShape`: the "N/A" date of a commit without a date is not modelled, because `CommitInfo` always has a date.
- Digits and lower-casing are ASCII only. They do not cover the Unicode decimal digits that `\d` and `int()` accept, or non-ASCII `lower()`. For the icon table, ASCII lowering gives the same lookups. `strip()` removes Python's full `isspace` set. `int()` skips that set except the separators U+1C to U+1F, which it keeps.
- `Configuration.ConfigRegistry.GetConfig`: "the same instance" is modelled as the same kept value, because `Config` is never mutated.
- `LlmClient.LLMClient.SetupGemini`: the `genai.Client` object it creates is not modelled.
- `LlmClient.ClientSettings` takes the configuration as a parameter, rather than calling `get_config` itself.
- `Slack.Truncate`: its contract says nothing about budgets below 3, which the source does not expect. The body still follows Python's slicing there.
- `load_dotenv`, `cli.py`, `output/prompts.py` and the package `__init__` files are glue and interactive UI.

## Findings

| source | as written | input that shows it | evidently intended | confidence | as-written member | corrected member |
|---|---|---|---|---|---|---|
| src/git_summarizer/git/analyzer.py:87-91 | The whole porcelain output is stripped before it is split into lines, so the first line loses its leading space. Its columns then shift left by one. | `" M a.py\n"`: a file modified only in the work tree. It is read as code `"M "`, i.e. the staged file `.py`, and nothing is modified. | Each line is read with both columns intact: `a.py` is modified and not staged. | not executed | `GitStatus.FirstLineSpaceLost` | `GitStatus.FirstLineCorrected` |

The corrected parse (`GitStatus.CorrectedStatusOf`) reads every well-formed porcelain text back exactly (`GitStatus.CorrectedRoundTrip`). `GitStatus.AsWrittenAgrees` shows the two parses agree whenever the first line's index column is not blank and the last path does not end in whitespace.
