# Subtask inclusion checker: a verified model of its decision layer

The two scripts `check_subtask_inclusion.py` and `standalone_subtask_inclusion.py` find input files that could belong to more test groups than they do. Both scripts work in these steps:

1. Walk `<problem>/data`. Record:
   - each test group's input-validator flags, taken from `testdata.yaml`;
   - the groups each `.in` file appears in;
   - each group's test cases;
   - each file's path.
2. Order the groups and the input files.
3. Run the compiled validator on every (file, group) pair. Each result becomes a verdict: `OK:Y`, `OK:N`, `MISS`, `BAD` or (check script only) `UNKNOWN`.
4. Treat the `sample` column specially:
   - the check script rewrites a `MISS` there to `SKIP`;
   - the standalone script deletes the whole column.
5. Count `BAD` and `MISS`.
6. Lay out a table.
7. The check script also reports, for each group g1, the groups g2 other than `sample` under whose flags none of g1's test cases is `OK:N` or `BAD` and at least one is `MISS`. An `UNKNOWN` or `SKIP` cell neither blocks g2 nor counts towards it.

The project models these steps in Dafny and proves what they compute.

| file | module | what it models |
|---|---|---|
| `wrappers.dfy` | `Wrappers` | `Option`, used for the exception that stops the standalone script |
| `strings.dfy` | `Strings` | `str` ordering, `in`, `endswith`, `os.path.basename`, `os.path.join`, the `(\d+)\.in` prefix match |
| `discovery.dfy` | `Discovery` | the `os.walk` loop of both scripts, as a fold over the directory records the walk yields |
| `discovery_facts.dfy` | `DiscoveryFacts` | what the walk leaves in each dictionary, stated per directory and per file |
| `ordering.dfy` | `Ordering` | `sorted`, the `sample`-first group order and the input-key order |
| `ansi.dfy` | `Ansi` | the colour codes and the `\x1B\[[0-?]*[ -/]*[@-~]` stripping of the standalone table |
| `verdicts.dfy` | `Verdicts` | `run_validator` as a parameter, and `go` in both scripts |
| `matrix.dfy` | `Matrix` | row building, the `sample` rewrite or deletion, `count_word_occurrences` and both summaries |
| `inclusion.dfy` | `Inclusion` | `tc_index` and the missed-inclusion loop |
| `pipeline.dfy` | `Pipeline` | `validate_problem` of the check script from the walk to the report |
| `layout.dfy` | `Layout` | `pad`, the check script's column widths and the standalone column widths |

How external things are modelled:

- **The validator.** It is a function `Runner` from (path, flags) to an exit code or a raised exception. A file is accepted when the exit code is 42.
- **The walk.** It is the sequence of `Dir` records `os.walk` yields: each directory's path, its file names, and its parsed `testdata.yaml`.
- **Python dicts.** They keep insertion order, so the model stores the order of their keys next to each map.

Behaviour of the code worth knowing:

- **Input order.** Input files sort by the key `(re.match(r'(\d+)\.in', x) is None, x)`, so digit names compare as strings: `10.in` comes before `2.in` (`Ordering.StringOrderNotNumeric`).
- **The `sample` rewrite.** The rewrite targets every cell of the `sample` column, that is, every input file judged under the sample group's flags.
- **`UNKNOWN`.** Only the check script catches validator exceptions and reports `UNKNOWN`. In the standalone script the exception ends the run (`None` in the model).
- **Repeated group names.** When two group directories share a basename, a later one resets `group_testcases` for that name (`DiscoveryFacts.CasesOfLastDirectory`).
- **What gets counted.** `count_word_occurrences` looks at every cell, file names included (`Matrix.Occurrences`).

## Model

| member | source | states |
|---|---|---|
| Strings.BelowIrreflexive | check_subtask_inclusion.py:152-153 | no string sorts before itself under Python's `str` `<` |
| Strings.BelowTransitive | check_subtask_inclusion.py:152-153 | `str` `<` is transitive |
| Strings.BelowTotal | check_subtask_inclusion.py:152-153 | of two different strings, one sorts before the other |
| Strings.BelowAsymmetric | check_subtask_inclusion.py:152-153 | if a sorts before b, b does not sort before a |
| Strings.ContainsAt | check_subtask_inclusion.py:255 | `word in item` holds exactly when `word` occurs in `item` at some position |
| Strings.BasenameSuffix | check_subtask_inclusion.py:134 | `basename(p)` contains no `/`, is a suffix of `p`, and is either all of `p` or preceded by `/` |
| Strings.BasenameAfterSeparator | check_subtask_inclusion.py:134 | after a prefix that is empty or ends in `/`, the basename is the name that follows |
| Strings.JoinBasename | check_subtask_inclusion.py:150 | the basename of `os.path.join(dirpath, file)` is `file` |
| Strings.LeadingDigits | check_subtask_inclusion.py:158 | the length of the maximal run of digits at the start of a name |
| Strings.DigitNameMeansMatch | check_subtask_inclusion.py:158 | `re.match(r'(\d+)\.in', x)` succeeds exactly when some non-empty digit run at the start of `x` is followed by `.in` |
| Ansi.Run | standalone_subtask_inclusion.py:139 | the length of the maximal prefix inside one character class of the escape pattern |
| Ansi.EscapeLength | standalone_subtask_inclusion.py:139 | a match of the escape pattern at the front is empty or at least 3 characters, and no longer than the text |
| Ansi.StripAnsi | standalone_subtask_inclusion.py:139-141 | removing escape sequences never lengthens a cell |
| Ansi.StripPlainPrefix | standalone_subtask_inclusion.py:139-141 | text without an escape character survives stripping unchanged |
| Ansi.ColourParameters | standalone_subtask_inclusion.py:17-21 | the parameter run of each colour code is its digits |
| Ansi.ColourEscape | standalone_subtask_inclusion.py:17-21 | the pattern matches each colour code exactly |
| Ansi.StripColourPrefix | standalone_subtask_inclusion.py:139-141 | a colour code at the front is removed, whatever follows |
| Ansi.StripPainted | standalone_subtask_inclusion.py:23-28 | stripping `green(t)`, `red(t)` or `orange(t)` gives back `t` |
| Verdicts.Verdict | check_subtask_inclusion.py:165-171 | each of the four verdicts holds exactly for its combination of accepted and declared membership |
| Verdicts.VerdictRoundTrip | check_subtask_inclusion.py:166-171 | each verdict reads back as the (accepted, member) pair it came from; `UNKNOWN` and `SKIP` read as neither |
| Verdicts.Go | check_subtask_inclusion.py:162-174 | `go` gives `UNKNOWN` exactly when a dictionary lookup fails or the validator raises; otherwise the verdict means (exit code is 42, group is one of the file's groups) |
| Verdicts.GoAgrees | standalone_subtask_inclusion.py:111-120 | the standalone `go` stops exactly where the check script says `UNKNOWN`, and otherwise paints the same verdict (MISS orange, BAD red, OK green); the diagnostic re-run before `BAD` changes nothing |
| Verdicts.StandaloneCellReads | standalone_subtask_inclusion.py:111-120 | a standalone cell with its colour codes removed is the check script's verdict |
| Discovery.SetFlagsKeepsValid | check_subtask_inclusion.py:136 | setting a group's flags keeps the dictionaries consistent |
| Discovery.AddFileKeepsInputKeys | check_subtask_inclusion.py:146-150 | registering a file keeps the key order of `tc_to_groups` duplicate-free and in step with `infiles_path` |
| Discovery.AddFileKeepsCases | check_subtask_inclusion.py:148-149 | a file appended to a group's test cases also gets that group among its own groups |
| Discovery.AddFileKeepsValid | check_subtask_inclusion.py:144-150 | one iteration of the file loop keeps the dictionaries consistent |
| Discovery.AddFilesKeepsValid | check_subtask_inclusion.py:144-150 | the file loop keeps the dictionaries consistent |
| Discovery.ResetKeepsValid | check_subtask_inclusion.py:137 | resetting a group's test-case list keeps the dictionaries consistent |
| Discovery.EnterKeepsValid | check_subtask_inclusion.py:134-143 | entering a directory keeps the dictionaries consistent |
| Discovery.VisitKeepsValid | check_subtask_inclusion.py:133-150 | one iteration of the walk keeps the dictionaries consistent |
| Discovery.WalkKeepsValid | check_subtask_inclusion.py:133-150 | any walk keeps the dictionaries consistent |
| Discovery.DiscoverValid | check_subtask_inclusion.py:133-150 | after the walk, key orders are duplicate-free and match their dicts, every input has a path, and every listed test case names its group |
| Discovery.WalkCheck | check_subtask_inclusion.py:133-150 | the walk loop of the check script fills the dictionaries as the fold of directory visits does, provided no `.in` file lies directly in `data` or `secret` |
| Discovery.ScanFilesCheck | check_subtask_inclusion.py:144-150 | the file loop of one directory equals the fold of `AddFile` over its file names |
| Discovery.AddFilesWithoutCases | standalone_subtask_inclusion.py:91-96 | the file loop's effect on the other dictionaries does not depend on `group_testcases` |
| Discovery.EnterWithoutCases | standalone_subtask_inclusion.py:82-90 | entering a directory affects the other dictionaries independently of `group_testcases` |
| Discovery.VisitWithoutCases | standalone_subtask_inclusion.py:81-96 | one walk iteration affects the other dictionaries independently of `group_testcases` |
| Discovery.WalkWithoutCases | standalone_subtask_inclusion.py:81-96 | the whole walk affects the other dictionaries independently of `group_testcases` |
| Discovery.WalkStandalone | standalone_subtask_inclusion.py:81-96 | the standalone walk gives the check script's dictionaries without `group_testcases`, and accepts files directly in `data` or `secret` |
| Discovery.ScanFilesStandalone | standalone_subtask_inclusion.py:91-96 | the standalone file loop equals the fold of `AddFile` and never creates `group_testcases` entries |
| DiscoveryFacts.AddFileGroups | check_subtask_inclusion.py:146-149 | one file-loop step adds the file as a key if it is an input, and appends the group to its list |
| DiscoveryFacts.AddFilePaths | check_subtask_inclusion.py:150 | one file-loop step records the joined path of an input file and changes no other path |
| DiscoveryFacts.AddFileCases | check_subtask_inclusion.py:148 | one file-loop step appends an input file to its group's test cases and changes nothing else there |
| DiscoveryFacts.AddFilesKeepsFlags | check_subtask_inclusion.py:144-150 | the file loop leaves `group_to_flags` unchanged |
| DiscoveryFacts.AddFilesGroups | check_subtask_inclusion.py:144-149 | the file loop appends the group to an input file's list once per listing, and adds exactly the listed inputs as keys |
| DiscoveryFacts.AddFilesPaths | check_subtask_inclusion.py:144-150 | after the file loop, each listed input has its path in this directory, and other paths are unchanged |
| DiscoveryFacts.AddFilesCases | check_subtask_inclusion.py:144-148 | the file loop appends the directory's input files, in order, to its group's test cases |
| DiscoveryFacts.EnterKeepsInputs | check_subtask_inclusion.py:134-143 | entering a directory does not touch `tc_to_groups` or `infiles_path` |
| DiscoveryFacts.VisitFlags | check_subtask_inclusion.py:134-143 | a visit sets the flags of the group its directory names (the `testdata.yaml` override, or empty) and no others |
| DiscoveryFacts.VisitGroups | check_subtask_inclusion.py:133-149 | a visit appends to each input file's groups the directory's basename, once per listing |
| DiscoveryFacts.VisitPaths | check_subtask_inclusion.py:133-150 | a visit records the paths of its own input files and keeps the others |
| DiscoveryFacts.VisitCases | check_subtask_inclusion.py:134-148 | a visit to a group directory replaces that group's test cases with the directory's input files |
| DiscoveryFacts.WalkIsFold | check_subtask_inclusion.py:133-150 | the walk is the left fold of one directory visit over the walk order |
| DiscoveryFacts.VisitSteps | check_subtask_inclusion.py:133-150 | a directory visit has the four per-directory effects above |
| DiscoveryFacts.DiscoveredGroups | check_subtask_inclusion.py:133-143 | the groups are exactly the basenames of walked directories other than `data` and `secret`, plus those two when they override flags |
| DiscoveryFacts.FlagsFromLastDirectory | check_subtask_inclusion.py:134-143 | a group's flags come from the last directory naming it: its `input_validator_flags`, or empty |
| DiscoveryFacts.DiscoveredInputs | check_subtask_inclusion.py:144-149 | the inputs are exactly the listed `.in` files, and each one's groups are the basenames of the directories listing it, in walk order |
| DiscoveryFacts.PathOfLastDirectory | check_subtask_inclusion.py:150 | an input's recorded path is its path in the last directory listing it |
| DiscoveryFacts.CasesOfLastDirectory | check_subtask_inclusion.py:134-148 | a group's test cases are the input files of the last group directory with that basename |
| Ordering.PrecedesIrreflexive | check_subtask_inclusion.py:158 | nothing sorts before itself under either sort key |
| Ordering.PrecedesTransitive | check_subtask_inclusion.py:158 | both sort keys order transitively |
| Ordering.PrecedesTotal | check_subtask_inclusion.py:158 | both sort keys order any two different names |
| Ordering.PrecedesAsymmetric | check_subtask_inclusion.py:158 | under either key, two names never sort before each other |
| Ordering.NotPrecedesTransitive | check_subtask_inclusion.py:158 | under either key, "does not sort before" is transitive |
| Ordering.InsertPermutes | check_subtask_inclusion.py:152-153 | inserting adds exactly one copy of the element |
| Ordering.InsertSorted | check_subtask_inclusion.py:152-153 | inserting into a sorted list keeps it sorted |
| Ordering.SortCorrect | check_subtask_inclusion.py:152-153 | `sorted` returns a sorted rearrangement of its argument |
| Ordering.PermutationDistinct | check_subtask_inclusion.py:152-156 | rearranging dict keys cannot create duplicates |
| Ordering.SortedUnique | check_subtask_inclusion.py:152-158 | two sorted rearrangements of the same duplicate-free names are equal |
| Ordering.SortUnique | check_subtask_inclusion.py:152-158 | on duplicate-free names, the modelled sort is the only sorted rearrangement |
| Ordering.RemoveFirstPermutes | check_subtask_inclusion.py:155 | `list.remove(x)` removes one copy of `x` when there is one, and otherwise changes nothing |
| Ordering.RemoveFirstSorted | check_subtask_inclusion.py:155 | `list.remove` keeps a sorted list sorted |
| Ordering.GroupOrderCorrect | check_subtask_inclusion.py:153-156 | the columns are the groups, each once; `sample` comes first when present, and the rest are in string order |
| Ordering.InputOrderCorrect | check_subtask_inclusion.py:152-158 | the rows are the inputs, each once, sorted by the input key; the first sort by name changes nothing |
| Ordering.DigitNamesFirst | check_subtask_inclusion.py:158 | every name matching `<digits>.in` comes before every other name |
| Ordering.StringOrderNotNumeric | check_subtask_inclusion.py:158 | inputs `2.in` and `10.in` come out as `10.in`, `2.in` |
| Matrix.BuildTable | check_subtask_inclusion.py:176-181 | row i holds input i, then `go(input i, g)` for each group in column order |
| Matrix.BuildTableStandalone | standalone_subtask_inclusion.py:122-127 | the table is built exactly when no cell raises, and each cell is the standalone `go` |
| Matrix.IndexOf | check_subtask_inclusion.py:262 | `groups.index(x)` is the first position holding `x` |
| Matrix.DowngradeSample | check_subtask_inclusion.py:259-263 | in the `sample` column, exactly the cells equal to `MISS` become `SKIP`; every other cell and every row length is unchanged |
| Matrix.DeleteColumn | standalone_subtask_inclusion.py:172-174 | every row loses exactly the cell at the `sample` column |
| Matrix.CountWord | check_subtask_inclusion.py:251-257 | `count_word_occurrences` is the number of cells, file names included, that contain the word |
| Matrix.RowHitsDelete | standalone_subtask_inclusion.py:174 | deleting a cell from a row removes exactly that cell's hit from the row's count |
| Matrix.RowHitsUpdate | check_subtask_inclusion.py:263 | replacing a cell swaps the old cell's hit for the new cell's hit in the row's count |
| Matrix.DeleteColumnCounts | standalone_subtask_inclusion.py:172-176 | after the deletion, a word's count drops by exactly its hits in the `sample` column |
| Matrix.VerdictWords | check_subtask_inclusion.py:266-267 | `MISS` contains `MISS`; `SKIP` contains neither `MISS` nor `BAD`; `MISS` does not contain `BAD` |
| Matrix.DowngradeCounts | check_subtask_inclusion.py:259-267 | the rewrite removes exactly the exact-`MISS` cells of the `sample` column from the `MISS` count, and leaves the `BAD` count alone |
| Matrix.CheckSummary | check_subtask_inclusion.py:259-275 | the counts are taken on the rewritten table: `BAD` as on the original, `MISS` less the `sample` column's exact misses |
| Matrix.StandaloneSummary | standalone_subtask_inclusion.py:170-176 | `BAD` is counted before the deletion; `MISS` after it, less the `sample` column's hits |
| Inclusion.IndexRows | check_subtask_inclusion.py:278-280 | `tc_index` maps exactly the rows' file names, each to a row with that name, and no later row repeats it |
| Inclusion.CanInclude | check_subtask_inclusion.py:287-297 | for g2's column, the loop with its `break` says yes exactly when no test case of g1 is `OK:N` or `BAD` and one is `MISS` |
| Inclusion.Analyze | check_subtask_inclusion.py:281-298 | the report for each group is its `missed_inclusions`: the non-`sample` columns passing the test, in column order |
| Inclusion.TargetsUpToMembers | check_subtask_inclusion.py:283-298 | a group is among the first n columns' targets exactly when one of those columns passes the test |
| Inclusion.TargetsMembers | check_subtask_inclusion.py:281-298 | g2 is reported for g1 exactly when some column of g2 passes the inclusion test |
| Inclusion.NoSampleNoEmpty | check_subtask_inclusion.py:284-297 | `sample` is never reported, and a group without test cases reports nothing |
| Inclusion.TargetsUpToInPrefix | check_subtask_inclusion.py:283-298 | the targets among the first n columns are among those columns' groups |
| Inclusion.TargetsUpToOrdered | check_subtask_inclusion.py:283-298 | the targets among the first n columns appear in strictly increasing column order |
| Inclusion.TargetsInGroupOrder | check_subtask_inclusion.py:281-298 | reported groups appear in column order |
| Pipeline.NeverIncludesItself | check_subtask_inclusion.py:287-297 | no group is includable in itself |
| Pipeline.ListedMeansIncludable | check_subtask_inclusion.py:287-297 | on the rewritten table, a column passes the test exactly when `go` makes g1 includable in that group |
| Pipeline.SampleColumnAt | check_subtask_inclusion.py:262 | with distinct group names, `groups.index('sample') + 1` is the column of `sample` and of no other group |
| Pipeline.RewrittenCells | check_subtask_inclusion.py:259-263 | after the rewrite, cell (i, k) is `go(input i, group k)`, except a `sample` `MISS`, which becomes `SKIP` |
| Pipeline.EveryCaseIndexed | check_subtask_inclusion.py:278-290 | every test case of every group has an entry in `tc_index` |
| Pipeline.ReportMeans | check_subtask_inclusion.py:281-298 | g2 is in a group's report exactly when g2 is a group and the group is includable in g2; no group reports itself |
| Pipeline.CheckProblem | check_subtask_inclusion.py:127-298 | from the walk: the ordered groups and inputs, the table of `go` verdicts with `sample` misses skipped, the counts over it, and the inclusion report, each as stated above |
| Layout.Spaces | check_subtask_inclusion.py:201 | `' ' * n` is `n` spaces, or none when `n` is not positive |
| Layout.PadOverflow | check_subtask_inclusion.py:195-201 | `pad` leaves text wider than its column unchanged |
| Layout.PadCentres | check_subtask_inclusion.py:195-201 | otherwise `pad` puts half the free space (rounded down) on the left and the rest on the right; 0 and `None` both mean the text's own length |
| Layout.ColumnMax | check_subtask_inclusion.py:189-191 | a column's width covers its header and every cell, and equals one of them |
| Layout.LongestName | check_subtask_inclusion.py:193 | `max(len(g) for g in groups)` bounds every group name and is attained |
| Layout.ColumnWidths | check_subtask_inclusion.py:185-193 | every width is at least 3 and covers its header and cells; the first also covers every group name; each width is 3 or attained by one of those |
| Layout.PaintLength | standalone_subtask_inclusion.py:23-28 | painting a label adds nine characters |
| Layout.WidenBounds | standalone_subtask_inclusion.py:141 | one row widens a column only to the visible length of its cell |
| Layout.WidenAllBounds | standalone_subtask_inclusion.py:136-141 | after the row loop, each column is at least its start width and every cell's visible length, and equals one of them |
| Layout.Longest | standalone_subtask_inclusion.py:133-134 | the widest of the header and every input name |
| Layout.StartWidths | standalone_subtask_inclusion.py:132-134 | one start width per header |
| Layout.FirstColumnWidth | standalone_subtask_inclusion.py:133-134 | the loop over the inputs computes the widest of the header and the input names |
| Layout.StandaloneWidthBounds | standalone_subtask_inclusion.py:132-141 | each standalone width fits its header and the visible text of its cells (column 0 also every input name), and equals one of them |
| Layout.WidenRow | standalone_subtask_inclusion.py:137-141 | the in-place update of the width array for one row is one widening step |
| Layout.StandaloneWidths | standalone_subtask_inclusion.py:132-152 | the header widths are the widening of the start widths over all rows; data-row widths add 9 to every column but the first |
| Layout.AddColourRoom | standalone_subtask_inclusion.py:150-151 | every width but the first grows by 9 |
| Layout.PaintedCellFits | standalone_subtask_inclusion.py:150-156 | a painted verdict whose visible text fits the header column fits the widened data column |

## Left out

- **Outside effects.** Printing, the YAML parser, `subprocess`, compiling the validator, the thread pool, `argparse` and `discover_problems` are not modelled. The walk, the parsed `testdata.yaml` and the validator are parameters; the thread pool does not change any result, because every cell is computed independently.
- **Presentation.** `print_table`'s line assembly, `color_cell`, `format_group`, `get_group_name`, the Markdown variants of the colour helpers, and the percentage `p_misses` (a float) are not modelled. Of the check script's table, only the widths and `pad` are.
- **`flags.split()` and the per-group diagnostic text.** These belong to the validator parameter: `Runner` receives the raw flag string.
- **`\d` in the input key.** It matches only ASCII digits here. Python's `re` also accepts other Unicode decimal digits.
- **The shape of `testdata.yaml`.** The model assumes every `testdata.yaml` parses to a mapping (`Dir.config`). An empty file makes `yaml.safe_load` return `None`, and then the membership test at check_subtask_inclusion.py:142 (standalone_subtask_inclusion.py:89) raises `TypeError`. A scalar or list may also make lines 142-143 raise. Either way both scripts crash before any table, and the model does not capture that crash.
- **Non-string flag values.** The model treats `input_validator_flags` as a string. A YAML value of another type would make `flags.split()` raise inside the validator call (`Raised` in the model).
- **Rows as values.** The check script rewrites rows in place and the standalone script deletes cells in place. The model computes new tables, so it does not capture aliasing between `data` and its rows.
- **Crashes before the report.** `Pipeline.CheckProblem` requires that:
  - no `.in` file lies directly in `data` or `secret`, which would raise `KeyError` at check_subtask_inclusion.py:148;
  - every group has a test-case list, which would otherwise raise `KeyError` at line 289 when `data` or `secret` overrides its flags.
- **Empty problems.** `Layout.ColumnWidths` requires at least one group; the `max` at line 193 raises on an empty sequence.
- **Row lengths.** `Layout.ColumnWidths` requires every row to be exactly as long as the header; a shorter or longer row would raise `IndexError`. `Layout.StandaloneWidths` requires rows no longer than the header. Every built row meets both.
