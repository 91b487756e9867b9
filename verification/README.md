# danger-slather coverage core, in Dafny

A model of the logic in the Danger plugin `Danger::DangerSlather`. The plugin
reads the coverage files of an Xcode project, as reported by the Slather
coverage tool. It computes the project's total coverage and checks it
against a minimum. It also checks every modified file against a minimum and
builds a markdown table of per-file coverage.

The model is a set of pure functions over a sequence of file records
`FileCoverage(path, tested, testable, pct)`:

- `Coverage` is the aggregation fold of `total_coverage`, in exact `real`
  arithmetic. It returns `None` when there is no project (`@project` is nil)
  or when no line is testable.
- `Notices` holds the notify level and its severity (`:fail` fails, every
  other level warns), the minimum as given, and the two message texts. The
  module also reads a text back into its notice.
- `Checks` holds `notify_if_coverage_is_less_than` and
  `notify_if_modified_file_is_less_than`. They return the messages they
  would send instead of calling the host's `fail` and `warn`. When
  `@project` is nil they return `Err(NoProject)`, because Ruby raises
  NoMethodError there.
- `Host` turns messages into the host's status report. `fail` appends to
  the errors and `warn` to the warnings.
- `Table` is `modified_files_coverage_table`: a header, a separator and one
  row per coverage file. It also renders the table to text, with the number
  formatter passed in as a parameter.
- `Scenarios` restates the test suite's scenarios on the model.

The minimum is `Minimum(value, spelling)`. `value` is the number the checks
compare against. `spelling` is the text Ruby interpolates for it, for
example `50` for the Integer 50. The messages insert that text unchanged:
`Total coverage less than 50 code coverage` and
`AppDelegate.swift has less than 50 code coverage`.

Where the tests and the code disagree, the model follows the code:

- spec/slather_spec.rb:120 and :165 expect `Total coverage less than 50%`.
  lib/slather/plugin.rb:87 builds `Total coverage less than 50 code coverage`.
- spec/slather_spec.rb:51, :80, :99 and :100 expect
  `… has less than 50% code coverage`. lib/slather/plugin.rb:110 builds
  `… has less than 50 code coverage`, with no percent sign. The scenario
  lemmas state the code's texts for both messages.
- spec/slather_spec.rb:83-103 expects added files to be checked too.
  lib/slather/plugin.rb:104 consults only the modified files.
  `Scenarios.AddedFileIsNotCounted` states the code's behaviour.
- spec/slather_spec.rb:206-216 expects a table of five rows: the modified and
  added files, without ViewController5.swift at 60 percent.
  lib/slather/plugin.rb:138-142 emits a row for every coverage file.
  `Scenarios.SixFilesTable` states the code's six rows.

## Model

| member | source | states |
|---|---|---|
| Coverage.AccumulateIsSum | lib/slather/plugin.rb:29-38 | the each-loop's running totals end as the start values plus the sums of lines tested and lines testable over all coverage files |
| Coverage.TotalCoverage | lib/slather/plugin.rb:25-41 | no project gives nothing; otherwise the total is nothing exactly when no line is testable, and is 100 × Σtested / Σtestable otherwise |
| Coverage.SumsAppend | lib/slather/plugin.rb:29-38 | both sums distribute over concatenating file lists |
| Coverage.SumsRemove | lib/slather/plugin.rb:29-38 | removing one file lowers each sum by exactly that file's counts |
| Coverage.SumsPermutation | lib/slather/plugin.rb:29-38 | any reordering of the coverage files has the same two sums |
| Coverage.TotalCoverageOrderIndependent | lib/slather/plugin.rb:29-38 | the total coverage does not depend on the order of the coverage files |
| Coverage.TotalCoverageOnlySums | lib/slather/plugin.rb:29-38 | file lists with the same two sums have the same total |
| Notices.ReadNotice | lib/slather/plugin.rb:87-110 | a notice read back from a string carries the given minimum, and its text is that string |
| Notices.FileTextIsNotTotalText | lib/slather/plugin.rb:87-110 | no file message has the same text as the total message |
| Notices.ReadTextRoundTrip | lib/slather/plugin.rb:87-110 | each total or file message text reads back to exactly its notice |
| Notices.FileTextInjective | lib/slather/plugin.rb:110 | two file messages with the same minimum have the same text only for the same path |
| Checks.ProjectCheck | lib/slather/plugin.rb:85-94 | errs exactly when there is no project; otherwise at most one message, and one exactly when some line is testable and 100 × Σtested / Σtestable < minimum; the message is the total notice at the level's severity |
| Checks.SelectThenNotifyIsOffenders | lib/slather/plugin.rb:103-117 | selecting the modified files and then checking each one equals a single in-order pass reporting every modified file below the minimum |
| Checks.ModifiedFilesCheck | lib/slather/plugin.rb:102-119 | errs exactly when there is no project; otherwise its messages are the single-pass report over the coverage files |
| Checks.OffendersExactly | lib/slather/plugin.rb:103-117 | the single pass reports file i if and only if its path is modified and its pct is below the minimum, once per file, in coverage-file order |
| Checks.ModifiedFilesCheckExactly | lib/slather/plugin.rb:102-119 | the per-file check reports exactly the modified files below the minimum, once each, in coverage-file order, at the level's severity |
| Checks.ModifiedFilesCheckOnlyModified | lib/slather/plugin.rb:103-105 | every message names a modified path with the given minimum and severity; an unmodified file is never reported, whatever its coverage |
| Checks.OffendersNoMatch | lib/slather/plugin.rb:103-107 | when no coverage file is modified, the single pass reports nothing |
| Checks.ModifiedFilesCheckNoMatch | lib/slather/plugin.rb:103-107 | when no coverage file is modified, the check returns no messages |
| Host.RouteIsTwoFilters | lib/slather/plugin.rb:108-117 | the host's errors are the failing messages' texts and its warnings are all other messages' texts, each list in message order |
| Host.RoutePartition | lib/slather/plugin.rb:88-92 | each message lands in exactly one of the host's lists: the lengths add up and the two lists together hold exactly the message texts |
| Host.RouteBySeverity | lib/slather/plugin.rb:111-115 | a failing message's text appears among the errors and any other message's text among the warnings |
| Host.RouteUniform | lib/slather/plugin.rb:88-92 | messages of one severity all go, in order, to that severity's list, and the other list stays empty |
| Host.RouteSingle | lib/slather/plugin.rb:88-92 | a single message lands in its severity's list alone |
| Host.RouteAppend | lib/slather/plugin.rb:108-117 | routing two batches one after the other appends their entries in that order |
| Host.ProjectCheckRouting | lib/slather/plugin.rb:85-94 | at level `:fail` the project check fills only the errors; at any other level only the warnings |
| Host.ModifiedFilesCheckRouting | lib/slather/plugin.rb:102-119 | at level `:fail` the per-file check fills only the errors; at any other level only the warnings |
| Table.Rows | lib/slather/plugin.rb:138-142 | one row per coverage file, row k holding file k's path and percentage |
| Table.ModifiedFilesCoverageTable | lib/slather/plugin.rb:134-146 | no project gives no table; otherwise the `File`/`Coverage` header line, the dashed separator line and one row per coverage file in input order, not filtered by modified files |
| Table.RenderRowsAppend | lib/slather/plugin.rb:138-142 | rendering the rows distributes over splitting them |
| Table.RenderRowsLines | lib/slather/plugin.rb:141 | with no line break inside a path or formatted percentage, the rendered rows are one line per row |
| Table.HeadLines | lib/slather/plugin.rb:136-137 | the header and separator are exactly two lines |
| Table.TableLines | lib/slather/plugin.rb:134-146 | a project's rendered table starts with the header and separator lines and has exactly two lines more than there are coverage files |
| Scenarios.ProjectBelowMinimumFails | spec/slather_spec.rb:107-123 | files at 10, 20 and 20 of 100 against minimum 50 put the one total message in the errors |
| Scenarios.ProjectAboveMinimumPasses | spec/slather_spec.rb:125-137 | files at 50, 80 and 80 of 100 produce no message |
| Scenarios.ProjectAboveMinimumWithLowFilePasses | spec/slather_spec.rb:139-151 | files at 20, 80 and 80 of 100 produce no message |
| Scenarios.ProjectBelowMinimumWarns | spec/slather_spec.rb:153-168 | at level `:warning` the total message goes to the warnings, none to the errors |
| Scenarios.OnlyModifiedFileReported | spec/slather_spec.rb:35-54 | of three files, only the modified one below the minimum is reported |
| Scenarios.OnlyModifiedFileFails | spec/slather_spec.rb:35-54 | that file's message is the only error and there is no warning |
| Scenarios.AppDelegateText | lib/slather/plugin.rb:110 | the file message text the code builds for AppDelegate.swift at minimum 50 (the tests expect `… 50% code coverage`) |
| Scenarios.ModifiedFileAboveMinimumPasses | spec/slather_spec.rb:56-69 | a modified file at 80 percent produces no message |
| Scenarios.ModifiedFileBelowMinimumWarns | spec/slather_spec.rb:71-81 | at level `:warning` the file message goes to the warnings, none to the errors |
| Scenarios.AddedFileIsNotCounted | spec/slather_spec.rb:83-103 | an added file that is not modified is not reported; only the modified file is |
| Scenarios.SixFilesTable | lib/slather/plugin.rb:134-146 | for the six files of spec/slather_spec.rb:187-196, at 10 to 60 percent, the total is 35 percent and the table lists all six in input order, as the code builds it (the test expects only the five modified or added files) |
| Scenarios.NoProjectYieldsNothing | lib/slather/plugin.rb:26-135 | without a project there is no total and no table, and both checks stop with the no-project error |

Proof helpers with no counterpart in the program, and so no row above:
`Coverage.MatchFirst` and `Coverage.MultisetRemove` (multiset facts about
any sequence), `Checks.Shift`, `Checks.ShiftReports` and `Checks.ConsReports`
(index shifting for the in-order proof), and `Table.Count`,
`Table.CountAppend`, `Table.NoBreakCount` and `Table.LineCount` (character
counts in any string).

## Left out

- `configure` (lib/slather/plugin.rb:48-77) is not modelled. It only forwards options to `Slather::Project.open`, `configure` and `post`, which do file and network I/O in the coverage library. A project is an input here, and "not configured" is `None`.
- `percentage_lines_tested` is the coverage library's own per-file percentage. It is taken as the opaque input `pct` and is not computed from the line counts.
- `decimal_f` (the coverage library's number formatting) is not modelled. The table keeps each percentage as a number, and `Table.Render` takes the formatter as a parameter.
- `show_total_coverage`, `show_modified_files_coverage` and `show_coverage` (lib/slather/plugin.rb:124-168) are not modelled. They only pass strings to the host's `markdown` call, and their text depends on Ruby's float formatting.
- The memoisation of `@total_coverage` (lib/slather/plugin.rb:27) is not modelled. It is an efficiency detail, and a pure function gives the same value for the same inputs anyway.
- `git.modified_files` and `git.added_files` come from the host. The modified files are an input set, and added files are not consulted, as in the code.
- Coverage.TotalCoverage: uses exact real arithmetic, not IEEE double rounding. It maps both of the source's zero-testable results, NaN (0 / 0.0) and Infinity (n / 0.0), to `None`. Either one compares false against any finite minimum, so in this zero-testable case the project check behaves the same as the source.
- Checks.ProjectCheck: compares the exact ratio 100 × Σtested / Σtestable with the minimum. The source compares the rounded double `(tested / testable.to_f) * 100.0` (lib/slather/plugin.rb:38, :86), so near the minimum the two can differ. For example, 29 of 100 lines gives the double 28.999999999999996, so at minimum 29 the source sends the message and the model does not. The same holds for 57 and 58 of 100 and 29 of 50.
- Checks.ProjectCheck: the minimum is modelled as a real number. The source accepts any Ruby value that compares with a Float, and a non-numeric minimum would raise there.
- Checks.ModifiedFilesCheck: a NaN per-file percentage, which the coverage library may give for a file with no testable lines, compares false in Ruby. Here `pct` is an ordinary real.
