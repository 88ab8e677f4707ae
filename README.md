# collate_json_reports, modelled in Dafny

This project models the `collate_json_reports` action of the fastlane
test_center plugin. The action takes a list of JSON test reports and writes one
collated report:

- The `reports` option is validated first. An empty list fails with
  "No JSON report files found". Otherwise the first path, in list order, that
  does not exist fails with "Error: JSON report not found: '<path>'".
- With exactly one report, the file is copied to the destination unchanged.
- With more than one, the first report is parsed as the base and every later
  report is merged into it, in list order. The base is then serialised to the
  destination.
- Merging `other` into `base` (`merge_reports`) loops over a snapshot of the
  base's keys. Every key except `tests_failures` and `tests_summary_messages`
  gets `other`'s value appended in place. `tests_failures` is overwritten with
  `other`'s value on every iteration, so the last report wins.
  `tests_summary_messages` keeps the base's value. Keys that only `other` has
  are ignored.

Modules:

- `Wrappers` (wrappers.dfy): `Option`, `Result` and `Outcome`.
- `JsonValues` (json.dfy): JSON values. A report is `map<string, Json>`.
  `Lookup` reads a missing key as `null`, as Ruby's `Hash#[]` returns `nil`.
- `ReportMerge` (merge.dfy): the merge step, as a specification function
  `Merge` and as the loop `MergeReports`. Also the fold `MergeAll` and lemmas
  about it.
- `Collator` (collate.dfy): validation (`Validate` and the loop
  `VerifyReports`), the action body (`Collation` and the method `Run`) and the
  whole action (`Collate` and `CollateJsonReports`).

File I/O is not performed. The files are a `map<Path, Bytes>`: a path exists
when it is a key. JSON parsing is a function parameter `Bytes -> Option<Report>`.
The action's result is the content it would write at the destination: the
copied bytes, or the report to serialise.

Concatenation follows Ruby's `concat`. An array takes an array and a string
takes a string. In the model, any other pair, including a key missing from the
later report (`nil`), is an error, and the collation fails with `MergeFailed`.
Ruby also lets a string take an integer (see `ReportMerge.CanConcat` under
"Left out"). When the
first report is non-empty and the last report has no `tests_failures`, the
collated value is `null`. The same gap in an earlier report is overwritten by
the next report's value.

## Model

| member | source | states |
|---|---|---|
| `ReportMerge.Merge` | lib/fastlane/plugin/test_center/actions/collate_json_reports.rb:22-29 | The merge succeeds exactly when every concatenated base key can take the other report's value. Its key set is the base's, plus `tests_failures` when the base is non-empty. Each concatenated key holds base value followed by the other value. `tests_failures` is the other report's value (non-empty base). `tests_summary_messages` is unchanged. An empty base is returned unchanged. |
| `ReportMerge.MergeReports` | lib/fastlane/plugin/test_center/actions/collate_json_reports.rb:22-29 | The loop over a key snapshot, assigning `tests_failures` on every iteration, gives exactly `Merge`: the repeated assignment equals one assignment after the concatenation pass. |
| `ReportMerge.MergeAllConcatenates` | lib/fastlane/plugin/test_center/actions/collate_json_reports.rb:12-26 | Over a successful fold, an array-valued concatenated key holds the first report's elements followed by every later report's elements, in input order. Every later report holds an array there. |
| `ReportMerge.MergeAllLastWins` | lib/fastlane/plugin/test_center/actions/collate_json_reports.rb:12-27 | After folding at least one report into a non-empty base, `tests_failures` is the last report's value. |
| `ReportMerge.MergeAllKeepsSummary` | lib/fastlane/plugin/test_center/actions/collate_json_reports.rb:12-26 | The fold keeps the first report's `tests_summary_messages`, and never adds the key. |
| `ReportMerge.MergeAllKeys` | lib/fastlane/plugin/test_center/actions/collate_json_reports.rb:22-29 | The fold's key set is the base's, plus `tests_failures` once something was merged into a non-empty base. Keys only later reports have never appear. |
| `ReportMerge.MergeAllEmptyBase` | lib/fastlane/plugin/test_center/actions/collate_json_reports.rb:23-28 | Folding anything into an empty base yields the empty report. |
| `ReportMerge.MergeAllSplit` | lib/fastlane/plugin/test_center/actions/collate_json_reports.rb:12-15 | Folding `rs1 + rs2` equals folding `rs1` and then folding `rs2` into its result. An error in `rs1` is final. |
| `ReportMerge.MergeExample` | lib/fastlane/plugin/test_center/actions/collate_json_reports.rb:22-29 | A worked example: the failures come from the later report and the warnings are `["w1", "w2"]`. |
| `Collator.MessageIdentifiesError` | lib/fastlane/plugin/test_center/actions/collate_json_reports.rb:60-62 | Distinct validation errors have distinct messages, so a not-found message names exactly its path. |
| `Collator.FirstMissing` | lib/fastlane/plugin/test_center/actions/collate_json_reports.rb:61-63 | The index returned is that of the first path that does not exist; every earlier path exists. |
| `Collator.Validate` | lib/fastlane/plugin/test_center/actions/collate_json_reports.rb:59-63 | Validation passes if and only if the list is non-empty and every path exists. It fails with `NoReportFiles` if and only if the list is empty. Otherwise it fails with `ReportNotFound(p)` for the first missing path `p` in list order, and only for that path. |
| `Collator.VerifyReports` | lib/fastlane/plugin/test_center/actions/collate_json_reports.rb:59-63 | The early-exit loop over the paths gives exactly `Validate`. |
| `Collator.Run` | lib/fastlane/plugin/test_center/actions/collate_json_reports.rb:6-20 | The single-report copy, or the loop that parses and merges each later report, gives exactly `Collation`, so the first failure in list order ends the collation. |
| `Collator.CollateJsonReports` | lib/fastlane/plugin/test_center/actions/collate_json_reports.rb:6-20 | Validation followed by `Run` gives exactly `Collate`. |
| `Collator.SingleReportIsCopied` | lib/fastlane/plugin/test_center/actions/collate_json_reports.rb:8-9 | A one-element list is copied byte for byte when the file exists, whatever the parser says. Otherwise it fails naming the path. |
| `Collator.FoldIsMergeAll` | lib/fastlane/plugin/test_center/actions/collate_json_reports.rb:12-15 | The path fold succeeds exactly when every path parses and the merge fold over the parsed reports succeeds. The two results then agree. |
| `Collator.CollatedIsMergeAll` | lib/fastlane/plugin/test_center/actions/collate_json_reports.rb:10-19 | A successful collation of two or more reports serialises the fold of every later report, in list order, into the first. |
| `Collator.CollatedFailuresAreLast` | lib/fastlane/plugin/test_center/actions/collate_json_reports.rb:11-27 | With two or more reports and a non-empty first report, the collated `tests_failures` is the last report's. |
| `Collator.CollatedSummaryIsFirst` | lib/fastlane/plugin/test_center/actions/collate_json_reports.rb:11-24 | With two or more reports, the collated `tests_summary_messages` is the first report's. |
| `ReportMerge.MergeAllConcatenatesStrings` | lib/fastlane/plugin/test_center/actions/collate_json_reports.rb:12-26 | Over a successful fold, a string-valued concatenated key holds the first report's text followed by every later report's text, in input order. Every later report holds a string there. |
| `Collator.FoldParseErrorAt` | lib/fastlane/plugin/test_center/actions/collate_json_reports.rb:12-15 | A parse failure of the fold names a listed path that does not parse. Every earlier path parsed, and their reports merged without error. |
| `Collator.FoldMergeErrorAt` | lib/fastlane/plugin/test_center/actions/collate_json_reports.rb:12-15 | A merge failure of the fold happens at some listed path. Every path up to and including it parsed, the reports before it merged without error, and merging its report raised the error. |
| `Collator.CollateParseErrorNamesPath` | lib/fastlane/plugin/test_center/actions/collate_json_reports.rb:8-15 | A parse failure of a collation needs at least two reports. It names the first listed path, in list order, that does not parse. |
| `Collator.CollateMergeErrorAt` | lib/fastlane/plugin/test_center/actions/collate_json_reports.rb:8-15 | A merge failure of a collation happens at some later report. Every report up to it parsed, the earlier ones merged into the first without error, and merging it raised the error. |
| `ReportMerge.MergeAll` | lib/fastlane/plugin/test_center/actions/collate_json_reports.rb:12-15 | The reference definition of the fold: merge each report in list order, stopping at the first error. It has no contract of its own. The `MergeAll*` lemmas above describe it: concatenation, last-write-wins `tests_failures`, the unchanged summary, the key set, the empty base and the split of the fold. |
| `Collator.Message` | lib/fastlane/plugin/test_center/actions/collate_json_reports.rb:60-62 | The messages of the two validation errors. The no-reports message does not start with the not-found prefix, and every not-found message does. `MessageIdentifiesError` shows that a not-found message also names exactly its path. |
| `Collator.Fold` | lib/fastlane/plugin/test_center/actions/collate_json_reports.rb:12-15 | The reference definition of the loop over the later paths: parse, then merge, stopping at the first failure. It never fails with a validation error, and a parse failure names one of the paths. `FoldIsMergeAll`, `FoldParseErrorAt` and `FoldMergeErrorAt` describe it fully. |
| `Collator.Collation` | lib/fastlane/plugin/test_center/actions/collate_json_reports.rb:6-20 | The reference definition of the action body. One report always succeeds, as a copy. A success writes to the destination, and it is a copy exactly when there is one report. A failure is never a validation error, and a parse failure names a listed path. The `Collated*` and `Collate*ErrorAt` lemmas describe the merged result. |
| `Collator.Collate` | lib/fastlane/plugin/test_center/actions/collate_json_reports.rb:6-20 | The reference definition of the whole action. It fails with a validation error exactly when validation fails, and then with that error. A success writes to the destination, and a parse failure names a listed path. The `Collated*` and `Collate*ErrorAt` lemmas describe it further. |

## Left out

- File I/O (`File.exist?`, `File.read`, `FileUtils.cp`, `File.open(..., 'w')`). Files are a path-to-bytes map, and the result is the content for the destination. Read and write failures of existing files are not modelled.
- JSON parsing and serialisation (`JSON.parse`, `to_json`). Parsing is a parameter. A document whose top level is not a JSON object is treated as a parse failure, so the collation fails with `ParseFailed`. The source raises an error in most of these cases, on `keys` or on indexing. It does not raise in two cases, where the source succeeds and the model fails:
  - The first report is `{}` and a later report is any JSON value that is not an object. The merge loop never runs, so the source writes `{}`.
  - A later report is a JSON string `s`, and every concatenated key `k` of the accumulated report holds a string and occurs as a substring of `s`. Ruby's `String#[]` then returns `k` itself for `s[k]`, which `String#concat` appends, and `nil` or `"tests_failures"` for `s["tests_failures"]`, instead of raising. For example, `{"log":"a"}` followed by `"log"` gives `{"log":"alog","tests_failures":null}`. An accumulated report holding only `tests_failures` and `tests_summary_messages` is the special case with no concatenated key.
- Hash key order. Reports are maps, so the order of keys in the output is not modelled. `MergeReports` takes the keys in any order, and its result does not depend on the order. The merge error does not name a key, as Ruby's `TypeError` does not.
- `Collator.Run`: the source `shift`s the first path out of the caller's `reports` array, so the array is changed after the call. The model does not change its input list.
- `ReportMerge.MergeReports`: the in-place update of the base hash and its arrays is modelled as a value that the loop reassigns. Nothing else refers to the parsed base, so aliasing is not observable. Some objects do become shared with the later report: its `tests_failures` value, and the elements that `concat` moves into the base's arrays. None of them is mutated afterwards.
- `ReportMerge.CanConcat`: Ruby's `String#concat` with an integer appends a code point. The model treats that pair as an error.
- Floating-point numbers: JSON numbers are exact reals, since the collator never inspects them.
- The fastlane host plumbing: the `Action` base class, option definitions, environment variable names, the default `result.json`, `is_supported?`, and the documentation methods. `UI.user_error!` is modelled as an error result.
