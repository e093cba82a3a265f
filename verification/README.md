# adguardlist rule fetcher: a Dafny model of its sequential core

`main.go` downloads a list of AdGuard/hosts rule sources concurrently, merges
the successful downloads, compiles them with an external tool and writes an
annotated list. This project models the deterministic rules inside that glue
and proves properties of them:

- **Source list** (`readLines`): the rules file is scanned line by line, each
  line is trimmed, and blank lines and `#` comments are dropped
  (`sources.dfy`, built on `scanner.dfy`, `strings.dfy`, `linefilter.dfy`).
- **Rule count** (`countRules`): the number of trimmed lines that are neither
  blank nor `!`/`#` comments (`rules.dfy`).
- **One download** (`downloadWorker`): five checks in a fixed order (request
  built, transport, status 200, body read, body non-empty). The first check
  that fails decides the error. If all pass, the body is the content
  (`download.dfy`). The network is replaced by an `Exchange` value holding
  the environment's answers.
- **Collection, summary and merge** (`main`): results are received in arrival
  order and put into successful contents or failed URLs. They are counted.
  The run aborts when nothing succeeded. Otherwise the successes are joined
  with `'\n'` (`collect.dfy`, `bytes.dfy`). Arrival order is any permutation
  of the one result per source URL (`IsArrivalOrder`: equal multisets).
- **Header lines**: the `# Total sources: T (Success: S, Failed: F)` line and
  the `# Source URLs:` block with one `# - url` line per source
  (`header.dfy`). Each comes with a parser, and round-trip lemmas show that
  the header reports exactly what was collected.

Text is `string` (`seq<char>`). Downloaded bytes and file contents are
modelled as characters, one per byte.

Two consequences of how `main.go` is written, which the model keeps:

- The merged payload follows **arrival** order (main.go:156, 171), so it can
  differ between runs with the same downloads. `Collect.MergeFollowsArrival`
  shows that two successful downloads whose contents differ and hold no '\n'
  give different payloads in their two arrival orders. `Collect.SourceOrderArrival` shows the payload is in source order
  when the results happen to arrive in source order. The failed-URL list is in
  arrival order too.
- An empty source list is not a separate "nothing to do" case. Zero
  successes abort the run, so the code aborts then as well (main.go:165-167).
  `Collect.RunAccounts` says the run is merged exactly when some download
  succeeded. With no sources, none did.

## Model

| member | source | states |
|---|---|---|
| `Strings.TrimSpace` | main.go:47 | the trimmed line is a slice of the line with only white space before and after it and no white space at either of its ends |
| `Strings.TrimOfUnique` | main.go:47 | there is exactly one way to trim a string, so the characterisation of `TrimSpace` is complete |
| `Strings.TrimSpaceIdempotent` | main.go:47 | trimming an already trimmed line changes nothing |
| `Strings.TrimEmptyIffAllSpace` | main.go:47-48 | a line trims to "" exactly when it is all white space, i.e. it is blank |
| `Scanner.Lines` | main.go:45-46 | there are no more lines than characters, and there are none only for empty input |
| `Scanner.LinesHaveNoNewline` | main.go:45-46 | no scanned line holds a '\n' |
| `Scanner.LinesOfTerminated` | main.go:45-46 | writing lines each followed by '\n' and scanning them back gives the same lines |
| `Scanner.LinesOfJoined` | main.go:110-112 | scanning `a + "\n" + b` gives the lines of `a`, possibly one empty line, then the lines of `b` |
| `LineFilter.KeepTrimmed` | main.go:46-51 | every kept line is accepted by the filter and trimmed, and there are at most as many kept lines as input lines |
| `LineFilter.KeepTrimmedSpec` | main.go:46-51 | every input line whose trim the filter accepts is kept, the kept lines are an order-preserving subsequence of the trimmed input lines, and there is one kept line per accepted input line, duplicates included |
| `LineFilter.KeepTrimmedEmpty` | main.go:112-118 | nothing is kept exactly when no trimmed line is accepted |
| `LineFilter.KeepTrimmedAppend` | main.go:46-51 | filtering line by line distributes over concatenation of the input |
| `SourceList.SourceLines` | main.go:37-53 | every source line is non-empty, does not start with `#`, is already trimmed and holds no '\n'; every qualifying input line appears; the list is an order-preserving subsequence of the trimmed lines with one entry per qualifying line (a URL listed twice appears twice) |
| `SourceList.ReadLines` | main.go:44-52 | the scanning loop returns exactly `SourceLines` of the file text |
| `SourceList.SourceLinesStable` | main.go:46-51 | writing the source list back one URL per line and reading it again gives the same list |
| `RuleCount.RuleLines` | main.go:113-114 | every counted line is non-empty and starts with neither `!` nor `#` |
| `RuleCount.CountRules` | main.go:109-119 | the counting loop returns the number of rule lines, which is the number of scanned lines whose trim is a rule and never exceeds the number of scanned lines |
| `RuleCount.RuleCountZero` | main.go:112-118 | the count is 0 exactly when every line is blank or a `!`/`#` comment |
| `RuleCount.RulesOfJoined` | main.go:112-118 | the rules of `a + "\n" + b` are the rules of `a` followed by the rules of `b` |
| `Download.Fetch` | main.go:64-104 | the result keeps its URL; it succeeds exactly when all five checks pass, and then carries the non-empty body; otherwise it carries no content and the error of the first failing check, with the status code for a bad status |
| `Download.StagesInOrder` | main.go:67-101 | each error kind is reported exactly when its own check fails and all earlier checks pass |
| `Download.FetchReportsFirstFailure` | main.go:67-101 | a check is the first to fail exactly when the download reports that check's error |
| `Collect.SuccessContents` | main.go:147-158 | the successful contents in arrival order, at most one per result |
| `Collect.FailedUrls` | main.go:147-158 | the failed URLs in arrival order, at most one per result |
| `Collect.PartitionSizes` | main.go:149-158 | every result is counted once as a success or as a failure |
| `Collect.PartitionAppend` | main.go:149-158 | collecting a concatenation of arrivals collects each part in turn |
| `Collect.PartitionPermutation` | main.go:149-158 | reordering the arrivals permutes the successful contents and the failed URLs and changes nothing else |
| `Collect.CollectResults` | main.go:147-158 | the receiving loop returns the successful contents and the failed URLs in arrival order, one entry per result |
| `Collect.Aggregate` | main.go:161-171 | the summary counts add up to the number of results; the run aborts exactly when no result succeeded; otherwise the merge is the successful contents in arrival order joined with '\n', which starts with the first success and whose length is the total content length plus one per separator |
| `Collect.MergeOfAppend` | main.go:156-171 | when two arrival sequences each hold a success, both and their concatenation are merged, and merging the concatenation gives the first merge, one '\n', then the second merge, whatever the contents hold |
| `Collect.NoSuccessIff` | main.go:161-167 | there is no successful content exactly when no result succeeded |
| `Collect.MergedSplitsBack` | main.go:171 | splitting the merge at '\n' gives back the successful contents when none holds a '\n' |
| `Collect.RunAccounts` | main.go:129-167 | for any arrival order: success + failed = number of sources; the failed URLs are, with multiplicity, the sources whose download failed; the contents are the downloaded bodies, each non-empty; the run merges exactly when some download succeeded |
| `Collect.SummaryIgnoresArrival` | main.go:149-167 | the summary and the abort decision do not depend on arrival order |
| `Collect.SourceOrderArrival` | main.go:149-171 | when results arrive in source order, the merge is the downloaded bodies joined in source order |
| `Collect.MergeFollowsArrival` | main.go:156 | two successful results with different one-line contents merge differently in the two orders they can arrive in |
| `Collect.DownloadedBodiesShape` | main.go:97-103 | every downloaded body is non-empty, and there is one exactly when some exchange passes all checks |
| `Bytes.Join` | main.go:171 | no parts join to "", one part joins to itself, and a join starts with the first part, ends with the last, and is the parts' total length plus one per gap |
| `Bytes.JoinAppend` | main.go:171 | joining two non-empty lists one after the other puts exactly one separator between their joins, whatever the parts contain; with the one-part case this fixes every join |
| `Bytes.SplitJoin` | main.go:171 | splitting a join gives the parts back when no part holds the separator |
| `Bytes.JoinSplit` | main.go:171 | joining a split gives the string back |
| `Header.Decimal` | main.go:202 | `%d` of a count is a non-empty run of decimal digits with no leading zero, and exactly `0` for 0 |
| `Header.DecimalRoundTrip` | main.go:202 | the `%d` rendering of a count reads back as the count |
| `Header.CountsLine` | main.go:202 | the counts line starts with `# Total sources: ` and ends with its '\n' |
| `Header.CountsLineRoundTrip` | main.go:202 | the counts line reads back as exactly the total, success and failure counts it was built from |
| `Header.RulesLine` | main.go:203 | the rule-count line starts with `# Total rules: ` and ends with its '\n' |
| `Header.RulesLineRoundTrip` | main.go:203 | the rule-count line reads back as exactly the count it was built from |
| `Header.UrlLines` | main.go:207-209 | one `# - url` line per URL, in list order |
| `Header.SourceUrlsBlock` | main.go:206-209 | the block starts with the `# Source URLs:` heading line and ends with a '\n' |
| `Header.SourceUrlsRoundTrip` | main.go:206-209 | the URL block has a heading and one `# - url` line per URL, in order, and reads back as the URL list |
| `Header.HeaderListsSources` | main.go:206-209 | the block built from the source list names every source read from the rules file, in file order |
| `Header.HeaderCountsReportRun` | main.go:161-202 | a header's counts line reports the number of sources and success and failure counts that add up to it, with at least one success |

## Left out

- Goroutines, the job and result channels and the `WaitGroup` (main.go:133-145, 159) are not modelled. Their only effect on the result is the arrival order, which the model leaves arbitrary.
- HTTP is not modelled: `http.NewRequest`, `client.Do`, the 45 s timeout, the User-Agent header and `io.ReadAll` (main.go:59-95). Their answers are the inputs of `Download.Fetch`. The text of the error messages and `resp.Status` are not modelled, only the error kind and status code.
- File system work is not modelled: opening the rules file and its read error, writing, removing and reading the temporary files, and the output directories (main.go:38-42, 52, 172-175, 187, 216-235).
- The `hostlist-compiler` process (main.go:179-185) is an external tool. `CountRules` takes its output as a parameter.
- The title, version, build time, expiry and homepage header lines are not modelled (main.go:195-201, 204-205, 210-211). They use the clock, the environment or fixed text. Building the final file from the header and the compiler output (main.go:213) is not modelled either. The rule-count line (main.go:203) is modelled as `Header.RulesLine` and prints the result of `CountRules`; the compiler output that it counts comes from the external tool.
- Writing `GITHUB_ENV` (main.go:238-257) is I/O, and Go map iteration order is unspecified.
- Logging and `log.Fatal` are not modelled. The abort is the `Aborted` run value.
- `Scanner.Lines`: has no limit on line length, unlike `bufio.Scanner`'s token-too-long error.
- `Strings.TrimSpace`: trims ASCII white space only. Go also trims Unicode spaces such as U+0085 and U+00A0.
