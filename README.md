# rkt-monitor, modelled in Dafny

rkt-monitor starts a rkt pod and samples it once a second for a given
duration. Each tick it walks the process tree rooted at the pod's process
(`getUsage`). For every process it reads:

- `/proc/[pid]/status` for the name, FDSize, VmPeak, VmSize, VmHWM, VmRSS and
  Threads;
- `/proc/stat` for the system-wide tick total;
- `/proc/[pid]/stat` for the process's user and kernel ticks.

It remembers the previous tick's counters of the same pid. It then appends
every status to that pid's history. When the duration is over, it prints
one line per history: how many ticks the process lived, its average user CPU
share, its average virtual memory size and its peak virtual memory size.

This project models that core, file by file:

| file | module | what it models |
|---|---|---|
| `outcome.dfy` | `Outcome` | `Option`, `Result`, and the reasons the monitor panics (`Failure`) |
| `integers.dfy` | `Integers` | Go's uint64 and int64 ranges, uint64 wrap-around, sums |
| `text.dfy` | `Text` | `strings.Split`/`Join`/`TrimSpace`, `strconv.FormatUint`/`ParseUint`/`Atoi` |
| `format.dfy` | `Format` | `formatSize` and `pad` |
| `labeled_size.dfy` | `LabeledSize` | `parseLabeledSize` as it behaves, and the per-label reading it was written for |
| `process_status.dfy` | `Status` | `ProcessStatus`, `GetCPUUsageUser`/`GetCPUUsageKernel`, the scan for the previous status |
| `status_file.dfy` | `StatusFile` | the line loop over `/proc/[pid]/status` |
| `cpu_ticks.dfy` | `CpuTicks` | the three nested loops summing the `cpu ` line of `/proc/stat` |
| `pid_stat.dfy` | `PidStat` | fields 14 and 15 of `/proc/[pid]/stat` |
| `proc_status.dfy` | `ProcStatus` | `getProcStatus` as a whole |
| `children.dfy` | `Children` | `getChildrenPids` on the output of `pgrep -P` |
| `usage.dfy` | `Usage` | `getUsage`, the pre-order walk of the process tree |
| `history.dfy` | `History` | the per-pid histories of `runRktMonitor` and the final summary loop |

Modelling choices:

- Every `panic` becomes an `Err` carrying a `Failure`. A wrong line,
  number, size label, zero total, short stat line or failed `pgrep` stops the
  computation, as the panic does.
- Go's `uint64` is a `u64` subset of `int`. Every uint64 sum, subtraction and
  product is written with `Wrap` (modulo 2^64).
- The files the monitor reads are parameters: a `Reading` holds the three
  texts read for a process. A `ProcTree` gives each process its reading and
  its children.
- Where the code has a loop, a method with loop invariants is proved equal to
  a specification function. The properties are lemmas about that function.

What the code does that a reader might not expect:

- `parseLabeledSize` reads only the number. `fmt.Sscanf(size, "%d B", &num)`
  reports one stored value as soon as the number is scanned, even when the
  label after it does not match. So the first branch takes every size that
  starts with a number, and the `kB`, `mB` and `gB` branches are never
  reached. A `/proc` size of `5 kB` is stored as 5
  (`LabeledSize.KilobytesReadAsBytes`). The reading the function was written
  for is defined beside it, and related to `formatSize` by
  `LabeledSize.FormatSizeRoundTrip`.
- A process seen for the first time has no previous counters. Its CPU share
  is therefore `100 * utime / total` since boot, not 0
  (`ProcStatus.FirstObservation`).
- If a pid's user counter goes down by d, the uint64 subtraction wraps. The
  share is then (2^64 - 100 * d) / Δ, where Δ is the system tick delta: a
  huge value instead of 0 (`Status.CpuUsageUserAfterCounterDrop`). This
  happens when the pid is reused by another process.

## Model

| member | source | states |
|---|---|---|
| `Text.SplitJoin` | main.go:196 | `strings.Split` undoes `strings.Join` when no piece holds the separator |
| `Text.JoinSplit` | main.go:196 | joining the pieces `strings.Split` returns gives back the text |
| `Text.TrimLeft` | main.go:206-208 | the result is a suffix of the input, everything dropped is white space, and the result does not start with white space |
| `Text.TrimRight` | main.go:206-208 | the result is a prefix of the input, everything dropped is white space, and the result does not end with white space |
| `Text.FormatUint` | main.go:118-126 | the rendering is non-empty, all digits, denotes `n`, and has no leading zero |
| `Text.ParseFormatUint` | main.go:215 | `strconv.ParseUint` reads back what `strconv.FormatUint` writes |
| `Text.Split` | main.go:196 | definition of `strings.Split` with a one-character separator; its properties are in `Text.SplitJoin` and `Text.JoinSplit` |
| `Text.TrimSpace` | main.go:206-208 | definition of `strings.TrimSpace`; its properties are in `Text.TrimLeft` and `Text.TrimRight` |
| `Text.ParseUint` | main.go:215 | definition of `strconv.ParseUint(s, 10, 64)`; its properties are in `Text.ParseFormatUint` |
| `Text.Atoi` | main.go:298 | an accepted string denotes a value in the int64 range |
| `Text.AtoiFormatUint` | main.go:298 | `strconv.Atoi` reads back the decimal rendering of every non-negative int64 |
| `Text.NonEmpty` | main.go:197-200 | the lines kept are non-empty lines of the input, every non-empty input line is kept, and there are no more of them than input lines |
| `Integers.WrapAccumulate` | main.go:251 | adding to a uint64 running total agrees with adding to the exact sum and then wrapping |
| `Integers.SumAtMost` | main.go:92-93 | a sum of n values, each at most m, is at most n*m |
| `Integers.SumAtLeast` | main.go:92-93 | a sum of n values, each at least m, is at least n*m |
| `Format.FormatSize` | main.go:116-127 | definition of `formatSize`; its properties are in `Format.FormatSizeUnitChoice`, `LabeledSize.FormatSizeRoundTrip` and `LabeledSize.FormatSizeThroughParseLabeledSize` |
| `Format.Granularity` | main.go:116-127 | the unit is 1, 1024, 1024^2 or 1024^3; it is 1 exactly for sizes up to 1024; otherwise it is below the size and (below gigabytes) at least a 1024th of it |
| `Format.FormatSizeUnitChoice` | main.go:116-127 | `formatSize` prints the floored quotient by the granularity with that unit's label; bytes are printed unchanged; otherwise the number is at least 1, and at most 1024 below gigabytes |
| `Format.Pad` | main.go:171-176 | the result is the input followed by spaces up to 16 characters; a longer input is unchanged |
| `LabeledSize.SkipBlanks` | main.go:311 | the scanner drops a prefix made only of white space other than newline, and stops at a non-blank or a newline |
| `LabeledSize.LeadingDigits` | main.go:311 | the digits `%d` scans are all digits, a prefix of the input, and maximal |
| `LabeledSize.ScanUint` | main.go:311 | definition of what `%d` scans into a uint64; its properties are in `LabeledSize.ScanFormatted` |
| `LabeledSize.Sscanf` | main.go:311 | definition of the count `fmt.Sscanf` returns; its properties are in `LabeledSize.ParseLabeledSize` and `LabeledSize.ParseLabeledSizeIgnoresLabel` |
| `LabeledSize.ParseLabeledSize` | main.go:308-331 | the result is the scanned number whenever `%d` scans one, whatever the label; otherwise it is the unrecognized-label failure |
| `LabeledSize.ScanFormatted` | main.go:311 | `%d` reads back a formatted number followed by any non-digit |
| `LabeledSize.ParseLabeledSizeIgnoresLabel` | main.go:311-314 | a number followed by any label, known or not, reads as the bare number |
| `LabeledSize.KilobytesReadAsBytes` | main.go:311-319 | `5 kB` reads as 5, where the per-label reading gives 5120 |
| `LabeledSize.ParseLabeledSizeIntendedScales` | main.go:316-329 | the per-label reading scales a number by 1, 1024, 1024^2 or 1024^3 according to its label |
| `LabeledSize.IntendedReadsLabel` | main.go:316-329 | the per-label reading selects the unit by the label at the end of the text |
| `LabeledSize.FormatSizeRoundTrip` | main.go:116-127 | reading `formatSize`'s output per label gives the size floored to a multiple of its unit, so less than one unit is lost |
| `LabeledSize.FormatSizeThroughParseLabeledSize` | main.go:308-314 | as written, reading `formatSize`'s output gives the printed number without its unit, which differs from the size above 1024 |
| `Status.Percent` | main.go:163-169 | definition of the uint64 percentage formula; its properties are in `Status.PercentWithoutWrap` and `Status.CpuUsageUserAfterCounterDrop` |
| `Status.PercentWithoutWrap` | main.go:163-169 | without wrap-around the uint64 formula is the exact floored percentage |
| `Status.CpuUsageUser` | main.go:163-165 | defined when the system total moved; without wrap-around it is `100*(utime-lastUtime)/(timeTotal-lastTimeTotal)` |
| `Status.CpuUsageKernel` | main.go:167-169 | the same for kernel ticks |
| `Status.CpuUsageUserAtMost100` | main.go:163-165 | when the counters grow and the process used no more ticks than the system, the share is at most 100 |
| `Status.CpuUsageUserAfterCounterDrop` | main.go:163-165 | for every drop d of the user counter over a tick delta Δ (with 100 * d below 2^64), the share is (2^64 - 100 * d) / Δ instead of 0 |
| `Status.LastStatusFor` | main.go:182-187 | the status found is the zero status or an entry of the list with the pid |
| `Status.LastStatusForAbsent` | main.go:182-190 | with no entry for the pid, the previous counters are zero |
| `Status.LastStatusForFound` | main.go:182-187 | with an entry for the pid, the status found is the last entry with the pid |
| `Status.FindLastStatus` | main.go:182-187 | the scan computes `LastStatusFor` |
| `StatusFile.ApplyStatusLine` | main.go:197-233 | definition of one iteration of the line loop; its properties are in `StatusFile.ApplyStatusLineOk` and `StatusFile.ApplyKnownLine` |
| `StatusFile.StatusLines` | main.go:196-233 | definition of the line loop as a fold; its properties are in `StatusFile.StatusLinesFail`, `StatusFile.StatusLinesLastWins`, `StatusFile.StatusLinesKeyAbsent` and `StatusFile.StatusLinesKeepCounters` |
| `StatusFile.ParseStatusFile` | main.go:196-233 | the line loop computes the fold `StatusLines` of its lines, stopping at the first failing line |
| `StatusFile.StatusLinesStep` | main.go:197-233 | one more line extends the fold by one application |
| `StatusFile.ApplyStatusLineOk` | main.go:197-233 | a line fails exactly when it is not well formed; an empty line or an unknown key changes nothing; a line that does not split into two parts fails with that line |
| `StatusFile.ApplyKnownLine` | main.go:211-232 | a line with a known key sets that key's field to the value read from the line and leaves the other fields and the counters alone; an unreadable value fails the line |
| `StatusFile.LineValue` | main.go:211-232 | `Name` gives text and the other six keys give numbers |
| `StatusFile.AssignSetsOneField` | main.go:211-232 | assigning a field sets exactly that field |
| `StatusFile.StatusLinesFailureSticks` | main.go:202-203 | after a failing line, later lines do not change the failure |
| `StatusFile.StatusLinesFail` | main.go:196-233 | reading the file fails exactly when some line is not well formed |
| `StatusFile.StatusLinesFailAt` | main.go:197-233 | a line that is not well formed makes the whole file fail |
| `StatusFile.StatusLinesWellFormed` | main.go:197-233 | a file whose every line is well formed is read without failure |
| `StatusFile.StatusLinesKeepCounters` | main.go:211-232 | reading the file never changes the pid or the CPU counters |
| `StatusFile.StatusLinesLastWins` | main.go:211-232 | a known field holds the value of the last line that sets it |
| `StatusFile.StatusLinesKeyAbsent` | main.go:211-232 | a known field that no line sets keeps its starting value |
| `StatusFile.StatusLinesSkipEmpty` | main.go:198-200 | dropping the empty lines gives the same result |
| `CpuTicks.TotalTicks` | main.go:239-254 | definition of the uint64 total over the `cpu ` lines; its properties are in `CpuTicks.SystemTicksOfStat` and `CpuTicks.LinesTicksSingle` |
| `CpuTicks.SystemTicks` | main.go:255-257 | a total that is returned is positive |
| `CpuTicks.SumCpuTicks` | main.go:239-254 | the three nested loops compute the uint64 sum `TotalTicks` over the `cpu ` lines |
| `CpuTicks.AddFieldsTicks` | main.go:244-253 | the loop over the tab-separated fields adds their ticks, in uint64 |
| `CpuTicks.AddFieldTicks` | main.go:246-252 | the loop over the words of one field adds every word that parses, in uint64 |
| `CpuTicks.LinesStep` | main.go:240-243 | one more line adds its ticks to the running uint64 total |
| `CpuTicks.FieldsStep` | main.go:245 | one more field adds its ticks to the running uint64 total |
| `CpuTicks.WordsStep` | main.go:246-251 | one more word adds its value, or nothing, to the running uint64 total |
| `CpuTicks.WordsTicksAfter` | main.go:246-251 | words that do not parse add nothing, and the numbers after them add their sum |
| `CpuTicks.CpuLineTicks` | main.go:241-253 | the aggregate line `cpu  n1 n2 ...` adds exactly the sum of its counters |
| `CpuTicks.CpuLineWords` | main.go:246 | cut at spaces, the aggregate line is the tag, one empty word and the numbers |
| `CpuTicks.LinesTicksNone` | main.go:241-243 | lines that do not start with `cpu ` add nothing |
| `CpuTicks.LinesTicksSingle` | main.go:240-254 | with one `cpu ` line, the total is what that line adds |
| `CpuTicks.SystemTicksOfStat` | main.go:239-257 | a `/proc/stat` whose only `cpu ` line is the aggregate line gives the sum of its counters, when it is positive and fits 64 bits |
| `CpuTicks.SystemTicksWithoutCpuLine` | main.go:255-257 | without a `cpu ` line the reading fails with the zero-total panic |
| `PidStat.StatTimes` | main.go:263-274 | definition of the utime and stime reading; its properties are in `PidStat.StatTimesOfFields`, `PidStat.StatTimesRoundTrip` and `PidStat.StatTimesBadUtime` |
| `PidStat.StatTimesOfFields` | main.go:263-274 | on space-free fields the reading succeeds exactly when there are at least 15 fields and fields 14 and 15 are uint64 numbers, and then it yields them; with fewer fields it fails with the whole line |
| `PidStat.StatTimesRoundTrip` | main.go:263-274 | a stat line carrying utime and stime in decimal at fields 14 and 15 reads back those counters |
| `PidStat.StatTimesBadUtime` | main.go:267-270 | a malformed utime is reported before stime is read |
| `ProcStatus.ProcStatusOf` | main.go:178-276 | definition of `getProcStatus` on the three texts read; its properties are in `ProcStatus.ProcStatusOfOk`, `ProcStatus.FirstObservation` and `ProcStatus.RepeatObservation` |
| `ProcStatus.GetProcStatus` | main.go:178-276 | the step-by-step reading computes `ProcStatusOf` |
| `ProcStatus.ProcStatusOfOk` | main.go:178-276 | a status read carries the pid, the previous counters of the last status with that pid, a non-zero system total, the ticks of its stat line, and the fields its status file set |
| `ProcStatus.FirstObservation` | main.go:182-190 | a pid not in the previous statuses has zero previous counters, so its share is `100*utime/timeTotal` |
| `ProcStatus.RepeatObservation` | main.go:182-190 | a pid seen before takes its previous counters from its last entry in the previous statuses |
| `Children.ChildPids` | main.go:282-306 | definition of `getChildrenPids` on `pgrep`'s output; its properties are in `Children.PidsOfLinesOk` and `Children.ChildPidsRoundTrip` |
| `Children.ParseChildPids` | main.go:282-306 | the function computes `ChildPids`: no output means no children; otherwise a failed `pgrep` fails; otherwise the lines are read |
| `Children.PidsOfLinesFailureSticks` | main.go:298-301 | after a line that does not parse, later lines do not change the failure |
| `Children.PidsOfLinesOk` | main.go:294-303 | reading succeeds exactly when every non-empty line is an int; the pids are then the values of the non-empty lines, in order |
| `Children.PgrepLines` | main.go:291 | the lines `pgrep` prints are the decimal pids, in order |
| `Children.ChildPidsRoundTrip` | main.go:282-306 | reading `pgrep`'s output gives back its pids; with no children even a failed `pgrep` gives none |
| `Children.PidsOfPgrepLines` | main.go:294-303 | reading the decimal lines of some pids gives those pids |
| `Usage.Walk` | main.go:106-114 | definition of the recursion of `getUsage` for a given way of reading one process; its properties are in `Usage.WalkIsPreorder` |
| `Usage.UsageOf` | main.go:106-114 | definition of `getUsage` reading each process with `getProcStatus`; its properties are in `Usage.UsageOk` and `Usage.PreorderLength` |
| `Usage.GetUsage` | main.go:106-114 | `getUsage` computes `UsageOf`, the walk with each process read by `getProcStatus` |
| `Usage.WalkTree` | main.go:106-114 | the recursion (own status, then one call per child, appended in order) computes `Walk` |
| `Usage.WalkChildrenFailureSticks` | main.go:110-112 | a child whose walk failed fails the parent |
| `Usage.Preorder` | main.go:106-114 | the pre-order starts with the root |
| `Usage.Then` | main.go:111-113 | appending two results fails with the first failure, and otherwise joins both lists |
| `Usage.ReadAllAppend` | main.go:110-113 | reading two lists of processes one after the other is reading their concatenation |
| `Usage.WalkIsPreorder` | main.go:106-114 | the walk reads exactly the processes of the tree in pre-order, and fails at the first one that cannot be read |
| `Usage.WalkChildrenIsPreorder` | main.go:109-112 | the children's walks read the children's subtrees in pre-order |
| `Usage.ReadAllOk` | main.go:106-114 | a successful read gives one status per process, in order |
| `Usage.UsageOk` | main.go:106-114 | `getUsage` returns one status per process of the tree in pre-order, each the status `getProcStatus` gives it and carrying its pid |
| `Usage.SubtreeSizes` | main.go:110-112 | one size per child, the number of processes in its subtree |
| `Usage.PreorderLength` | main.go:106-114 | the tree's statuses number one plus the sizes of the child subtrees |
| `Usage.ChildrenPreorderLength` | main.go:109-112 | the first k children's subtrees hold the sum of their sizes |
| `History.Recorded` | main.go:77-79 | definition of the histories after one tick's appends; its properties are in `History.RecordedHistory`, `History.RecordedKeys` and `History.RecordedWellFormed` |
| `History.RecordTick` | main.go:77-79 | the append loop computes `Recorded`, the histories after the tick |
| `History.Tick` | main.go:71-79 | one turn of the loop reads the tree against the previous statuses and appends the statuses read |
| `History.EntriesFor` | main.go:77-79 | a pid's entries in a tick have that pid and come from the tick |
| `History.RecordedHistory` | main.go:77-79 | a tick appends to each pid's history exactly that pid's statuses of the tick, in order, and changes no other history |
| `History.RecordedKeys` | main.go:77-79 | after a tick, the map holds the pids it held before plus every pid of the tick |
| `History.RecordedWellFormed` | main.go:77-79 | appending a tick keeps every history non-empty and made of statuses of its own pid |
| `History.AfterTicksHistory` | main.go:66-82 | after a run of ticks, a pid's history is its entries tick after tick, and the map is well formed |
| `History.CpuShares` | main.go:92 | one share per status, each `GetCPUUsageUser` of that status |
| `History.VmSizes` | main.go:93 | one value per status, its VmSize |
| `History.PeakOf` | main.go:89-96 | the peak is at least every VmPeak, and it is one of them or 0 |
| `History.Average` | main.go:99-100 | a uint64 floor average is at most the sum |
| `History.SummaryOf` | main.go:86-102 | definition of the summary of one history; its properties are in `History.AverageMemBetween`, `History.AverageCpuAtMost100` and `History.PeakOf` |
| `History.Summarize` | main.go:86-102 | the summary loop computes `SummaryOf`: name and pid of the first status, the length, the uint64 sums of shares and of VmSize floor-divided by the length, and the peak VmPeak |
| `History.PeakStep` | main.go:94-96 | one more status in the peak loop keeps the running maximum |
| `History.SumStep` | main.go:92-93 | one more value in a uint64 running sum |
| `History.AverageBetween` | main.go:99-100 | a floor average of values between lo and hi is between lo and hi |
| `History.AverageMemBetween` | main.go:93-100 | when the memory sum does not wrap, the average memory lies between the smallest and largest VmSize |
| `History.AverageCpuAtMost100` | main.go:92-99 | when every share is at most 100 and the sum does not wrap, the average share is at most 100 |
| `History.Report` | main.go:86-103 | there is one summary per pid of the map |
| `History.ReportNamesItsPid` | main.go:86-102 | each summary of a well-formed map names its own pid and counts at least one tick |

## Left out

- Command-line handling with cobra, the usage message and the duration
  flag (main.go:17-48): the model starts inside the monitoring loop.
- Starting and killing the rkt process (main.go:50-55, 84) and the
  interrupt handler (main.go:57-64): process control and signals.
- The wall clock and the one-second sleep (main.go:70-71, 81): `AfterTicks`
  takes the list of ticks' statuses instead, so the number of ticks is a
  parameter.
- Reading `/proc/[pid]/status`, `/proc/stat` and `/proc/[pid]/stat`
  (main.go:192-195, 235-238, 259-262), and running `pgrep` (main.go:283): the
  texts read and `pgrep`'s output and error are parameters. A failed read is
  not modelled.
- Printing, `printUsage` and the verbose flag (main.go:73-75, 102, 129-143):
  `Summary` holds the values of the printed line, and `formatSize` and `pad`
  are modelled on their own.
- `parseProcStat` (main.go:278-280) returns constant zeros and is never
  called.
- Usage.GetUsage: the children of each process are given by the `ProcTree`.
  The walk is not linked to `Children.ChildPids`, and a `getChildrenPids`
  panic during the walk is not modelled.
- Usage.GetUsage: each process is read through `ProcStatus.ProcStatusOf`,
  which `ProcStatus.GetProcStatus` is proved to compute.
- Status.CpuUsageUser: a zero tick delta, which panics in Go, is excluded by
  a precondition instead of being modelled as a failure. The same holds for
  `Status.CpuUsageKernel`, `History.Summarize`, `History.SummaryOf` and
  `History.Report`.
- History.Report: Go ranges over the map in random order, so the order of
  the printed lines is not modelled, only the set of summaries.
- Format.Pad: counts `char`s, where Go's `len` counts bytes, so a name with
  multi-byte UTF-8 characters is padded less in Go.
- Text.Atoi: assumes Go's `int` is 64 bits. `Atoi` is modelled for plain
  decimal input with an optional sign only (no underscores or base
  prefixes, which `strconv.Atoi` also rejects).
- LabeledSize.Sscanf: models only the number of values stored. The
  literal-matching error is discarded by `parseLabeledSize`, and the
  scanner's handling of non-ASCII white space is simplified to
  `unicode.IsSpace`.
- PidStat.StatTimes: the stat line is cut at every single space, as the
  code does. A process name containing a space shifts the fields. That
  case is modelled as written, not corrected.
