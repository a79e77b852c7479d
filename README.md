# memwatch, modelled in Dafny

memwatch runs a command and samples the resident memory (RSS) of the
command's whole process tree at a fixed interval. It keeps a peak per
process and a peak total, and optionally a timeline. At the end it produces
a profile: a summary on the terminal, a per-process CSV file, a timeline
CSV file. Processes can be filtered out by include and exclude patterns.
This project models that core, together with the MPI example program the
profiler is exercised with:

- `types.dfy` (module `Types`) holds the aggregator, `JobState`. It is a
  class whose `Update` applies one snapshot: the sample count, the peak
  total, the timeline and the per-pid records, with the entry-or-insert
  rule of the source. A ghost history of applied snapshots ties every field
  to pure replay functions, and the lemmas about those state what the
  fields mean. The module also holds `IntoProfile`, which sorts the records
  by peak, largest first, and `ApplyFilter`, the include/exclude loop.
  Patterns are an abstract `Regex`: its text, whether it compiles, and a
  match function.
- `sampler.dfy` (module `Sampler`) holds the process-tree resolver
  `FindJobPids`, a fixpoint loop over the pid-to-ppid map, proved equal to
  the set of pids whose parent chain reaches the root. It also holds
  `SampleJobTree` (its two map-building and collecting loops) and the
  profiling loop of `run_and_profile`. That loop is driven by abstract
  outcomes of the operating system: the spawn result, each try-wait
  result, each process listing and its clock read.
- `linux_inspector.dfy` (module `LinuxInspector`) holds the parsers for
  `/proc/[pid]/stat`, `/proc/[pid]/status` and `/proc/[pid]/cmdline`, given
  the files' contents, and the walk over `/proc` entries.
- `macos_inspector.dfy` (module `MacInspector`) holds the parser for the
  text `ps -axo pid,ppid,rss,command` prints.
- `csv_writer.dfy` (module `CsvWriter`) holds CSV escaping and both
  exporters. Each file is modelled as the sequence of lines written to it.
- `reporter.dfy` (module `Reporter`) holds the duration and memory
  formatting and the summary, modelled as the sequence of lines printed.
- `mpi_compute.dfy` (module `MpiCompute`) holds the partition of the
  problem across ranks, the chunk allocation, the working buffers and the
  in-place compute phase.
- `text.dfy`, `arith.dfy` and `wrappers.dfy` are support: the Rust string
  operations the parsers rely on (`trim`, `split_whitespace`, `join`,
  `lines`, `find`/`rfind`, integer parsing and printing), two arithmetic
  facts, and `Option`/`Result`.

Integers are unbounded. The source's `i32` parses are range-checked as in
Rust, and a `u64` parse rejects values above `u64::MAX`. Timestamps are
abstract ordered integers.

## Model

| member | source | states |
|---|---|---|
| Types.FilterConfig.DisplayPatterns | src/types.rs:24-33 | one line per given pattern, exclude first, each `Exclude pattern: '..'` / `Include pattern: '..'` |
| Types.FilterConfig.ToCsvComment | src/types.rs:36-45 | the `exclude='..'` / `include='..'` parts joined by one space; empty exactly when no pattern is given |
| Types.JobState.constructor | src/types.rs:122-130 | peak total 0, no samples, no records, timeline `Some([])` exactly when tracking is requested |
| Types.JobState.Update | src/types.rs:132-168 | samples grow by exactly one; the peak total becomes the max of old and snapshot total; one timeline point is appended iff the timeline exists; records become the entry-or-insert application of the samples; the history grows by the snapshot |
| Types.ApplySamplesFrame | src/types.rs:147-166 | a pid has a record afterwards iff it had one or is in the samples; a record of an absent pid is untouched; no record is removed |
| Types.ApplySamplesPresent | src/types.rs:147-166 | with distinct pids, each sampled pid's record is its old record refreshed by the sample, or a new record made from the sample |
| Types.ApplySamplesPeak | src/types.rs:150-155 | a record's peak never falls, covers every sampled rss of its pid, and equals either the old peak or one of those rss values |
| Types.ApplySamplesTimes | src/types.rs:150-165 | a sampled pid keeps its first-seen (a new pid gets the snapshot time), its last-seen becomes the snapshot time, and its peak time is either the old one or the snapshot time |
| Types.ReplayKeyed | src/types.rs:147-166 | every record is filed under its own pid |
| Types.MaxTotalIsPeak | src/types.rs:125-134 | the peak total is at least every snapshot total and equals one of them; it is 0 before any snapshot |
| Types.ReplayPeakIsMaxObserved | src/types.rs:147-166 | a record exists exactly for the pids some snapshot held, and its peak is the largest rss observed for that pid |
| Types.PeaksNeverDecrease | src/types.rs:150-157 | one more snapshot never removes a record and never lowers a peak |
| Types.ReplayTimesOrdered | src/types.rs:150-165 | with snapshots in time order, first-seen ≤ peak time ≤ last-seen ≤ the last snapshot's time |
| Types.JobState.Records | src/types.rs:181 | the record list is a permutation of the map's values |
| Types.InsertByPeakPermutes | src/types.rs:182 | inserting a record adds exactly that record to the multiset |
| Types.InsertByPeakSorted | src/types.rs:182 | inserting into a peak-descending list keeps it peak-descending |
| Types.SortByPeakCorrect | src/types.rs:182 | the sort yields a permutation of its input ordered by peak, descending |
| Types.JobState.IntoProfile | src/types.rs:170-224 | the peak total, sample count and timeline are copied through; without patterns the processes are all records sorted by peak; with patterns, an invalid one is an error, otherwise the kept records plus `Some` filter config, dropped count and dropped peak sum |
| Types.FilterStep | src/types.rs:262-285 | each process either joins the kept list or the dropped one, as the include-then-exclude test says |
| Types.FilterPartitions | src/types.rs:262-285 | kept count plus dropped count is the input count, and the kept and dropped multisets add up to the input |
| Types.FilterConservesPeaks | src/types.rs:284 | the dropped peak sum plus the kept peak sum is the total peak sum |
| Types.KeptIffKeeps | src/types.rs:262-285 | a process is kept iff it is in the input, matches the include pattern if any, and does not match the exclude pattern if any; dropped iff it is in the input and fails that test |
| Types.KeptStaysSorted | src/types.rs:262-285 | filtering keeps relative order, so a peak-sorted list stays sorted |
| Types.ApplyFilter | src/types.rs:242-296 | an invalid pattern is an error (exclude compiled first); otherwise the kept list and `(dropped count, dropped peak sum)`, present whenever a pattern is given |
| Types.ShouldInclude | src/types.rs:263-277 | the include pattern decides first and a match of the exclude pattern then drops the process: the result is `Keeps` |
| Types.ResidentSelects | src/csv_writer.rs:29 | exactly the processes with a non-zero peak are reported, in order; none is lost iff every peak is non-zero |
| Types.ResidentAppend | src/reporter.rs:38-40 | the selection distributes over concatenation |
| Sampler.ChainExtend | src/sampler.rs:135-138 | a child of a tree member is a tree member |
| Sampler.ClosedContainsTree | src/sampler.rs:132-141 | every set that holds the root and is closed under adding children holds the whole tree |
| Sampler.AddChildren | src/sampler.rs:133-141 | one pass keeps the set inside the tree and inside keys ∪ {root}; if it reports a change the set of missing keys shrinks; if not, the set is closed |
| Sampler.FindJobPids | src/sampler.rs:127-144 | the result is exactly the job tree: the root, always, plus every key whose parent chain reaches it; it lies within keys ∪ {root}; it terminates on any map, cyclic ones included |
| Sampler.JobTreeExamples | src/sampler.rs:150-184 | the two resolver examples: children and grandchildren are in, an unrelated pid and an ancestor of the root are out |
| Sampler.ParentsOfLastWins | src/sampler.rs:100-103 | the pid map and the ppid map have the same keys, and each ppid is that of the kept sample |
| Sampler.LastWinsIsLast | src/sampler.rs:100-103 | a later sample of a pid overwrites an earlier one |
| Sampler.BuildMaps | src/sampler.rs:96-103 | the loop builds exactly the last-wins pid map and ppid map |
| Sampler.CollectMembers | src/sampler.rs:108-117 | the collected processes are the members present in the pid map, each once, with their map entry; the total is the sum of their rss |
| Sampler.SampleJobTree | src/sampler.rs:90-124 | a listing error is passed on; otherwise the snapshot holds exactly the tree members of the listing, totals their rss, and carries the clock read |
| Sampler.FirstStop | src/sampler.rs:35-52 | the loop runs while try-wait says running, and stops at the first other outcome |
| Sampler.OkObservations | src/sampler.rs:55-61 | only successful listings produce snapshots, in order |
| Sampler.RunHistoryStep | src/sampler.rs:30-32 | a successful sample appends its snapshot to the history; a failed one leaves it unchanged |
| Sampler.SampleInto | src/sampler.rs:55-62 | one sample-then-update step keeps the history equal to one snapshot per successful listing |
| Sampler.SampleWhileRunning | src/sampler.rs:35-65 | the passes run up to the first try-wait outcome other than running, each one sampling once; the history then holds the snapshots of one more observation than passes |
| Sampler.SamplingLoop | src/sampler.rs:30-66 | the immediate sample, one per running pass, and on exit one final sample (none after a try-wait error); the history is the snapshots of the successful ones |
| Sampler.RunAndProfile | src/sampler.rs:11-73 | an empty command is rejected first; a spawn failure is an error; otherwise a fresh state started at the given time, with a timeline iff requested, holding the run's snapshots |
| LinuxInspector.ReadProcStat | src/inspector/linux.rs:16-43 | the ppid is the second token after the last `)` and the comm is the text between the first `(` and the last `)`; a missing parenthesis, too few fields or a bad ppid is an error with the source's message |
| LinuxInspector.ReadProcStatAgrees | src/inspector/linux.rs:24-40 | the corrected reader equals the source on every input except the inverted-parentheses panic, which becomes an error |
| LinuxInspector.ReadProcStatPanicsOnInvertedParens | src/inspector/linux.rs:24-40 | as written, the stat text `) R 5 (` makes the comm slice panic |
| LinuxInspector.ReadProcStatPanicsWhenInverted | src/inspector/linux.rs:24-40 | every such text with a `)` before the only `(` panics as written and is an error in the corrected reader |
| LinuxInspector.ReadProcStatOfParts | src/inspector/linux.rs:24-40 | a comm holding spaces or `)` is kept whole, and the ppid is read from the tail |
| LinuxInspector.ReadProcStatOfLine | src/inspector/linux.rs:16-43 | a stat line as the kernel writes it, `pid (comm) state ppid ...`, reads back to its ppid and comm |
| LinuxInspector.ReadProcStatusRss | src/inspector/linux.rs:45-63 | the loop returns the value of the scan over the file's lines |
| LinuxInspector.RssWithoutVmRss | src/inspector/linux.rs:61-62 | a status file with no `VmRSS:` line reports 0 |
| LinuxInspector.RssOfStatus | src/inspector/linux.rs:50-57 | lines before the first `VmRSS:` line are ignored, and `VmRSS: n kB` reports n |
| LinuxInspector.ReadCmdlineOfArguments | src/inspector/linux.rs:70-81 | a NUL-terminated argument list reads back to its decoded arguments joined by single spaces |
| LinuxInspector.NonEmptyHasNoEmptyPiece | src/inspector/linux.rs:77-78 | empty pieces are dropped, so runs of NULs collapse |
| LinuxInspector.SnapshotAll | src/inspector/linux.rs:88-137 | only an unreadable `/proc` is an error; otherwise each entry's sample, if any, in directory order |
| LinuxInspector.SnapshotEntry | src/inspector/linux.rs:95-133 | one `/proc` entry gives `SampleOf`: skipped when its name is not an i32 or its stat or status file cannot be read or parsed; the command is the cmdline when non-empty, else the comm |
| LinuxInspector.SkippedEntryIsOmitted | src/inspector/linux.rs:95-121 | an entry with a non-numeric name or an unreadable stat/status file is omitted, not an error |
| LinuxInspector.SamplesComeFromEntries | src/inspector/linux.rs:95-134 | every sample comes from one directory entry |
| LinuxInspector.CommandFallback | src/inspector/linux.rs:113-133 | the ppid comes from the stat file; the command is the cmdline when it is readable and non-empty, and the comm otherwise |
| MacInspector.ParseLine | src/inspector/macos.rs:43-46 | a line that trims to nothing is skipped |
| MacInspector.ParseTokens | src/inspector/macos.rs:52-78 | an accepted line had at least four tokens, an i32 pid and ppid, a u64 rss and a non-empty command |
| MacInspector.ParsePsOutput | src/inspector/macos.rs:34-82 | the loop computes the listing: header skipped, the first token error ends the parse, otherwise one sample per accepted line |
| MacInspector.ParseRowLine | src/inspector/macos.rs:43-78 | one line after the header gives `ParseLine`: blank or short lines are skipped, a bad pid, ppid or rss is an error with the source message, an empty command is skipped |
| MacInspector.ErrStops | src/inspector/macos.rs:53-63 | a line whose token fails to parse makes the whole result that line's error |
| MacInspector.CollectOk | src/inspector/macos.rs:37-81 | without an error line, the result is the accepted samples in input order |
| MacInspector.CollectErr | src/inspector/macos.rs:53-63 | with an error line, the result is the first such line's error |
| MacInspector.HeaderIgnored | src/inspector/macos.rs:37-41 | the first line is never parsed, whatever it holds |
| MacInspector.CommandCollapses | src/inspector/macos.rs:67-68 | the command is the tokens after rss joined by single spaces, so whitespace runs collapse |
| MacInspector.ParseRow | src/inspector/macos.rs:43-78 | a right-aligned row with whitespace runs of any width between its columns parses back to its pid, ppid, rss and single-spaced command |
| MacInspector.ListingOfRows | src/inspector/macos.rs:37-81 | a listing whose lines are all accepted gives one sample per line, in order |
| MacInspector.PsListingExample | src/inspector/macos.rs:89-111 | the test's three-row listing gives pids 1, 123 and 456 with their ppids, rss values and commands |
| CsvWriter.EscapeCsv | src/csv_writer.rs:90-93 | the identity on text without `"` |
| CsvWriter.EscapeCsvLength | src/csv_writer.rs:90-93 | the length grows by the number of quotes |
| CsvWriter.UnescapeEscape | src/csv_writer.rs:90-93 | collapsing each `""` back to `"` recovers the input |
| CsvWriter.EscapedQuotesPaired | src/csv_writer.rs:90-93 | every quote in the output is part of a pair |
| CsvWriter.EscapeCsvAppend | src/csv_writer.rs:90-93 | escaping distributes over concatenation |
| CsvWriter.EscapeCsvExamples | src/csv_writer.rs:100-104 | the three escaping tests |
| CsvWriter.FilterComment | src/csv_writer.rs:12-22 | at most one comment line, present iff the filter and both filtered counts are present |
| CsvWriter.CommentPatternsAgree | src/csv_writer.rs:14-20 | the patterns in the comment are `to_csv_comment` followed by a space, or nothing |
| CsvWriter.FilterLine | src/csv_writer.rs:14-20 | the comment is `# Filter: ` followed by each given pattern and a space |
| CsvWriter.ExportProcessCsv | src/csv_writer.rs:7-45 | the optional filter comment, then the header, then one row per process with a non-zero peak, in profile order |
| CsvWriter.ResidentStep | src/csv_writer.rs:29-42 | each process adds its row exactly when its peak is non-zero |
| CsvWriter.TimelineComment | src/csv_writer.rs:56-67 | three comment lines when the profile was filtered, none otherwise |
| CsvWriter.ExportTimelineCsv | src/csv_writer.rs:48-87 | an error with the source's message iff there is no timeline; otherwise the comment, the header and one row per point, in order |
| Reporter.TruncU64 | src/reporter.rs:22 | the saturating cast: in range, the integer part; below 1, 0; never above `u64::MAX` |
| Reporter.Hms | src/reporter.rs:22-25 | minutes and seconds are below 60 and h·3600 + m·60 + s is the total |
| Reporter.HmsUnique | src/reporter.rs:22-25 | any split with minutes and seconds below 60 is the one computed |
| Reporter.FormatDurationReadsBack | src/reporter.rs:20-28 | reading `HH:MM:SS` back gives the truncated seconds, and the text is exactly eight characters iff the total is below 100 hours |
| Reporter.FormatDurationExamples | src/reporter.rs:100-106 | the five duration tests, 59.5 truncated to `00:00:59` included |
| Reporter.UnitChoice | src/reporter.rs:11-16 | KiB iff kib < 1024, MiB iff 1024 ≤ kib < 1048576, GiB iff kib ≥ 1048576; the unit chosen holds at least one whole unit and is the largest that does |
| Reporter.FormatMemory | src/reporter.rs:15-16 | below one MiB the text is the exact integer followed by ` KiB` |
| Reporter.FormatMemoryUnit | src/reporter.rs:4-18 | the text ends in the chosen unit's name, and ends in ` KiB` iff kib < 1024 |
| Reporter.FormatMemoryExamples | src/reporter.rs:89-97 | the six memory tests, with the one-decimal rendering of the exact quotient |
| Reporter.TakeBytes | src/reporter.rs:62 | a byte slice succeeds only at a character boundary, giving a prefix of exactly that many bytes |
| Reporter.TruncateCommandAsWritten | src/reporter.rs:61-65 | a command of at most 60 bytes is shown unchanged |
| Reporter.TruncateAsWrittenPanics | src/reporter.rs:61-62 | as written, a 68-byte command with a two-byte character straddling byte 57 makes the slice panic |
| Reporter.PrefixWithinBounds | src/reporter.rs:62 | the cut is a prefix of at most the given bytes, and the next character would not fit |
| Reporter.PrefixWithinTakes | src/reporter.rs:62 | where the byte count is a character boundary, the cut is the byte slice |
| Reporter.TruncateCommand | src/reporter.rs:61-65 | at most 60 bytes; unchanged iff at most 60 bytes; otherwise the longest prefix of at most 57 bytes, ending at a character boundary, then `...` |
| Reporter.TruncateAgrees | src/reporter.rs:61-65 | wherever the byte slice does not panic, the corrected truncation shows exactly what the source shows |
| Reporter.TruncateStraddling | src/reporter.rs:61-62 | the command that makes the source panic is cut before the two-byte character |
| Reporter.TruncateAsciiAgrees | src/reporter.rs:61-65 | on ASCII commands the source never panics and agrees with the corrected truncation |
| Reporter.PadLeft | src/reporter.rs:68 | right alignment in a field: the text is kept at the end, preceded by spaces up to the width |
| Reporter.TooQuickIff | src/reporter.rs:38-42 | the "exited too quickly" branch is taken iff the peak total is 0 or no process has a non-zero peak |
| Reporter.PrintSummary | src/reporter.rs:31-76 | the job, duration and sample lines; then either the too-quick note or the peak total, the largest process and one table row per process with a non-zero peak; then a blank line |
| Reporter.PeakRowsStep | src/reporter.rs:59-73 | each shown process adds one row, in order |
| Reporter.FirstShownIsLargest | src/reporter.rs:50-56 | on a profile sorted by peak, the process named as largest has the largest peak of all |
| Reporter.PeakRowEnds | src/reporter.rs:67-72 | each row ends in the truncated command |
| MpiCompute.ChunkSize | examples/mpi_distributed_compute.rs:80-90 | every rank but the last gets the base size; the last gets the rest of the problem |
| MpiCompute.ChunkStart | examples/mpi_distributed_compute.rs:93-95 | a chunk ends within the problem |
| MpiCompute.ChunksAdjacent | examples/mpi_distributed_compute.rs:80-95 | each chunk ends where the next rank's begins |
| MpiCompute.ChunksSpan | examples/mpi_distributed_compute.rs:80-95 | the first chunk starts at 0 and the last ends at the problem size |
| MpiCompute.ChunksSum | examples/mpi_distributed_compute.rs:80-95 | the chunk sizes summed over all ranks give the problem size |
| MpiCompute.ChunksPartition | examples/mpi_distributed_compute.rs:80-95 | every global index lies in the chunk of exactly one rank |
| MpiCompute.LeBytesRoundTrip | examples/mpi_distributed_compute.rs:126 | the little-endian bytes of an index read back to the index |
| MpiCompute.InitialElementIndex | examples/mpi_distributed_compute.rs:124-126 | an element's first eight bytes hold its global index |
| MpiCompute.Mixed | examples/mpi_distributed_compute.rs:180 | byte 0 is XORed with `i & 0xFF`; the other bytes are unchanged |
| MpiCompute.MixedTwice | examples/mpi_distributed_compute.rs:180 | mixing twice with the same index restores the element |
| MpiCompute.XorBitsTwice | examples/mpi_distributed_compute.rs:180 | XOR with the same value twice restores the original low bits |
| MpiCompute.XorBitsBit | examples/mpi_distributed_compute.rs:180 | each bit of the XOR is set exactly when the operands' bits differ |
| MpiCompute.DistributedVector.constructor | examples/mpi_distributed_compute.rs:109-131 | `chunk_size` fresh elements; element i holds the bytes of `chunk_start + i` followed by zeros; `memory_bytes` then reports the `chunk_size * 32` bytes printed at allocation |
| MpiCompute.AllRanksMemory | examples/mpi_distributed_compute.rs:134-136 | the vectors built by all ranks together report `problem_size * 32` bytes |
| MpiCompute.WorkingBuffers.constructor | examples/mpi_distributed_compute.rs:149-166 | two fresh, distinct, zeroed buffers of the given size; `memory_bytes` then reports the `2 * size * 32` bytes printed at allocation |
| MpiCompute.ComputePhase | examples/mpi_distributed_compute.rs:170-190 | each element is mixed with its index and copied into the temporary buffer; the rest of that buffer and the scratch buffer are unchanged, given the separate buffers that the two mutable borrows guarantee |
| MpiCompute.ComputedElement | examples/mpi_distributed_compute.rs:121-184 | byte 0 of a computed element is the low byte of its global index XORed with the low byte of its local index; undoing the mix recovers the global index from bytes 0..8 |
| Text.SplitJoinedWords | src/inspector/macos.rs:50-68 | splitting words joined by single spaces gives the words back |
| Text.CollapseWhitespaceIsStable | src/inspector/macos.rs:67-68 | re-joining tokens and splitting again changes nothing |
| Text.LinesOfUnlines | src/inspector/macos.rs:37 | `lines` gives back the lines of a newline-terminated text |
| Text.FindFirst | src/inspector/linux.rs:24-25 | `find` reports none iff the character is absent, and otherwise its first occurrence |
| Text.RFindLast | src/inspector/linux.rs:26-27 | `rfind` reports none iff the character is absent, and otherwise its last occurrence |
| Text.ParseI32OfIntToString | src/inspector/macos.rs:52-60 | an i32 parse reads back any i32 printed in decimal |
| Text.ParseU64OfNatToString | src/inspector/macos.rs:62-65 | a u64 parse reads back any value up to `u64::MAX` printed in decimal |
| Text.Pad2 | src/reporter.rs:27 | `{:02}`: at least two digits denoting the value, exactly two below 100 |

## Left out

- Spawning the command, waiting for it, sleeping between samples, and the
  warnings printed to stderr. Their outcomes are inputs of `RunAndProfile`,
  as a spawn result and sequences of try-wait and listing outcomes.
- `Utc::now` and chrono arithmetic. Timestamps are abstract integers, and
  clock reads are parameters.
- Sampler.RunAndProfile: returns the final `JobState` rather than a
  `JobProfile`. The two-argument `into_profile` call at the end of
  `run_and_profile` does not match the five-argument method in
  `src/types.rs`, so the conversion is modelled once, as
  `Types.JobState.IntoProfile`.
- Sampler.RunAndProfile: only runs in which try-wait stops reporting
  "running" within the given outcomes are modelled; a child that never
  exits, on which the source samples forever, is outside the model.
- Floating point. The fields `elapsed_seconds` and `duration_seconds` are
  not modelled; the summary takes the duration as a parameter. The MiB
  columns, elapsed seconds and RFC 3339 timestamps of the CSV files come
  from `Render` functions. The `{:.1}` memory figures come from a
  `fixed1` function that receives the exact quotient.
- Reporter.TruncU64: NaN and infinite durations are not modelled. The
  duration is a Dafny `real`, so there is no such value.
- Reading files under `/proc`, listing `/proc`, and running `ps`. File
  contents, directory entries and the `ps` text are inputs. UTF-8 decoding
  of `/proc/[pid]/cmdline` (`from_utf8_lossy`) is a function parameter.
- Regular-expression compilation and matching. A pattern is an abstract
  value with its text, a compiles flag and a match function, so the
  "Invalid ... pattern" message is given with the pattern text but without
  the regex engine's own error text.
- Iteration order of `HashMap` and `HashSet` (`into_values`, the
  `find_job_pids` pass, the member loop). It is modelled as an arbitrary
  choice, and every contract holds for every order.
- Integer overflow of `u64` sums (`total_rss_kib`, `filtered_rss`) and of
  `usize` counts. Integers are unbounded, and such sums cannot overflow at
  real memory sizes.
- JSON output (`print_json`, serde), the command line, `main.rs`,
  `cli.rs` and `build.rs`.
- MPI initialisation, barriers, the communication phase, sleeps and
  printing in the example. The rank and world size are inputs.
- The build-pipeline example (C helper and packaging script). It depends
  on a data table that is not part of this model, and on floating point
  and file I/O.

## Findings

| source | as written | input that shows it | evidently intended | confidence | as-written member | corrected member |
|---|---|---|---|---|---|---|
| src/inspector/linux.rs:24-40 | the comm is sliced from just after the first `(` to the last `)`, without checking that the `(` comes first | stat text `) R 5 (`: the slice start is past its end, so the slice panics | report "Invalid stat format" as an error, as for the other malformed inputs | not executed | LinuxInspector.ReadProcStatPanicsOnInvertedParens | LinuxInspector.ReadProcStat |
| src/reporter.rs:61-62 | the 60-limit tests the byte length and slices the first 57 bytes | a command of 56 `a`, one `é`, then 10 `a` (68 bytes): byte 57 falls inside `é`, so the slice panics | cut at the last character boundary at or before byte 57 and append `...`; every command the source does not panic on is shown as the source shows it (`Reporter.TruncateAgrees`) | not executed | Reporter.TruncateAsWrittenPanics | Reporter.TruncateCommand |
