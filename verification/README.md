# Verified model of the shell server's core algorithms

The server is an MCP service, written in Go, that lets an agent run commands on a remote host and read its files. This
project models the parts of it whose correctness is not visible from the code, and proves what they are for:

- **Diffs** (`Lcs`, `EditScript`, `Patch`, `Hunks`, `DiffText`, `UnifiedDiff`): the printed patch, parsed back and
  applied strictly at its header positions, turns the old lines into the new ones; the counted changes are the fewest
  possible as long as the table is used.
- **Paging** (`Utf8`, `GbText`, `Encodings`, `Guess`, `Paging`, `PageLoss`, `PageOffsets`, `Lines`, `TailWindow`,
  `LineWindow`): when the request names the encoding, or the file is valid UTF-8, following the cursors shows every
  byte of the file once and never splits a character, for UTF-8 and for the GBK family, which has to be resynchronized
  from a byte that can only stand alone; which page sizes are too small for that, and which of those lose bytes; for
  any request and any file, exactly when bytes are lost; what the guess of an encoding amounts to.
- **Streaming scans** (`TailMatches`, `LogWatch`, `SearchContext`, `Search`, `SearchText`): the backward filtered tail
  is the end of the forward filter; the log watcher consumes every complete line once and misses no match, as long as
  no line fills a whole read; one-pass search with merged context and paging returns what one unbounded scan returns,
  with true line numbers in its text, which shows all of it.
- **Concurrent registries** (`Listing`, `Executions`, `ExecTimes`, `Waits`, `WaitTimes`, `WaitPrune`): detached
  executions and watchers as step systems, with invariants over every interleaving: each outcome is reported exactly
  once, nothing running is evicted, bounds hold, and what is told of a command or a watcher, its times included, is
  what the actions of the run did.
- **Rate limiting** (`RateLimiter`, `RateWindow`): over exact reals, the bucket answers by a rule about stretches of
  time alone; exactly when the idle sweep and refused requests are invisible and every stretch of every run keeps to
  the rate; the announced wait is exact in any case.
- **Bounded output** (`Output`): the ring buffer keeps the end of the stream, and capture followed by rune-safe
  truncation is truncation of the whole stream.

`Basics` and `Bytes` hold what the modules share. Files are `seq<byte>`, a regular expression is an arbitrary
predicate on a line, character decoding an arbitrary function, clocks are numbers that do not go back. Strings of the
diff stand for their bytes, one `char` a byte. A loop of the source is a method proved against a function or a
predicate; a mutable object is a class; a protocol is a set of actions, one for each lock region.

Six things the code does differ from what its comments say, and are stated as they are:

- An idle bucket "has refilled to capacity anyway" (`middleware.go:38-39`) only when burst <= 2 * perMin. Exactly in
  that case sweeps change no answer (`SweepInvisibleIff`), refused requests change no later answer
  (`RefusalInvisibleIff`), every stretch of every run keeps to the rate (`RateBoundIff`) and all answers follow the
  rule (`BucketIsRuleIff`).
- A window smaller than one character is "kept as it is, so that paging by next_offset still advances"
  (`readops.go:479-482`). This cuts characters for every page size below the widest character (`PageSizeIff`,
  `SmallPageCuts`). Sometimes it also loses a byte, because the next page drops the rest of the cut character at its
  head: exactly for UTF-8 with pages of 2 or 3 bytes and for GB18030 with pages of 3 bytes (`LosslessIff`, with a file
  for each of these sizes in `LossyContents`). GBK and pages of 1 byte never lose anything, nor does GB18030 with
  pages of 2 bytes. All of this holds when the request names the encoding, or the file is valid UTF-8 and so
  recognized on every page.
- The bytes dropped at an edge "belong to the neighbouring window" (`readops.go:291-292`) only as long as both windows
  are read in the same encoding. A request that names none has every page judged for itself: GBK bytes behind a page
  boundary may look like UTF-8, and then the page drops continuation bytes at its head that no page before it left out
  (`GuessChanges`). So bytes of some file are lost for every page size but one byte (`GuessedLosslessIff`; each of the
  files of `GuessedPagesLose` is well-formed GBK text). For any request, whether it names the encoding or not, nothing
  is lost exactly if every page is text that begins at the offset asked for, which a caller can check on each reply
  (`FollowShowsIff`); `ShiftedIff` and `HeadDroppedIff` say when a page begins elsewhere.
- The tail read, stopped by its byte cap, means to "drop the partial first line" (`taillog.go:127`). When the cap
  falls on the start of a line it drops that line too, although it is whole and fits: `ReadTailWindow` says where a
  capped window begins, `FittingLineDroppedIff` that a fitting line is left out exactly then, and `FittingLineDropped`
  has a file.
- A scan reports "how many bytes of complete lines it scanned without a match" (`waitfor.go:355-361`) as the next
  offset, unless one line fills the whole 64 MB read; then the cursor lands inside that line, and the rest of it is
  judged as a line of its own. `WatchedStep` gives the condition in both directions, `GiantIff` says when it fails in
  terms of the bytes, `GiantRest` what the next scan judges, and `RestMatchesAlone` has a log in which that rest
  satisfies a watch although no line matches. `NoFittingLineMissed` is what holds nevertheless: the lines that do fit
  are judged, each as a whole.
- The launching call may get a result whose output was already dropped: a prune can come between the end of the
  command and the claim (`executions.go:161-168`, `executions.go:259-264`). `ClaimedIsWholeIff` says exactly when, for
  every interleaving, and `OutputLostBeforeClaim` builds such a run; `ExactlyOneReport` says what is kept in any case.

## Model

| member | source | states |
|---|---|---|
| `Lcs.LcsLenIsLcs` | diff.go:158-169 | the table's recurrence is the length of a longest common subsequence: some common subsequence has it, none is longer |
| `Lcs.LcsTrim` | diff.go:46-53 | trimming a common prefix and suffix loses nothing of the longest common subsequence |
| `EditScript.FillRow` | diff.go:161-168 | one row of the flat table, from the row below it, holds the longest-common-subsequence lengths of the suffixes; no other cell changes, indices and 32-bit values stay in range |
| `EditScript.FillTable` | diff.go:158-169 | the whole flat table is right |
| `EditScript.WalkTable` | diff.go:170-186 | the walk over the table yields a script that keeps as many lines as any could |
| `EditScript.ReplaceBlock` | diff.go:149-157 | the fallback for a large middle is a valid script, all deletions before all insertions |
| `EditScript.DiffMiddle` | diff.go:147-187 | in both branches the script leads from the old lines to the new ones with right indices; within the cell limit it keeps a longest common subsequence |
| `EditScript.PathSides` | diff.go:147-187 | a script projects onto exactly the old and the new lines, at every prefix |
| `DiffText.SplitDiffLines` | diff.go:30-39 | the loop computes the line list of a text |
| `DiffText.LinesAreNormalForm` | diff.go:30-39 | joining the lines of a text gives the text up to line endings and the final newline |
| `DiffText.SameLinesIff` | diff.go:74-79 | two texts have the same lines exactly when they differ only in line endings or the final newline |
| `UnifiedDiff.CommonEnds` | diff.go:46-53 | the common ends, not overlapping, as far as they go |
| `UnifiedDiff.BuildScript` | diff.go:55-63 | the script covers all but the common ends, with up to three context lines of each, puts deletions before insertions, and keeps the most lines within the cell limit |
| `UnifiedDiff.FindRange` | diff.go:91-111 | the next hunk of the script, or none |
| `Hunks.RangesSound` | diff.go:91-111 | hunks are ordered with a line between neighbours, each opens and closes with exactly the context there is up to three lines, spans no long unchanged stretch, and every change is in one |
| `Hunks.HunksArePrintedRanges` | diff.go:113-136 | one printed hunk for each range, in order |
| `Hunks.HunksApply` | diff.go:91-141 | applying the printed hunks at their header positions gives exactly the new lines |
| `UnifiedDiff.HunkHeader` | diff.go:113-129 | the printed header, with an empty side numbered one lower |
| `Patch.ParsePatchText` | diff.go:129-136 | parsing the printed text gives back exactly the hunks |
| `UnifiedDiff.WriteHunk` | diff.go:83-136 | whole lines are written until one would pass the cap |
| `UnifiedDiff.RenderCapped` | diff.go:81-142 | the text is the longest run of whole patch lines within the cap; truncated exactly when lines are missing |
| `UnifiedDiff.CountChanges` | diff.go:65-73 | the numbers of added and removed lines of the script |
| `UnifiedDiff.UnifiedDiff` | diff.go:43-143 | counts: zero exactly for equal line lists, and within the cell limit \|new\| - LCS and \|old\| - LCS of the whole lists; text: empty or the note for texts with equal lines, else a prefix of whole lines of a valid patch, cut only when over the cap; when not truncated, the text itself parses and applies to give the new lines |
| `Utf8.Utf8Edges` | fileops.go:209-223 | the two loops find the edges of a window |
| `Utf8.EdgesOfWindow` | fileops.go:209-223 | for any cut window of valid text the edges hold whole characters and drop only what the cut broke |
| `Utf8.EdgesValid` | fileops.go:209-223 | the text between the edges is valid |
| `Encodings.Utf8Sequences` | fileops.go:235-247 | the loop counts valid multi-byte sequences and invalid bytes |
| `Encodings.GbkPairs` | fileops.go:252-271 | the loop counts paired and unpaired high bytes |
| `Encodings.DetectEncoding` | fileops.go:187-205 | the decision from those counts |
| `Encodings.DetectWindow` | fileops.go:187-223 | every substring of valid UTF-8 is detected as UTF-8 |
| `Guess.PairsAreCharacters` | fileops.go:252-271 | the pairs and lone high bytes counted are the two-byte characters and lone high bytes that paging in GBK would read |
| `Guess.GuessIff` | fileops.go:187-205 | when the guess is UTF-8, and when GBK, in terms of these characters and of the invalid bytes |
| `Guess.StrayByteIff` | fileops.go:194-200 | UTF-8 text with one stray byte is recognized exactly from fifty multi-byte characters up, or if it breaks GBK as well |
| `Guess.GbkIff` | fileops.go:194-204 | GBK text without a lone high byte is taken for GBK, unless it is fifty to one valid UTF-8 |
| `GbText.WholeChars` | readops.go:349-359 | the loop ends behind the last whole character |
| `GbText.LastBoundary` | readops.go:365-376 | the loop ends just past the last byte that can only stand alone, -1 without one |
| `GbText.NoCover` | readops.go:321-345 | no character of the family reaches over a byte that can only stand alone |
| `GbText.Resync` | readops.go:361-376 | from wherever a parse starts, it passes just behind such a byte |
| `GbText.ResyncWhole` | readops.go:347-376 | parsing a window from its last such byte ends where parsing it from its start ends |
| `GbText.GbHeadSkip` | readops.go:386-407 | the method computes the head skip from the 64 KB before the offset |
| `GbText.HeadSkipIsNext` | readops.go:381-407 | with a boundary in reach the skip leads to the next character boundary of the parse of the whole file, capped at the window |
| `GbText.HeadSkipAtBoundary` | readops.go:381-407 | on a boundary of the whole file nothing is skipped, however far the last lone byte is |
| `Paging.ByteWindow` | readops.go:98-113 | a stretch of the file from the clamped offset within the limit; one that stops early is full or ends a line |
| `Paging.WindowStops` | readops.go:95-113 | where a window stops: at the limit or the end of the file, but behind the last newline of its second half if there is one and more follows |
| `Paging.BinaryIff` | readops.go:472-476 | no text is shown exactly if a NUL is among the first 8000 bytes of the window |
| `Paging.EdgesOf` | readops.go:293-312 | the edges of a window in its encoding |
| `Paging.ShownBounds` | readops.go:483-489 | what is dropped at both edges, with the head skip for the GBK family |
| `Paging.ReadFilePage` | readops.go:460-497 | one byte-mode read, step by step, is the page function |
| `Paging.GbShown` | readops.go:293-407 | a GBK-family window on a character shows whole characters of the file's own parse and makes progress |
| `Paging.Utf8Shown` | readops.go:293-312 | the same for valid UTF-8 |
| `Paging.GoodPage` | readops.go:475-497 | with the encoding named in the request or a valid UTF-8 file, a page from a character start is non-empty, within the limit, splits no character, and the next offset is a character start again |
| `Paging.TilesShowFile` | readops.go:626-660 | pages side by side concatenate to the rest of the file |
| `Paging.PagesTile` | readops.go:626-660 | with the encoding named in the request or a valid UTF-8 file, following next_offset from any character start gives such pages to the end of the file |
| `Paging.PagingLossless` | readops.go:475-497 | with the encoding named in the request or a valid UTF-8 file, from offset 0, with max_bytes >= 4 (2 for GBK), the pages concatenate to the file, each ends on a character boundary of the whole parse or at its end, and each is valid for UTF-8 |
| `Paging.SmallPageCuts` | readops.go:479-489 | a page smaller than the widest character cuts it |
| `Paging.PageSizeIff` | readops.go:475-497 | for an encoding named in the request, pages never split a character, for all readable files, exactly from the widest character's size up |
| `PageLoss.PairPage` | readops.go:381-489 | a two-byte page read as GB18030 that starts on a character, or in the middle of a four-byte one, drops nothing at its head and ends at such a place again |
| `PageLoss.SafePage` | readops.go:475-497 | with the encoding named in the request or a valid UTF-8 file, for every page size that is not a losing one, a page drops nothing at its head and the next one starts where that holds again |
| `PageLoss.LossyContents` | readops.go:479-489 | for every losing page size a readable file of which following next_offset shows all but one byte |
| `PageLoss.LosslessIff` | readops.go:475-497 | with the encoding named in the request or a valid UTF-8 file, following next_offset shows every byte of every readable file exactly when the page size is none of the losing ones: 2 and 3 for UTF-8, 3 for GB18030 |
| `PageOffsets.FollowShowsIff` | readops.go:626-660 | for every file, page size and request, with or without a named encoding: following next_offset shows exactly the rest of the file if and only if every page is text that begins at the offset asked for; otherwise bytes are missing |
| `PageOffsets.ShiftedIff` | readops.go:483-489 | a page begins elsewhere than asked for exactly if something, but not all of the window, is dropped at its head |
| `PageOffsets.HeadDroppedIff` | readops.go:293-312 | a head is dropped exactly in mid-line: in UTF-8 if the window begins with a continuation byte, in the GBK family if there is a head to skip, without an encoding never |
| `PageOffsets.GuessedPagesLose` | readops.go:471-489 | without a named encoding, for every page size from 2 up a GBK text whose last page, taken for UTF-8, drops its first byte |
| `PageOffsets.LettersAreGbk` | readops.go:336-359 | the text of that run is whole GBK-family characters, and its page boundary one of theirs |
| `PageOffsets.GuessedLosslessIff` | readops.go:471-489 | without a named encoding following next_offset shows every byte of every file without NUL bytes exactly for one-byte pages |
| `PageOffsets.GuessChanges` | readops.go:471-489 | a GBK file of which the first page is judged GBK, the second UTF-8, and a byte between them is shown by neither |
| `TailWindow.CountNewlines` | taillog.go:136-144 | the number of newlines |
| `TailWindow.IndexNewline` | taillog.go:146-153 | the first newline, or -1 |
| `TailWindow.WindowLines` | readops.go:214-220 | the number of lines, a last one without newline included |
| `TailWindow.ScanBack` | taillog.go:85-104 | blocks are prepended until there are enough newlines, the head of the file or the cap |
| `TailWindow.ReadTailBytes` | taillog.go:80-134 | a suffix of the file within the cap that starts a line or lost its line's head to the cap, with exactly n newlines unless the file or the cap ends it |
| `TailWindow.ReadTailWindow` | readops.go:257-272 | a suffix of at most max_bytes; not capped exactly when its lines are the last n lines of the file, for every block size; a capped one begins at the first line start behind the cap, or holds max_bytes of one line |
| `TailWindow.FittingLineDroppedIff` | taillog.go:126-131 | such a window leaves out a line that fits exactly if the cap falls on the start of a line |
| `TailWindow.FittingLineDropped` | taillog.go:126-131 | a file of three lines of which four bytes have room for two: the tail read gives one |
| `LineWindow.Reader.ReadSlice` | readops.go:122-158 | the buffered read the loop rests on: a rest of a line, or a full buffer of it |
| `LineWindow.SkipLines` | readops.go:121-134 | skipping leaves the reader at the start of the wanted line |
| `LineWindow.ReadLineWindow` | readops.go:118-163 | the same window for every buffer size |
| `LineWindow.WindowIsRight` | readops.go:118-163 | the window holds lines start..end; capped only at a line that does not fit, cut only in an oversized first line; its cursor names the next line |
| `LineWindow.FollowShows` | readops.go:626-660 | following next_start_line from any line shows exactly the rest of the file iff every remaining line fits |
| `LineWindow.LinePagingIff` | readops.go:626-660 | from line 1, iff every line of the file fits max_bytes |
| `TailMatches.ScanBuffer` | taillog.go:521-543 | one backward pass over a buffer keeps what was found the matches from its position on |
| `TailMatches.MatchingSuffix` | taillog.go:485-549 | matches from a line start on are the last ones of the file |
| `TailMatches.LastMatches` | taillog.go:485-549 | a suffix of the forward-filtered list for every block size; exactly its last min(n, total) lines when complete; cut by bytes only when the next match does not fit; at the scan limit every match on a line that starts behind the first byte scanned; the start offset is that of the first returned line; binary exactly when the block read first looks so |
| `LogWatch.ScanWindow` | waitfor.go:375-413 | one window: the first matching line and its number, else that none matches and where the complete lines end |
| `LogWatch.ScanForMatch` | waitfor.go:362-414 | the same of the file from an offset, at most the read cap |
| `LogWatch.Probe.Check` | waitfor.go:265-282 | satisfied exactly when a line of the window matches; else the cursor moves over the complete lines, after a restart at 0 on another file or a shorter one |
| `LogWatch.WatchedStep` | waitfor.go:355-414 | an unsatisfied scan leaves the cursor just past a newline with no match before it, if and only if no single line fills the read |
| `LogWatch.GiantIff` | waitfor.go:408-410 | a line fills the read exactly when the read is full and has no newline |
| `LogWatch.GiantRest` | waitfor.go:408-410 | the cursor then stands inside the line, and the next scan judges the rest of it as a line of its own |
| `LogWatch.RestMatchesAlone` | waitfor.go:408-410 | a log without a matching line whose second probe is satisfied by such a rest |
| `LogWatch.ProbeKeepsWatch` | waitfor.go:246-283 | every unsatisfied probe of an append-only log keeps that, and the lines consumed are those of the watched part, each once |
| `LogWatch.RunKeepsWatch` | waitfor.go:246-283 | so does every sequence of probes |
| `LogWatch.NothingMissed` | waitfor.go:246-283 | from the start of the wait on, for every sequence of probes |
| `LogWatch.NoFittingLineMissed` | waitfor.go:246-283 | for every sequence of unsatisfied probes, lines of any length in the log: every byte up to the cursor is consumed once and in order, and every complete line that fits a read was consumed in one piece and does not match |
| `LogWatch.SeenIsSatisfied` | waitfor.go:265-282 | a complete matching line satisfies the probe: in the first bytes of the log when its id is another than last seen or its length below the cursor, else in the bytes behind the cursor |
| `LogWatch.SatisfiedIsSeen` | waitfor.go:265-282 | nothing else does: a satisfied probe found a matching line there |
| `LogWatch.TextIsJudged` | waitfor.go:375-407 | the pattern is tried on the text of a line, what stands before LF or CRLF |
| `LogWatch.OnlyAppendedCounts` | waitfor.go:255-264 | a wait on a log that is there is satisfied only by what was appended after it began, however often it looks |
| `LogWatch.CaughtUp` | waitfor.go:246-283 | after a probe that reached the end of the log no complete line of the watched part matches |
| `SearchContext.AddMatch` | searchops.go:379-389 | a match takes exactly the lines before it that are in its window and not shown yet |
| `SearchContext.AddAfter` | searchops.go:391-396 | a line behind the last match is shown once |
| `SearchContext.NoContext` | searchops.go:379-396 | asked for no context, no match carries any |
| `Search.ContextBefore` | searchops.go:380-385 | the lines taken from the ring are the right ones |
| `Search.Run.ScanContent` | searchops.go:349-407 | one pass: the lines shown are exactly the union of the windows of the returned matches up to the stopping line, each once and in order; the results seen are the file's matching lines |
| `Search.Run.AddFile` | searchops.go:422-436 | a result of the file modes is skipped, returned, or stops a full page |
| `Search.Run.Stop` | searchops.go:439-448 | a full page stops with offset plus returned as the cursor |
| `Search.Run.SearchFile` | searchops.go:319-418 | in each mode the results seen are those of the file, or a proper part of them when the page filled |
| `Search.Run.SearchTree` | searchops.go:349-448 | over the whole tree: a prefix of all results, all of them when not stopped; matches in walk order, for each file exactly the merged windows of its returned matches up to where it was looked at, which is its end unless the full page stops at a match in it |
| `Search.SearchPage` | searchops.go:411-448 | a page is the stretch of the full result list from the offset on; truncated exactly when more follows; the cursor moves forward. A truncated page holds max_results results or reaches the byte limit, and before its last result no page did either, counted from the matches and files returned |
| `Search.FollowSearch` | searchops.go:411-448 | following next_offset ends and yields the results of one unbounded scan, no gaps or duplicates, in all three modes |
| `Search.ModesAgree` | searchops.go:411-436 | the file modes list the files with results in content mode, count mode with the number of these |
| `SearchText.Render` | textformat.go:166-183 | the loop prints the rows of the matches, all of them |
| `SearchText.TextIsTrue` | textformat.go:166-183 | for matches in order and true to the files, read from the top: every printed line number and text is that of the file, numbers go up, and a separator stands exactly where lines are left out |
| `SearchText.TextIsWhole` | textformat.go:166-183 | reading the printed rows, each under the path above it, gives exactly the lines shown with the matches, each once and in order, and as matching lines exactly the results |
| `SearchText.SearchAndRender` | textformat.go:166-183 | for whatever a content search returns, with context or without, stopped or not: the text is true and whole in this sense, and its matching lines are the stretch of all results from the offset on |
| `Executions.Execution.Finish` | executions.go:126-130 | the goroutine's lock region is the finish action |
| `Executions.Execution.Claim` | executions.go:161-168 | the call's lock region is the claim action |
| `Executions.Execution.DropOutput` | executions.go:180-190 | dropping keeps everything but the output |
| `Executions.ActionKeeps` | executions.go:103-190 | every action of every thread keeps the invariant |
| `Executions.RunKeeps` | executions.go:103-190 | so does every interleaving |
| `Executions.ExactlyOneReport` | mcp_executions.go:19-24 | at most one of the call and the late callback reports; exactly one when both are through, unless handed off without a callback; state and exit code are the true ones, and so is the output of a late report |
| `Executions.ClaimIsWhole` | executions.go:161-168 | a claim that finds a result gets the command's own outcome exactly if its output was not dropped before, or there was none |
| `Executions.ClaimedIsWholeIff` | executions.go:161-168 | the same for every interleaving, judged at the moment of the claim; a later drop changes nothing |
| `Executions.OutputLostBeforeClaim` | executions.go:238-266 | a run from the start in which a claim gets the stripped result: seventeen commands finish with output, a lookup prunes, a dropped one is claimed |
| `Executions.DrainedIsReported` | executions.go:122-137 | an id that has left `running` has its result, and its late report if one was due |
| `Executions.RunIsLater` | executions.go:178-190 | a result never goes away or changes state or exit code; only its output may be dropped |
| `Executions.RunningStaysListed` | executions.go:236-266 | a launched execution without a result is listed and in `running` |
| `Executions.PruneBounds` | executions.go:238-266 | after a prune, whatever finished meanwhile: of those it saw at most 200 listed, 16 with output, all within the retention, and it saw all that had ended before |
| `Executions.DropIsJustified` | executions.go:253-264 | an output is dropped only while 16 others started no earlier hold theirs |
| `Executions.EvictionIsJustified` | executions.go:238-258 | only finished executions are forgotten: past retention, or with 200 others started no earlier |
| `Executions.PruneLocked` | executions.go:238-266 | the sequential prune is a run of the step system; it leaves at most 200 finished executions and 16 outputs in all, changes nothing but by dropping outputs, and forgets only finished ones past retention, others only if 200 stay |
| `ExecTimes.RecordIsTrue` | executions.go:103-137 | in every run: the start is the time of the registration, the end that of the command; the result kept, the one claimed and the one reported are the outcome the command finished with, the first two perhaps without output |
| `ExecTimes.CanFinish` | executions.go:122-137 | a command at work can always finish, with any outcome: stored, reported if handed off with a callback, and out of `running` |
| `ExecTimes.PruneTime` | executions.go:116-119 | a prune judges ages by the time its lock was taken |
| `Waits.ActionKeeps` | waits.go:71-160 | every action of watchers, starts, lookups and cancellations keeps the invariant |
| `Waits.RunKeeps` | waits.go:71-160 | so does every interleaving |
| `Waits.Bounded` | waits.go:71-112 | at most 64 unresolved, at most 265 in the map, no unresolved one evicted, refusals only at a count of 64 |
| `Waits.CancelAllReachesAll` | waits.go:123-134 | when CancelAll is through, every unresolved watcher is cancelled |
| `Waits.EvictionIsJustified` | waits.go:138-160 | only resolved watchers are forgotten: past retention, or with 200 others started no earlier that stay |
| `Waits.AnswersAreTrue` | waits.go:195-223 | in every interleaving: satisfied only after a check of it that held, with its detail; an error only after a check that failed with it; timed out only past the deadline and by its expiry; cancelled only after a cancellation of it; pending with the detail of a check that did not hold; a closed watcher is never pending |
| `Waits.AnswersAreFinal` | waits.go:195-223 | an answer other than pending never changes |
| `Waits.LocalKeepsWait` | waitfor.go:145-179 | one step of the polling loop: a hit, an error, the deadline or a cancellation decides, and never two of them |
| `WaitTimes.TimesAreTrue` | waits.go:83-109 | told from the actions alone: the start is when the lock region that registers the watcher ends, the deadline the timeout asked for later; it times out only from then on, and may from then on whenever it waits; its end is when its verdict is stored; it counts its checks |
| `WaitTimes.ProbeAnswers` | waitfor.go:155-167 | a watcher before a check answers at once if the check holds or breaks |
| `WaitTimes.SelectAnswers` | waitfor.go:171-178 | one that waits answers at once past its deadline or when cancelled |
| `WaitTimes.PruneTime` | waits.go:71-74 | a prune judges ages by the time its lock was taken |
| `WaitPrune.RegionEnds` | waits.go:71-83 | whatever the watchers do during a start or a lookup: of those through when it took the lock at most 200 stay, none past retention; a start is refused only if exactly 64 were unresolved then, else its watcher is registered |
| `WaitPrune.CancelAllCounts` | waits.go:122-134 | the number CancelAll answers is at least that of the unresolved when it ends, at most that when it began |
| `RateLimiter.Limiter.Refill` | middleware.go:57-73 | the bucket is brought up to date, full for an unknown client |
| `RateLimiter.Limiter.Take` | middleware.go:84-98 | passes exactly with a whole token, which is taken; remaining and wait as told |
| `RateLimiter.Limiter.Sweep` | middleware.go:108-117 | drops exactly the buckets idle too long |
| `RateLimiter.AlikeAnswers` | middleware.go:57-117 | states with the same tokens for everyone answer alike for ever, with sweeps or without |
| `RateLimiter.SweepInvisibleIff` | middleware.go:38-40 | sweeps change no answer of any run exactly when burst <= 2 * perMin |
| `RateLimiter.RefusalInvisible` | middleware.go:84-98 | with burst <= 2 * perMin a refused request changes no later answer |
| `RateLimiter.RefusalInvisibleIff` | middleware.go:84-117 | that holds after every run from the start, for every later run, exactly when burst <= 2 * perMin |
| `RateLimiter.PassedIsPaid` | middleware.go:57-98 | with burst <= 2 * perMin what passes is paid from tokens present and inflow; tokens stay between 0 and burst |
| `RateLimiter.RateBound` | middleware.go:57-117 | with burst <= 2 * perMin, in any stretch of any run at most burst + perMin * minutes requests of a client pass |
| `RateLimiter.RateBoundIff` | middleware.go:57-117 | that holds for all stretches of all runs exactly when burst <= 2 * perMin |
| `RateLimiter.WaitIsExact` | middleware.go:89-97 | a refused client passes exactly from the announced wait on, if nothing of its own passes meanwhile, for any positive burst and perMin and whatever is swept |
| `RateLimiter.RetryNeverEarly` | middleware.go:137-140 | the rounded milliseconds and seconds are never early, the milliseconds late by at most one, the seconds the fewest that cover these |
| `RateWindow.BucketIsRule` | middleware.go:57-98 | every run without sweeps is answered by the rule alone: a request passes if no stretch from an earlier pass of its client up to it then holds more than burst + perMin * minutes |
| `RateWindow.BucketIsRuleIff` | middleware.go:38-117 | so is every run with sweeps, exactly when burst <= 2 * perMin |
| `Output.CappedBuffer.Write` | output.go:31-74 | after any write the buffer keeps the first or last bytes of all that was written |
| `Output.CappedBuffer.WriteShort` | output.go:58-73 | a short tail-mode write is appended, or wrapped once the ring is full |
| `Output.CappedBuffer.Wrap` | output.go:68-72 | the wrapping copy moves the ring on by the length of the write |
| `Output.CappedBuffer.Bytes` | output.go:77-84 | the kept bytes in write order |
| `Output.FinishOutput` | output.go:111-119 | the captured bytes give a truncation of the stream: its beginning or its end, the longest within max that cuts no character, at most three bytes shorter; truncated exactly when the stream is longer than max |
| `Output.TruncateToLimit` | executor.go:334-353 | the two loops find that cut |
| `Output.CaptureThenTruncate` | executor.go:215-219 | three spare bytes suffice |
| `Output.TruncateSound` | executor.go:334-353 | at most max bytes, at most three fewer, valid UTF-8 stays valid |
| `Output.TruncateKeeps` | executor.go:334-353 | the beginning or the end of the bytes; when longer than max, the longest of at most max bytes that cuts no character, or three bytes less where there is none |
| `Output.NextTooLong` | executor.go:334-353 | of valid text no more could be kept: the next character would pass max |
| `Output.Capture` | output.go:31-119 | however a command splits its output into writes, the answer is such a truncation of all of it, maximal for valid text |

## Left out

- HTTP, MCP registration, authentication, logging, process spawning and signals, path sandboxing, jobs and sessions: plumbing over libraries and the operating system.
- I/O errors and files that change during one read: each read is atomic and succeeds; deadlines of a search are left out with them.
- Regular expressions, the GBK and GB18030 character tables, decoding and the shortening of displayed lines: arbitrary functions and predicates; only segmentation is modelled.
- `truncate_mode=tail` of a read, picked lines, line numbers beyond the windows and the following of a growing log: easy members next to the windows proved here.
- Names of encodings: already resolved to one of three.
- Integer widths: modelled only for the 32-bit cells of the diff table; offsets, counters and nanoseconds are unbounded.
- RateLimiter.Limiter.Take: exact reals instead of floating point; only the truncation of the wait to nanoseconds and its rounding to milliseconds are modelled.
- Output.FinishOutput: the path without decoding only.
- Executions.RunKeeps: lock regions are actions on values (no heap aliasing); execution ids are distinct, and a finished command's outcome is arbitrary. `Execution` is the class of the guarded fields; the registry's maps are values.
- Waits.RunKeeps: watchers and the manager are values. Watcher ids, eight hexadecimal digits in the source, are distinct. A prune reads `done` and the end time in one step, which nothing can tell apart because both are fixed once `done` is closed.
- LogWatch.ScanForMatch: the excerpt of the matching line is not modelled.
