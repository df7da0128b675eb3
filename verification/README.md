# Verified model of the log reader, the monitoring workers and three smaller protocols

This project models, in Dafny 4.11, the parts of ChainLaunch whose correctness depends on several
functions or on interleavings, and proves what they promise, or exactly when they keep it.

| file | what it models |
|---|---|
| `Lines.dfy` | files as bytes, the line splitting of `bufio.Scanner`, and the byte-by-byte view of the fast paths |
| `Strings.dfy` | `strings.Index` and `strings.Contains` |
| `Int64Codec.dfy` | little-endian int64 words of `encoding/binary` |
| `LineIndexing.dfy` | the byte-offset line index: build, save, load, open |
| `IndexRuns.dfy` | a growing log, its index file and the cached index, with saves cut short anywhere |
| `LogReader.dfy` | reading a range of lines by scanning and through the index and a memory map |
| `LogFilter.dfy` | the scanner filter and the chunked filter |
| `LogTail.dfy` | the ring-buffer tail, streaming, line counting |
| `MonitorNode.dfy` | a monitored node, one check result, the service object |
| `MonitorRuns.dfy`, `MonitorInvariant.dfy` | the monitoring workers as interleaved steps, and what every step keeps |
| `MonitorTheorems.dfy`, `MonitorNotices.dfy`, `MonitorResults.dfy` | mutual exclusion, repeated checks, notices and status queries over whole runs |
| `MonitorShutdown.dfy` | stopping the monitoring workers |
| `SidecarPatch.dfy` | the rewrite of the sidecar's YAML text |
| `AuditQueue.dfy` | the bounded audit queue, its workers and its shutdown |
| `Quickstart.dfy` | port layout, retry loops, and the phases that join, restart and check nodes |

## How it is modelled

* A file is a sequence of bytes and does not change during one call. A disk that fills up, or a
  process that dies while it saves an index, is the parameter `room`: how many bytes of the save
  reach the file. Memory mapping is a slice of the file; `mmap` refuses an offset that is not a
  multiple of the page size and a length that is not positive, and the page size is a parameter.
* A compiled regular expression is any predicate on the bytes of a line. The chunk size is any
  positive number, and an output stream is one that accepts some number of bytes.
* Objects that the program updates in place are classes (`LineIndex`, `LogService`, `Scanner`,
  `NodeObject`, `Service`, `AuditService`), each method proved against a function on values. What
  runs concurrently is a state machine whose steps are the accesses to shared state; a run is any
  list of enabled steps. The answers of servers and probes are parameters.

## What the proofs found

The code is modelled as it is; where it does not keep what its callers expect, the condition
under which it does is proved in both directions.

* The chunked filter drops the last byte of an unterminated last line, or the whole line when the
  file size is a multiple of the chunk size, and it keeps carriage returns that the scanner removes.
* The mapped range read fails unless the first line of the range starts on a page boundary, and a
  cached index is never refreshed.
* A log replaced by another of the same size keeps the old index.
* When a log is cut short after its index was cached, a mapped read of lines past the last page
  that is left is a fault that ends the program.
* In a text whose first `committer:` line is the first line of the text, or whose first occurrence
  of it stands in the middle of a line, the first block that is injected is not replaced by the
  next one, although a comment in the program says that a prior block is removed. The second patch
  adds a second block; from then on each patch replaces the block of the one before it.
* Streaming a large log can write lines that filtering it with the same options does not return.
* A monitoring worker can begin further passes after stop is signalled.
* Closing the audit service does not wait for the events that are still queued: all accepted
  events are dealt with under every schedule exactly when the queue is empty once stop is
  signalled, and an event accepted after that can always be left behind.
* A negative number of join retries reports success without any attempt, and the waits between
  retries no longer double once one of them overflows 64 bits.
* After a monitored node is removed, its status can come back exactly when a worker still has it to
  check, is checking it, or has yet to store its result.
* A recovery notice always reports a downtime of zero.

## Model

| member | source | states |
|---|---|---|
| Lines.RawLinesByByte | pkg/log/service.go:110-126 | the lines a scanner sees are the newline-terminated pieces met byte by byte, and the unterminated rest if it is not empty |
| Lines.RenderComplete | pkg/log/index.go:62-77 | cutting a file at its newlines loses nothing: the pieces and the rest concatenate back to it |
| Lines.CompleteUnique | pkg/log/index.go:62-77 | that cut is the only one into newline-free lines and a newline-free rest |
| LineIndexing.OffsetsCutFile | pkg/log/index.go:62-77 | offsets start at 0, strictly increase, stay in the file, and the slices between them are the lines of the file with their newlines |
| LineIndexing.OneOffsetPerNewline | pkg/log/index.go:66-77 | there is exactly one offset more than there are newlines |
| LineIndexing.AppendKeepsIndex | pkg/log/index.go:62-77 | the offsets and lines of a file are a prefix of those of any extension of it |
| LineIndexing.SliceBetweenOffsets | pkg/log/service.go:148-161 | the bytes between two offsets hold exactly the lines between them |
| LineIndexing.LineIndex.Build | pkg/log/index.go:45-81 | one pass yields the index of the file, whatever the fields held before, and saves it as far as the disk takes it |
| LineIndexing.ReadBytes | pkg/log/index.go:71 | the bytes up to and with the next newline, or the newline-free rest |
| LineIndexing.LineIndex.Save | pkg/log/index.go:84-110 | the index file holds the whole index on success, a prefix of it when a write fails, and is untouched when it cannot be created |
| LineIndexing.LineIndex.SaveOffsets | pkg/log/index.go:103-107 | the loop writes the offsets word by word, and stops where the disk refuses |
| LineIndexing.LineIndex.LoadFrom | pkg/log/index.go:113-143 | reading word by word yields what the file as a whole decodes to, fails on a short file, panics on a negative count, and leaves in the fields what had been read by then |
| LineIndexing.LineIndex.ReadOffsets | pkg/log/index.go:134-140 | the loop reads offsets until it has all or the file ends |
| LineIndexing.LineIndex.GetOffset | pkg/log/index.go:146-154 | 1-based lookup with its range error |
| LineIndexing.NewLineIndex | pkg/log/index.go:20-42 | the saved index is used exactly when it loads and its size is that of the log; else a new one is built and saved |
| Int64Codec.DecodeEncode | pkg/log/index.go:92-105 | every int64 is read back as it was written |
| Int64Codec.DecodeEncodeAll | pkg/log/index.go:103-140 | every list of int64 is read back as it was written |
| Int64Codec.EncodeBytes | pkg/log/index.go:92-105 | the eight bytes of a word, the least significant first |
| LineIndexing.LoadSaved | pkg/log/index.go:84-143 | loading restores the size and every offset that was saved |
| LineIndexing.LoadTruncated | pkg/log/index.go:84-143 | no proper prefix of a saved index loads |
| LineIndexing.LoadMeaning | pkg/log/index.go:113-143 | where size, count and offsets stand in an index file, and when it loads, fails or panics |
| LineIndexing.OpenMeaning | pkg/log/index.go:20-42 | a saved index of the size of the log is used as it is, else a new one is opened if and only if all of it can be saved; what the index file then holds |
| IndexRuns.OpenIsCurrent | pkg/log/index.go:20-42 | opening never panics and yields the index of the current file, from any index file an append-only run can leave |
| IndexRuns.RunKeepsInv | pkg/log/index.go:20-143 | over every run of appends, restarts and saves cut short, index file and cache belong to an earlier version of the log |
| IndexRuns.NewIndexOverRuns | pkg/log/index.go:20-42 | after every such run a newly opened index is that of the current file |
| IndexRuns.RangeReadOverRuns | pkg/log/service.go:57-81 | after every such run a mapped read that ends before the index does, cached or new, returns the lines of the current file or fails for the page boundary alone |
| IndexRuns.ReplacedBySameSize | pkg/log/index.go:27-33 | a log replaced by one of the same size keeps the old index, which is right if and only if the newlines stand at the same places |
| IndexRuns.OpenStep | pkg/log/service.go:57-81 | getting an index is the opening step of these runs |
| IndexRuns.RestartStep | pkg/log/service.go:50-54 | a new service is the restart step |
| LogReader.Scanner.Scan | pkg/log/service.go:110-129 | the k-th scan returns the k-th line, without its carriage return |
| LogReader.ScanRange | pkg/log/service.go:110-126 | the scanning read returns exactly the existing lines of the range with their numbers |
| LogReader.Mmap | pkg/log/service.go:170-173 | which requests are rejected, and which bytes of a granted one can be read: past the last page of the file none |
| LogReader.MappedBytes | pkg/log/service.go:170-173 | a mapping shows the bytes of the file, then zeros |
| LogReader.CutMapped | pkg/log/service.go:178-196 | the loop cuts the mapped bytes into their numbered lines, terminated or not |
| LogReader.LogService.GetOrCreateIndex | pkg/log/service.go:57-81 | a cached index is returned unchanged; a new one is cached exactly when opening it succeeds |
| LogReader.LogService.ReadLogRangeMMap | pkg/log/service.go:140-203 | the mapped read with any index and any file, with the fallback to the indexed size for the last line, each of its errors, and the fault; and the cache and the index file it leaves behind |
| LogReader.LogService.ReadLogRange | pkg/log/service.go:84-137 | argument errors, missing file, the numbered lines of a small file, the mapped read of a large one, and the cache and the files it leaves behind |
| LogReader.ReadRangeMeaning | pkg/log/service.go:84-137 | which argument gives which error; a file of at most 100 MB is answered with exactly the existing lines of the range, each with its number, any larger one by the mapped read |
| LogReader.MappedReadsOldFile | pkg/log/service.go:140-203 | with an index of an earlier version, a mapped read answers as a scan of that version would, and fails exactly past the index, past the last line or off a page boundary |
| LogReader.MappedReadsCutFile | pkg/log/service.go:140-203 | with the index of a file that was cut since, a mapped read faults exactly when its range ends past the last page that is left, and is right when it ends within what is left |
| LogReader.LargeFileOffPage | pkg/log/service.go:103-105 | large files whose second line cannot be read, although a scan returns it |
| LogReader.LargeFileCut | pkg/log/service.go:103-105 | large logs, cut short but still large, of which a read with the cached index ends the program |
| LogReader.MappedEqualsScan | pkg/log/service.go:84-203 | the two reads agree if and only if the range stays in the index, starts at an existing line on a page boundary, and holds no line ending in a carriage return |
| LogReader.OldRangeStillRight | pkg/log/service.go:57-81 | a range answered from an old index is right for the grown file if and only if it ends before the index, or nothing was appended, or the append began by ending the last line |
| LogReader.RangeDropCRs | pkg/log/service.go:110-203 | the reads differ by carriage returns only, and not at all exactly when no line of the range ends in one |
| LogFilter.FilteredMeaning | pkg/log/service.go:237-267 | the entries are exactly the lines within the bounds that match the pattern, in strictly increasing line order |
| LogFilter.FilteredEqualIff | pkg/log/service.go:237-342 | two lists of lines filter to the same entries if and only if they agree line number by line number |
| LogFilter.FilterScan | pkg/log/service.go:237-267 | the scanner filter, with its early stop, selects from all lines |
| LogFilter.ReadAt | pkg/log/service.go:297 | fills the buffer from the offset and reports the end of file exactly when it reads less than the buffer holds |
| LogFilter.FilterChunk | pkg/log/service.go:302-335 | one chunk with the carried partial line takes the entries of the bytes before it to those of the bytes after it |
| LogFilter.FilterChunked | pkg/log/service.go:271-343 | for every file and chunk size the chunked filter terminates and returns the entries of the lines it sees, which lose the end of an unterminated file |
| LogFilter.FilterLog | pkg/log/service.go:206-268 | errors, and the choice between the two filters by file size |
| LogFilter.ChunkedEqualsScanIff | pkg/log/service.go:237-342 | for every file, chunk size, pattern and bounds, the two filters return the same entries if and only if they treat each line alike |
| LogFilter.ChunkedEqualsScanForAllOptions | pkg/log/service.go:237-342 | they agree for all options on files without a carriage return before a newline whose end the chunks keep, and on no other file |
| LogFilter.LargeFileUnterminated | pkg/log/service.go:206-216 | large files of which the filter does not return all lines when everything is selected |
| LogTail.FillRing | pkg/log/service.go:362-374 | after the scan every one of the last n lines is in the slot of its number modulo n |
| LogTail.ReadRing | pkg/log/service.go:380-399 | reading from the oldest slot returns the last lines in order with their true numbers |
| LogTail.TailLog | pkg/log/service.go:346-402 | the limits on n, and the same entries as a range read of the last min(n, L) lines |
| LogTail.StreamLog | pkg/log/service.go:405-460 | the output receives the contents of the filtered entries in order, each with a newline, up to the byte at which it fails |
| LogTail.StreamLines | pkg/log/service.go:424-453 | the loop writes what the filter selects, and fails exactly when the output takes fewer bytes |
| LogTail.StreamEverythingIff | pkg/log/service.go:424-453 | without options an output that takes it all receives the file byte for byte if and only if the last line is terminated and no carriage return stands before a newline |
| LogTail.StreamEqualsFilterIff | pkg/log/service.go:405-460 | streaming writes the contents of the entries that the chunked filter returns whenever the two filters agree, and without a pattern exactly then |
| LogTail.CountLines | pkg/log/service.go:480-491 | the line count is the number of lines the scanner sees |
| LogTail.IndexCountsOneMore | pkg/log/index.go:157-161 | the index counts one line more than that exactly when the file is empty or terminated |
| MonitorNode.Classify | pkg/monitoring/service.go:228-255 | a check reports down if and only if it carries an error |
| MonitorNode.Service.AddNode | pkg/monitoring/service.go:97-124 | the three rejections, the defaults for what is zero, and the replacement under the id |
| MonitorNode.Service.RemoveNode | pkg/monitoring/service.go:127-137 | node and stored result of the id are gone, the others stay |
| MonitorNode.Service.DueNodes | pkg/monitoring/service.go:197-204 | the snapshot holds exactly the registered nodes that are due, each once, for every map order |
| MonitorNode.Service.CheckNode | pkg/monitoring/service.go:213-256 | a check is skipped exactly when the guard is taken, stores status, time and error as the answer gives them, and gives the guard back |
| MonitorNode.Service.HandleNodeCheckResult | pkg/monitoring/service.go:437-498 | each field of the node after a result, the stored result, when a down notice is sent and that it carries the failure count, when a recovery notice is sent and that it reports a downtime of zero |
| MonitorNode.CountIsTrailingRun | pkg/monitoring/service.go:466-470 | the failure count is the length of the trailing run of down results |
| MonitorNode.NoticesInRun | pkg/monitoring/service.go:492-493 | for any threshold and count, how many notices a run of down results sends |
| MonitorNode.NoticesInMaximalRun | pkg/monitoring/service.go:492-493 | a maximal run of k down results sends max(0, k - T + 1) notices |
| MonitorNode.UpNoticesAreRecoveries | pkg/monitoring/service.go:494-497 | recovery notices are the passages from down to up |
| MonitorInvariant.StepKeepsInv | pkg/monitoring/service.go:191-226 | every step of every worker keeps guard, snapshots and history in order |
| MonitorInvariant.RecordKeepsInv | pkg/monitoring/service.go:450-483 | recording a check keeps them: times of a node never go back, and a check from a newer snapshot is an interval later |
| MonitorTheorems.MutualExclusion | pkg/monitoring/service.go:214-226 | in every interleaving no two workers are past the guard on the same id, and the guard is exactly the ids in flight |
| MonitorTheorems.NothingMissing | pkg/monitoring/service.go:207-226 | in every interleaving a worker in its pass finds the objects its next step needs |
| MonitorTheorems.RepeatsBounded | pkg/monitoring/service.go:192-226 | in every interleaving of W workers at most W - 1 further checks of a node are recorded within an interval of one |
| MonitorTheorems.BoundReached | pkg/monitoring/service.go:192-226 | for every W some interleaving records all W - 1 |
| MonitorTheorems.StepsMakeCheck | pkg/monitoring/service.go:213-256 | without interference the steps of a check add up to the whole check of the service |
| MonitorRuns.CallerSteps | pkg/monitoring/service.go:90-137 | the steps of the clock and of callers that add, remove and stop |
| MonitorNotices.NotifierReadsOwnWrite | pkg/monitoring/service.go:483-497 | the failure count read after the lock is released is the one the same check wrote, so the notice is the one it calls for |
| MonitorNotices.StepKeepsNotices | pkg/monitoring/service.go:437-498 | every step keeps node objects, pending notices and sent notices in line with the history |
| MonitorNotices.NoticesOverRuns | pkg/monitoring/service.go:449-498 | in every interleaving the notices sent for a node are exactly those its own results call for, once none is on its way |
| MonitorNotices.DownNoticeCounts | pkg/monitoring/service.go:492-507 | in every interleaving a down notice is for a down result and carries the number of failures in a row up to it, no less than the threshold |
| MonitorNotices.LastChangeMeaning | pkg/monitoring/service.go:459-463 | the status change time is that of the check that last changed the status, with the same status found ever since |
| MonitorResults.StatusIsOfLastCheck | pkg/monitoring/service.go:147-157 | in every interleaving the stored result of an id is of its last check, but for checks whose workers are about to store theirs |
| MonitorResults.RemovedStaysForgotten | pkg/monitoring/service.go:127-137 | in no interleaving is a removed id reported that no worker can still store a result for, until it is registered again |
| MonitorResults.HolderStores | pkg/monitoring/service.go:213-226 | a worker that can still store a result for an id, or the worker that blocks it, is brought to do so by some schedule |
| MonitorResults.RemovedReportedIff | pkg/monitoring/service.go:127-137 | in every reachable state, when a removal ends the status of its id can come back if and only if some worker has a node of it to check, is checking it, or has yet to store its result |
| MonitorResults.RemovedNodeReported | pkg/monitoring/service.go:485-488 | an interleaving that stores a result for a removed id |
| MonitorShutdown.StopTerminates | pkg/monitoring/service.go:90-94 | in every reachable state after the stop signal some schedule ends with all workers exited, and every schedule in which none begins a further pass is bounded and can be continued until all have exited |
| MonitorShutdown.ExitsOnlyAfterStop | pkg/monitoring/service.go:179-188 | in every interleaving no worker exits before the stop signal |
| MonitorShutdown.PassesGoOn | pkg/monitoring/service.go:179-188 | while nothing is due, an idle worker can begin and end a pass and be where it was, stopped or not |
| Strings.Index | cmd/patchsidecar/main.go:91-94 | the first occurrence, or none exactly when there is no occurrence |
| SidecarPatch.PatchText | cmd/patchsidecar/main.go:89-104 | the program's steps compute the patched text |
| SidecarPatch.PatchSpelled | cmd/patchsidecar/main.go:89-104 | letter by letter, what is removed from a text and what is put where |
| SidecarPatch.BlockListsPaths | cmd/patchsidecar/main.go:100-103 | the block is the two head lines and then, in order, each path on a line of its own behind six spaces, a dash and a space |
| SidecarPatch.InjectedMidLine | cmd/patchsidecar/main.go:99-104 | a block injected in the middle of a line or at the very start is not found again |
| SidecarPatch.FirstMarker | cmd/patchsidecar/main.go:91 | the first marker of a text patched at a line start is the injected one |
| SidecarPatch.ListPaths | cmd/patchsidecar/main.go:74-83 | the loops list the path of every certificate of every party |
| SidecarPatch.AllPathsSpelled | cmd/patchsidecar/main.go:74-83 | the paths letter by letter, party by party, each party's by number |
| SidecarPatch.DigitsMean | cmd/patchsidecar/main.go:77 | the numbers are written in decimal without leading zeros |
| SidecarPatch.AllPathsAre | cmd/patchsidecar/main.go:77-81 | all of these paths end in `.pem` and hold no newline |
| SidecarPatch.StripInjected | cmd/patchsidecar/main.go:90-98 | removing the block injected at a line start restores the text |
| SidecarPatch.NoMarkerBeforeKey | cmd/patchsidecar/main.go:91-98 | in a text from which a block was removed, no marker comes before its first key if that starts a line |
| SidecarPatch.StripKeepsLineStart | cmd/patchsidecar/main.go:91-98 | removing a block leaves the first key at the start of a line |
| SidecarPatch.StripPatchIff | cmd/patchsidecar/main.go:89-104 | for every text, removal undoes a patch if and only if the first key starts a line after the first, or there is no key |
| SidecarPatch.RepatchIff | cmd/patchsidecar/main.go:89-104 | for every text, patching again equals patching once with the last list if and only if that condition holds |
| SidecarPatch.OnlyLastPatchShows | cmd/patchsidecar/main.go:89-104 | under that condition, after any number of patches only the last one shows |
| SidecarPatch.OnePatchSettles | cmd/patchsidecar/main.go:89-104 | for every text, that condition holds after one patch |
| SidecarPatch.FirstAndLastShow | cmd/patchsidecar/main.go:89-104 | for every text and any number of patches, the last one shows under that condition, and the first and the last one otherwise |
| SidecarPatch.GrowthStops | cmd/patchsidecar/main.go:89-104 | for every text, after a first patch, what any further patch adds is replaced by the one that follows it |
| SidecarPatch.FirstBlockStays | cmd/patchsidecar/main.go:89-104 | what a text that holds no other marker, and whose first key starts no line, looks like after two or more patches |
| SidecarPatch.KeyOnFirstLine | cmd/patchsidecar/main.go:99-104 | a text that starts with its key after one, two and three patches |
| SidecarPatch.BlockHoldsKeyIff | cmd/patchsidecar/main.go:100-103 | a block holds the key if and only if one of its paths ends in it |
| SidecarPatch.CertPathsHoldNoKey | cmd/patchsidecar/main.go:77-81 | so none of the program's blocks does |
| SidecarPatch.GrowthStopsIff | cmd/patchsidecar/main.go:89-104 | for lists of arbitrary newline-free paths, and not only those the program makes: when patches replace one another |
| AuditQueue.StepKeepsInv | pkg/audit/service.go:73-126 | every step keeps the queue bounded and in order and every taken event accounted for once |
| AuditQueue.Conservation | pkg/audit/service.go:73-119 | in every interleaving each accepted event is in exactly one of queue, hands, database and failures, in order, and none is written twice |
| AuditQueue.ShutdownTerminates | pkg/audit/service.go:122-126 | after stop, every schedule of worker steps is bounded and can only end with all workers exited |
| AuditQueue.ExitsOnlyAfterStop | pkg/audit/service.go:86-119 | in every interleaving no worker exits before the stop signal |
| AuditQueue.CloseLosesNothingIff | pkg/audit/service.go:115-126 | in every reachable state after the stop signal: every schedule in which the workers exit writes or gives up all accepted events if and only if the queue is already empty |
| AuditQueue.LoggedAfterStop | pkg/audit/service.go:73-80 | an event accepted between stop and close is left behind by some schedule, and dealt with by some if and only if a worker has not exited yet |
| AuditQueue.ClosedLeavesQueue | pkg/audit/service.go:122-126 | what a finished close leaves out is what is in the queue, and nothing else |
| AuditQueue.AcceptedEventLeftBehind | pkg/audit/service.go:115-126 | an interleaving in which an accepted event is left in the queue |
| AuditQueue.AuditService.constructor | pkg/audit/service.go:24-38 | the default number of workers, all waiting |
| AuditQueue.AuditService.LogEventAsync | pkg/audit/service.go:73-80 | the send never blocks, and drops the event exactly when the queue is full |
| AuditQueue.AuditService.TakeEvent | pkg/audit/service.go:86-88 | the receive hands out the oldest queued event |
| AuditQueue.AuditService.FinishEvent | pkg/audit/service.go:89-113 | the database gets the event in hand exactly when encoding and write succeed |
| Quickstart.PortOffset | cmd/fabricx/quickstart.go:73-80 | each port of a party by name and by position |
| Quickstart.PortsDistinctIff | cmd/fabricx/quickstart.go:73-80 | for every number of parties and slot size, when the ports are pairwise distinct; from three parties on, exactly from slot size 15 |
| Quickstart.SendWithRetry | cmd/fabricx/quickstart.go:1091-1190 | the two retry loops: result, number of attempts, and the time slept, with 64-bit waits |
| Quickstart.SleptIff | cmd/fabricx/quickstart.go:1093-1103 | the time slept before a attempts is base * (2^(a-1) - 1) if and only if there was no wait, or the base is not negative and the last wait fits in 64 bits |
| Quickstart.RetrySucceedsIff | cmd/fabricx/quickstart.go:1091-1116 | nil is returned if and only if an attempt within the limit is made and succeeds, or the number of retries is negative |
| Quickstart.RetryEnds | cmd/fabricx/quickstart.go:1091-1190 | for all replies and cancellations, which reply the result comes from: the error of the last attempt, a success, or a wait cut short |
| Quickstart.FollowedIff | cmd/fabricx/quickstart.go:1091-1203 | after a failing reply below the limit there is another attempt if and only if its message mentions none of six client errors, or the start request did not reach the server |
| Quickstart.JoinOne | cmd/fabricx/quickstart.go:536-551 | what one join adds to the two lists, and when the phase ends there |
| Quickstart.JoinsIff | cmd/fabricx/quickstart.go:1091-1116 | a node counts as joined if and only if the server accepted it in some attempt, or the number of retries is negative |
| Quickstart.StartsIff | cmd/fabricx/quickstart.go:1155-1190 | the same of the start loop |
| Quickstart.NodesInOrder | cmd/fabricx/quickstart.go:585-598 | the nodes of a network position by position: the children of each party, then the one committer, or the committer of each party |
| Quickstart.NotStartedNext | cmd/fabricx/quickstart.go:599-605 | the failures are listed in the order of the nodes |
| Quickstart.JoinList | cmd/fabricx/quickstart.go:556-577 | the loop over the committers, and over the children of a party: every node in order, up to the first rejected one unless told to go on |
| Quickstart.JoinChildren | cmd/fabricx/quickstart.go:534-552 | the orderer loops try every child of every party in order, and stop at the first rejected one unless told to go on |
| Quickstart.Reconcile | cmd/fabricx/quickstart.go:585-609 | the nodes started again are those of the join phase, each at its position, and the failures are exactly those not started |
| Quickstart.Provision | cmd/fabricx/quickstart.go:531-653 | success if and only if every node is healthy and was accepted in some attempt (or retries are negative) and the namespace step, if asked for, succeeded; the nodes tried and those started again are the same, without repetition; the other outcomes and their lists |
| Quickstart.ThreeOutcomes | cmd/fabricx/quickstart.go:536-577 | each node lands in exactly one of rejected, joined unhealthy and joined healthy, without repetition |
| Quickstart.NodeCount | cmd/fabricx/quickstart.go:586-598 | 4N + 1 nodes in single mode, 5N otherwise |

## Left out

- LogReader.Mmap: does not model a length beyond the address space, which the kernel refuses.
- LineIndexing.LineIndex.LoadFrom: does not model the panic of `make` for counts beyond the address space; no save writes such a count.
- LogReader.Scanner.Scan: does not model the token limit of `bufio.Scanner`; lines are taken to be under it.
- SidecarPatch.ListPaths: does not model the cleaning of a path whose party name holds a slash, nor names that hold a newline.
- Quickstart.Provision: takes the answers of the server to depend on the node and the attempt alone.
- MonitorNode.Service.AddNode: registering a node is one step of a run, although its defaults are filled in before the lock is taken; nothing else holds the node by then.
- Several goroutines opening or reading one index at once: the index is modelled serially, the locks around it are not.
- TLS and JSON-RPC probing, and the texts of notifications.
- `LogEventAsync` after `Close`, JSON encoding of event details, and the SQL of the audit log.
- Regular expression syntax, and which expressions fail to compile.
- HTTP handlers, command-line flags, the web UI, generated queries, and the calls into Docker, Fabric and EVM clients.
- The earlier provisioning phases, clean-up of a prior network, and name sanitizing: they would add easy members only.
