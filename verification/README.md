# SkyWalking Rover, modelled and proved in Dafny

Apache SkyWalking Rover watches the sockets and processes of a host from the kernel (eBPF) and turns what it
sees into access logs. This project models the parts of it that keep state and must get their bookkeeping
right, and proves what they promise over all inputs, all arrival orders or all runs.

`dafny verify dfyconfig.toml` checks the whole project.

| file | part of the system |
|---|---|
| `Chunks.dfy` | the kernel cutting one write into numbered chunks, and what reading them back gives |
| `Events.dfy`, `Ordering.dfy`, `Details.dfy`, `Lists.dfy`, `Buffer.dfy` | the reassembly buffer: ordered insertion, reading through a cursor, peeking, slicing, trimming, expiry |
| `Reassembly.dfy`, `Sessions.dfy` | the buffer from end to end, and in use: arrivals, preparations, reads and removals in any order |
| `Deferral.dfy`, `FlushRun.dfy`, `Runner.dfy` | log queue, flush cycles, bounded deferral for address resolution, delayed deletion of connections |
| `Protocols.dfy` | protocol and TLS mode of a connection, and the downgrade when its data cannot be analyzed |
| `ProcessMonitor.dfy` | the fork and exec tracepoints and their maps, over every run of forks, execs, exits and user-space writes |
| `Manager.dfy` | the user-space side: monitored processes, cgroup allowlist, address index, reconciliation |
| `Boot.dfy` | module dependency resolution, start and shutdown |
| `Storage.dfy` | comparing detected processes with stored ones |
| `Sender.dfy` | batch splitting and the stream encoding that leaves out repeated headers |
| `Symbols.dfy` | address to symbol name, by binary search and with a cache |
| `Options.dfy`, `Seqs.dfy` | an option type and facts about sequences |

## How the model stands for the code

- Objects whose methods update their fields are classes with those fields (`Buffer`, `Queue`, `LogRunner`,
  `ConnectionManager`, `ModuleStarter`, `ProcessStorage`, `GRPCSender`, `Info`, the BPF maps as `Probe`). Each method is tied
  to a function of the old state, and the theorems are about those functions.
- A list element of the buffer is a pair of an id and an event. The id stands for the address of the element, so two
  elements with equal events stay different and a position keeps its place when the list changes around it.
- A cursor (`Events.Cursor`) is the value behind a position: event, index, and the events behind it. `Readable` is
  every byte up to the first gap the reader notices, `Stop` why reading ends there, `Unread` every byte to the end.
- The clock, the process filter, the resolver, stream failures and failing kernel writes are inputs. Times are nanoseconds.
- Map entries of the process monitor carry the generation of the task they were written for. No step looks at
  it; it is there so that an entry of an earlier owner of a pid can be told apart.
- Go map iteration has no fixed order; the model takes any order.

## Where the code does less than one would expect

Each of these is proved, with the exact condition where there is one.

- The copy of a chunk is masked to 11 bits after its length was recorded, so a chunk carries its bytes if and
  only if it is shorter than 2048 (`Chunks.CopyExactIff`). Claims about longer chunks are about ranges and lengths.
- Losses. The reader reaches the end of file if and only if no chunk lost between two neighbouring arrivals belongs to
  the write of either; what it read is then whole writes if and only if the first arrival begins its write and the last one
  ends its write (`Chunks.LossNoticedIff`). So a write that is lost as a whole (`Chunks.LostWriteUnnoticed`), and chunks lost
  before the first or behind the last arrival (`Chunks.LostEndUnnoticed`), go unnoticed.
- Arrival order does not matter as long as nothing is read. Later, an appended event is in front of the reader after the
  next preparation if and only if that starts over at the front, or the head is in the list and the event does not belong
  before it (`Reassembly.AppendThenPrepare`). A chunk that arrives when a later chunk of its write is the head is not read
  until the positions are reset (`Reassembly.LateChunkMissed`).
- `ReadUntilBufferFull` copies every piece to the start of the destination: right whatever the destination held if and only
  if the first piece is long enough to fill it (`Events.FillsExactlyIff`, `Buffers.Buffer.ReadUntilBufferFull`).
- `SkipCurrentElement` keeps the index of the head: no byte of the next event is missed if and only if that index is zero
  or the event is empty (`Buffers.Buffer.SkipCurrentElement`, `Reassembly.SkipMissesBytes`).
- A connection can be deleted while a log is held for it. A hold at time t is safe in every run if and only if the
  connection is made in that cycle, or has a deadline a flush period before its deletion time, or has no deadline and no
  deletion time, or a deletion time at least the grace and a period after t, each less one tick (`FlushRun.HoldIsSafeIff`).
  A run from an empty manager shows the loss (`FlushRun.PendingAgainLosesConnection`); a run in which no deadline is set after
  a deletion time has none (`FlushRun.EveryHeldLogIsOffered`).
- A break recorded while the connection is being built is lost (`Protocols.BreakKeptIff`, `Protocols.BreakDuringBuildLost`).
- A rejection that arrives after its pid was handed to another task silences that task
  (`ProcessMonitor.LateRejectSilencesOther`).
- Reconciliation leaves the cgroup counts alone, so they stay exact if and only if no pid changes its cgroups
  (`Manager.ConnectionManager.RecheckAllProcesses`): a process it is the first to see is not counted
  (`Manager.RecheckMissesNewProcess`), one that it drops leaves its cgroup allowed (`Manager.RecheckStrandsCgroup`).
- The symbol search compares by a signed 64-bit difference: every address between the first and the last location
  is found if and only if the middle location is within 2^63 of both (`Symbols.FindsAllIff`). It never returns the last symbol.
- The error of a send is overwritten by the next one of the same connection: every loss is reported, for every batch, if
  and only if the stream stays failed once it fails (`Sender.LossReportedIff`, `Sender.ErrorOverwritten`). A part of a batch that
  ends in an error is lost, and the parts behind it wait for the next batch (`Sender.GRPCSender.HandleLogs`).

## Model

| member | source | states |
|---|---|---|
| `Chunks.UploadSocketDataBuf` | bpf/include/socket_data.h:145-170 | the six unrolled rounds emit exactly the chunk sequence of the write, nothing for rounds with no bytes left |
| `Chunks.ChunksPartition` | bpf/include/socket_data.h:145-170 | all with the data id and start time of the write, sequences 0, 1, 2 and so on, 1 to 20480 bytes each, finished exactly on the last, lengths summing to min(n, 122880), ranges joining to that prefix of the write |
| `Chunks.CopyExactIff` | bpf/include/socket_data.h:136-142 | the copied buffer is the range, whatever the reserved memory held, if and only if the range is under 2048 bytes |
| `Chunks.SentStrictlySorted` | bpf/include/socket_data.h:126-138 | the chunks of writes with increasing data ids have strictly increasing (data id, sequence) keys |
| `Chunks.ReadBack` | pkg/tools/buffer/buffer.go:777-815 | every arrival order of the chunks of any writes gives a list that reads, from the front, as the event buffers in the order sent and then EOF |
| `Chunks.ReadBackExactlyIff` | bpf/include/socket_data.h:136-142 | the bytes read back are the bytes written, whatever the reserved memory held, if and only if every write is under 2048 bytes |
| `Chunks.GapDetection` | pkg/tools/buffer/buffer.go:526-563 | between two arrived chunks the reader goes on if and only if no lost chunk between them belongs to a write of either |
| `Chunks.ReadBackWithLosses` | pkg/tools/buffer/buffer.go:526-563 | for any surviving subset in any arrival order, the reader gets exactly the bytes up to the first gap that is not seamless and then `NotComplete`, or all arrived bytes and EOF if there is none |
| `Chunks.LossNoticedIff` | pkg/tools/buffer/buffer.go:526-563 | EOF if and only if all neighbouring arrivals are seamless; each write of which something arrived is whole if and only if besides the first arrival starts and the last one finishes its write |
| `Chunks.LostEndUnnoticed` | pkg/tools/buffer/buffer.go:526-563 | a write of two chunks with either one lost reads as the other one and then EOF |
| `Chunks.LostWriteUnnoticed` | pkg/tools/buffer/buffer.go:526-563 | of three one-chunk writes with the middle one lost, the reader joins the outer two and reports EOF |
| `Chunks.NotSentIffOverLimit` | bpf/include/socket_data.h:150-166 | a finished chunk with more bytes after it is sent if and only if some write exceeded six chunks |
| `Events.Cursor.TakeAdvances` | pkg/tools/buffer/buffer.go:526-563 | one read hands out a prefix of the readable run, leaves exactly the rest of it, and does not change why it ends |
| `Events.Cursor.ValidatedReadsAll` | pkg/tools/buffer/buffer.go:526-563 | on a validated buffer everything unread is readable and reading ends in EOF |
| `Events.Cursor.ReadableIsPrefix` | pkg/tools/buffer/buffer.go:526-563 | reading never skips: the readable run is a prefix of what is in the list |
| `Events.Cursor.EofReadsAll` | pkg/tools/buffer/buffer.go:526-563 | EOF means nothing unread is left behind |
| `Events.Cursor.PiecesCover` | pkg/tools/buffer/buffer.go:526-594 | the pieces in which n bytes are handed out join to the next n readable bytes |
| `Events.PartsFollowIff` | pkg/tools/buffer/buffer.go:546-556 | of two parts of one event a reader goes from the first to the second exactly if that does not begin before it, or the event is a whole write |
| `Events.PartsReadAsWhole` | pkg/tools/buffer/buffer.go:416-462 | an event cut in two parts reads as the event |
| `Events.FillsExactlyIff` | pkg/tools/buffer/buffer.go:582-594 | filling n bytes leaves the next n bytes there, for every destination, if and only if the first piece has that many |
| `Ordering.InsertAllKeepsOrder` | pkg/tools/buffer/buffer.go:777-815 | any arrivals into a sorted list give a sorted list with nothing lost or duplicated |
| `Ordering.InsertAllIsStable` | pkg/tools/buffer/buffer.go:777-815 | events with one key stay in arrival order |
| `Ordering.ArrivalOrderIrrelevant` | pkg/tools/buffer/buffer.go:777-815 | every arrival permutation of distinct keys builds the same list |
| `Ordering.MergeIsLaterArrival` | pkg/tools/buffer/buffer.go:596-610 | merging a built buffer equals having received its arrivals afterwards, ties included |
| `Ordering.MergeCommutes` | pkg/tools/buffer/buffer.go:596-610 | with distinct keys both merge directions give the same list |
| `Ordering.BuildOfSorted` | pkg/tools/buffer/buffer.go:777-815 | a strictly sorted list is what any permutation of it builds |
| `Details.InsertDetailKeepsOrder` | pkg/tools/buffer/buffer.go:740-774 | a detail is added in data id order, nothing else changes |
| `Details.DeleteCovered` | pkg/tools/buffer/buffer.go:176-193 | over a sorted list the deletion that stops early keeps exactly the details outside the range, and those at an unfinished upper end, in order |
| `Details.DeleteRead` | pkg/tools/buffer/buffer.go:663-691 | the detail deletion of one removal is the filter of the read data ids, or nothing for one data id that is not read to the end |
| `Lists.CursorAfterInsert` | pkg/tools/buffer/buffer.go:777-815 | an insertion changes what a position still has to read exactly by the event, if that belongs behind it, and not otherwise |
| `Lists.CutKeepsUnread` | pkg/tools/buffer/buffer.go:693-716 | removing the elements from the head to the cursor leaves the bytes unread at the cursor as they were |
| `Lists.SliceBytes` | pkg/tools/buffer/buffer.go:272-293 | what is unread at the start is the bytes of the slice followed by what is unread at the end |
| `Lists.SliceToOffset` | pkg/tools/buffer/buffer.go:272-293 | a validated slice from a position to the one k bytes ahead reads exactly the next k bytes |
| `Buffers.Buffer.Read` | pkg/tools/buffer/buffer.go:526-563 | fails exactly when nothing more is readable, with the reason; otherwise copies the next piece to its place in the destination and moves along the readable run |
| `Buffers.Buffer.ReadFromCurrent` | pkg/tools/buffer/buffer.go:565-580 | copies what fits of the event under the cursor and moves the index by that much |
| `Buffers.Buffer.Read0` | pkg/tools/buffer/buffer.go:612-622 | copies the front of the next event and moves onto it |
| `Buffers.Buffer.Peek` | pkg/tools/buffer/buffer.go:464-480 | succeeds exactly when that many bytes are readable, gives exactly those bytes, and leaves the position alone |
| `Buffers.Buffer.ReadUntilBufferFull` | pkg/tools/buffer/buffer.go:582-594 | succeeds exactly when enough is readable and moves by exactly that many bytes; the destination holds the next bytes if the first piece is long enough, and keeps its last byte otherwise |
| `Buffers.Buffer.OffsetPosition` | pkg/tools/buffer/buffer.go:482-524 | none exactly when the offset is at least the bytes left, otherwise the position on a byte with exactly that many bytes before it |
| `Buffers.Buffer.Slice` | pkg/tools/buffer/buffer.go:272-293 | a new buffer that reads as the bytes between the two positions |
| `Buffers.CombineSlices` | pkg/tools/buffer/buffer.go:416-462 | reads as the concatenation of its parts, ends where the last part ends; none for none, the part itself for one |
| `Buffers.Buffer.PrepareForReading` | pkg/tools/buffer/buffer.go:634-656 | ready exactly when there is data; starts at the front after a reset or without a head, at the head otherwise |
| `Buffers.Buffer.SkipCurrentElement` | pkg/tools/buffer/buffer.go:719-724 | moves the head behind the current event, index unchanged; no byte of the next event is missed if and only if that index is zero or the event is empty |
| `Buffers.Buffer.RemoveReadElements` | pkg/tools/buffer/buffer.go:659-716 | with the cursor at or after the head: exactly the elements from the head to the cursor go, and the bytes unread from the new head are those unread at the old cursor |
| `Buffers.Buffer.RemoveUntil` | pkg/tools/buffer/buffer.go:693-716 | removes exactly the elements from one to before another that comes after it |
| `Buffers.Buffer.RemoveElement` | pkg/tools/buffer/buffer.go:726-738 | takes one element out and gives its successor |
| `Buffers.Buffer.AppendDataEvent` | pkg/tools/buffer/buffer.go:777-815 | inserts in order, keeps every other element, keeps cursor and head in place with the event joined to what they have to read exactly if it belongs behind them, asks for a reset exactly for a first event or one with a data id below the one being read |
| `Buffers.Buffer.AppendDetailEvent` | pkg/tools/buffer/buffer.go:740-774 | inserts the detail in order |
| `Buffers.Buffer.Merge` | pkg/tools/buffer/buffer.go:596-610 | the list after all events and details of the other buffer have been inserted |
| `Buffers.Buffer.DetectNotSendingLastPosition` | pkg/tools/buffer/buffer.go:401-414 | none exactly when no chunk marks an early stop, otherwise the end of the first that does |
| `Buffers.Buffer.DeleteExpireEvents` | pkg/tools/buffer/buffer.go:817-875 | drops exactly the expired front of both lists, a detail by its data id or by a time that is set, counts it, and leaves no detail at or below a positive latest expired data id |
| `Buffers.DeleteDetails` | pkg/tools/buffer/buffer.go:176-193 | a buffer and every buffer it was cut from keep exactly the details outside the range, in order |
| `Deferral.GraceFits` | pkg/accesslog/common/connection.go:327-336 | up to five seconds the grace is the flush period and 15 seconds, above it is what leaves one flush period before the deletion delay, and there is one exactly when a flush period fits into that delay |
| `Reassembly.Receive` | pkg/tools/buffer/buffer.go:777-815 | a new buffer that is given these events holds the list they build |
| `Reassembly.ReadAll` | pkg/tools/buffer/buffer.go:526-563 | reading until an error gives exactly the readable run and the reason it ends |
| `Reassembly.Reassemble` | pkg/tools/buffer/buffer.go:401-414 | all chunks of any writes in any order, appended and read to the end, give all that was sent and EOF; an early stop of the kernel is detected if and only if some write was over six chunks |
| `Reassembly.AppendThenPrepare` | pkg/tools/buffer/buffer.go:634-656 | an appended event is in front of the reader after the next preparation if and only if a reset was asked for or is asked for by its data id, or there was no head, or the head is in the list and the event does not belong before it |
| `Reassembly.LateChunkMissed` | pkg/tools/buffer/buffer.go:629-656 | a chunk that arrives when a later chunk of its write is the head is in the list and not read, also after another preparation, until the positions are reset |
| `Reassembly.SkipMissesBytes` | pkg/tools/buffer/buffer.go:659-724 | after a partial read, a removal and a skip, as many bytes of the next event are missed as were read of the first |
| `Sessions.Session.Conserved` | pkg/tools/buffer/buffer.go:526-815 | over every order of preparations, reads, removals, and arrivals that belong neither before the head nor before what was removed: the bytes taken out followed by those from the head on are the bytes of all arrivals in order |
| `Sessions.Session.Append` | pkg/tools/buffer/buffer.go:777-815 | an arrival takes nothing out |
| `Sessions.Session.Prepare` | pkg/tools/buffer/buffer.go:634-656 | a preparation takes nothing out; one that resets goes back to the beginning of the first event |
| `Sessions.Session.Read` | pkg/tools/buffer/buffer.go:526-563 | a read takes nothing out and hands on the readable run |
| `Sessions.Session.Remove` | pkg/tools/buffer/buffer.go:659-716 | a removal leaves exactly what was unread at the reader |
| `FlushRun.JudgeSound` | pkg/accesslog/common/connection.go:345-369 | one look keeps deletion times, keeps a deadline once there is one, sets none further ahead than the grace, and holds only before it |
| `FlushRun.NotDeletedInTime` | pkg/accesslog/common/connection.go:1158-1193 | a connection whose deadline plus a period is not after its deletion time is not deleted at the end of a cycle that held a log for it, and stays that way |
| `FlushRun.CycleSound` | pkg/accesslog/common/connection.go:1158-1193 | one cycle leaves no deadline further ahead than the grace |
| `FlushRun.HeldInTimeStays` | pkg/accesslog/runner.go:120-151 | a cycle that holds a log for a connection in time does not delete the connection |
| `FlushRun.JudgedAgain` | pkg/accesslog/runner.go:242-265 | a requeued log finds its connection again and is settled, or held again before the deadline |
| `FlushRun.HeldLogIsOffered` | pkg/accesslog/common/connection.go:319-369 | in every run, a log held in time is offered (or dropped for a reason other than its connection) while its connection is still there, at the latest in the first cycle that starts at or after its deadline |
| `FlushRun.HoldIsSafeIff` | pkg/accesslog/common/connection.go:345-369 | for every connection, made in the cycle or before, with a deadline or without: no run that begins with a hold at t deletes it in a cycle that holds a log for it if and only if its deadline is in time, or without one its deletion time is far enough or not set |
| `FlushRun.EveryHeldLogIsOffered` | pkg/accesslog/common/connection.go:319-369 | in every run from an empty manager that sets no deadline after a deletion time, every held log is offered (or dropped for a reason other than its connection) at the latest in the first cycle at or after its deadline |
| `FlushRun.LateHoldLoses` | pkg/accesslog/common/connection.go:345-369 | where a hold is possible and not safe, from any state, a run with cycles at most one period apart deletes the connection while the log is held |
| `FlushRun.PendingAgainLosesConnection` | pkg/accesslog/common/connection.go:345-369 | a run from an empty manager with the default period, in which a connection that is pending one second after it closed is deleted while its log is held |
| `FlushRun.ThereIff` | pkg/accesslog/common/connection.go:613-642 | in a drain a connection is there if and only if it was before or an earlier reported connect event with addresses made it |
| `FlushRun.VerdictIs` | pkg/accesslog/runner.go:242-265 | what a log becomes: dropped without event or report; waiting up to ten seconds and dropped after them when its connection is missing; else held, offered, or dropped exactly if it cannot be rendered |
| `FlushRun.MissingLogQueuedIff` | pkg/accesslog/runner.go:249-256 | a reported log whose connection is missing is in the queue after the cycle if and only if it is looked at at most ten seconds after its time |
| `FlushRun.WaitingLog` | pkg/accesslog/runner.go:127-151 | over runs: such a log stays queued as long as it is not too old, is out of the queue after the first look that finds it too old, and once its connection is made is never dropped for want of it |
| `FlushRun.ClosedIff` | pkg/accesslog/common/connection.go:845-847 | after a drain a connection is closed if and only if it was before or a reported close event of it was looked at |
| `FlushRun.ClosedGetsTime` | pkg/accesslog/common/connection.go:1168-1180 | a connection closed in a cycle, also one made in it, has a deletion time after it: the one it had, or 25 seconds after the end |
| `FlushRun.ClosedIsDeleted` | pkg/accesslog/common/connection.go:1182-1193 | over runs: a closed connection stays until the first cycle that ends after its deletion time and is gone after it |
| `FlushRun.OpenConnectionStays` | pkg/accesslog/common/connection.go:1168-1180 | over runs: a connection that no event closes and that is not found gone stays and gets no deletion time |
| `Runner.Channel.TrySend` | pkg/accesslog/common/queue.go:74-92 | appends exactly when the channel is not full |
| `Runner.Channel.TryReceive` | pkg/accesslog/runner.go:127-140 | takes the oldest log, or tells that there is none |
| `Runner.Queue.AppendKernelLog` | pkg/accesslog/common/queue.go:74-98 | queues, or counts one drop when full; asks for a flush exactly when enough is queued |
| `Runner.LogRunner.ShouldDeferForResolution` | pkg/accesslog/common/connection.go:345-369 | the deadline is set once, at the first pending look, and logs are held only before it |
| `Runner.LogRunner.BuildLog` | pkg/accesslog/runner.go:242-265 | finds or makes the connection and gives the verdict on one log that the run theorems are about |
| `Runner.LogRunner.BuildLogs` | pkg/accesslog/runner.go:127-151 | the drain judges every log once and in order, batches the offered, puts back the held and waiting in order, none lost to a full channel; batched, requeued and dropped logs together are exactly the queued ones |
| `Runner.LogRunner.Requeue` | pkg/accesslog/runner.go:141-151 | puts logs back in order, as far as they fit |
| `Runner.LogRunner.BuildConnectionLogs` | pkg/accesslog/runner.go:120-125 | one flush cycle is the cycle of the run theorem |
| `Runner.LogRunner.OnBuildConnectionLogFinished` | pkg/accesslog/common/connection.go:1158-1193 | exactly the connections that should go and whose deletion time has passed go |
| `Protocols.RunConsistent` | pkg/accesslog/common/connection.go:613-642 | in every run a connection is not built twice, and one that a break saw is there |
| `Protocols.Lasting` | pkg/accesslog/common/connection.go:841-876 | in every run TLS never goes back to plain and a break never goes away |
| `Protocols.TlsIff` | pkg/accesslog/common/connection.go:849-853 | in every run a connection is TLS if and only if some detail of it had ssl |
| `Protocols.ProtocolIsFirstDetected` | pkg/accesslog/common/connection.go:854-862 | in every run an unbroken connection has the protocol of the first detail that detected HTTP/1 or HTTP/2, and TCP if none did |
| `Protocols.ProtocolHistory` | pkg/accesslog/common/connection.go:841-876 | in every run the protocol history is TCP, then at most one other protocol, then TCP for good |
| `Protocols.BrokenFromNextDetail` | pkg/accesslog/common/connection.go:848-866 | from the first detail after a break on, the connection is broken and at TCP |
| `Protocols.BreakKeptIff` | pkg/accesslog/common/connection.go:1195-1205 | recording a break keeps it if and only if the connection was seen, or is neither built nor being built by then |
| `Protocols.KeptIsApplied` | pkg/accesslog/common/connection.go:924-939 | a kept break that does not expire before the connection is built is on the connection from its start |
| `Protocols.BreakKeptOneMinute` | pkg/accesslog/common/connection.go:1202-1205 | a break recorded before its connection can be read for exactly one minute |
| `Protocols.LostStaysLost` | pkg/accesslog/common/connection.go:924-939 | a break that was not kept has no effect until another one is recorded |
| `Protocols.BreakDuringBuildLost` | pkg/accesslog/common/connection.go:924-939 | a run in which a break falls into the building of the connection, which then goes on as HTTP |
| `Protocols.Tables.BuildConnection` | pkg/accesslog/common/connection.go:908-940 | a plain TCP connection, broken exactly if an unexpired break of its key was pending, which is taken; no other key changes |
| `Protocols.Tables.ConnectionPostHandle` | pkg/accesslog/common/connection.go:848-866 | the detail step of the run, for its key only |
| `Protocols.Tables.SkipAllDataAnalyzeAndDowngradeProtocol` | pkg/accesslog/common/connection.go:1195-1205 | the break steps of the run, for its key only; by itself a break is always kept |
| `ProcessMonitor.Probe.ReportRunningProcess` | bpf/accesslog/process/process.c:56-96 | filters by cgroup or rejection, and otherwise marks and reports a process that is not marked yet |
| `ProcessMonitor.Probe.TracepointExec` | bpf/accesslog/process/process.c:104-108 | an exec reports the process |
| `ProcessMonitor.Probe.TracepointFork` | bpf/accesslog/process/process.c:110-136 | a fork first clears both entries of the child's pid, then reports the forking process |
| `ProcessMonitor.LookedAtIff` | bpf/accesslog/process/process.c:56-96 | a fork or exec by a task whose cgroup is allowed, or in fallback mode whose process is not rejected, leaves its process marked, with exactly one more report carrying that cgroup if it was unmarked; otherwise nothing is reported or marked |
| `ProcessMonitor.ReportedIff` | bpf/accesslog/process/process.c:56-136 | over every run exactly these reports are in the queue: of processes let through when they forked or exec'd unmarked |
| `ProcessMonitor.ConsistentNext` | bpf/accesslog/process/process.c:112-121 | every step keeps a live leader for each task and one task per generation |
| `ProcessMonitor.NoStaleNext` | bpf/accesslog/process/process.c:112-126 | no step leaves a live task with an entry of an earlier owner of its pid |
| `ProcessMonitor.NeverStaleIff` | pkg/accesslog/common/connection.go:584-591 | a run never has an entry of an earlier owner on a live task if and only if every user-space write in it is about the task that has the pid, or about a free pid |
| `ProcessMonitor.BudgetNext` | bpf/accesslog/process/process.c:78-95 | every step keeps: a generation has at most one report more than it lost its mark |
| `ProcessMonitor.EveryRun` | bpf/accesslog/process/process.c:56-136 | over every run from boot with such writes: no stale entry on a live task, and reports of a process bounded by one plus the removals of its mark |
| `ProcessMonitor.RejectedStaysSilent` | bpf/accesslog/process/process.c:70-76 | in fallback mode a rejected process is never reported again while it lives |
| `ProcessMonitor.LateRejectSilencesOther` | pkg/accesslog/common/connection.go:483-509 | a run from boot in which the rejection of the first owner of a pid keeps the second one from being reported, and the same run without it, in which that one is reported |
| `Manager.ConnectionManager.AllowCgroupsOfProcesses` | pkg/accesslog/common/connection.go:517-538 | counts the pid in each of its cgroups, except new ones whose kernel write fails; kernel allowlist and counts keep the same keys |
| `Manager.ConnectionManager.DisallowCgroupsOfProcesses` | pkg/accesslog/common/connection.go:540-558 | stops counting the pid, and disallows exactly the cgroups that count nobody any more |
| `Manager.ConnectionManager.AddNewProcess` | pkg/accesslog/common/connection.go:989-1026 | keeps allowlist, index and counts right, the counts complete unless a kernel write fails, and a counted pid that is not monitored counted; removes a pid of which no process is included, ignores a known one, otherwise stores exactly the included processes in order and tells listeners |
| `Manager.ConnectionManager.RemoveProcess` | pkg/accesslog/common/connection.go:1080-1095 | keeps allowlist, index and counts right, and a counted pid that is not monitored counted; the pid is gone from both sides and listeners are told |
| `Manager.ConnectionManager.OnNewProcessExecuting` | pkg/accesslog/common/connection.go:483-509 | a process that is not accepted loses its mark and is rejected in the kernel exactly if it could still be looked at |
| `Manager.ConnectionManager.RecheckAllProcesses` | pkg/accesslog/common/connection.go:1097-1139 | afterwards a pid is monitored if and only if some detected process of it is included, with exactly the included ones in order; the kernel monitor map has exactly these pids, allowlist and index are as adding and removing need them, listeners heard of exactly the two differences, each pid once, and exact counts are still exact if and only if no pid changed the cgroups it is monitored in |
| `Manager.ConnectionManager.RebuildLocalIPWithPID` | pkg/accesslog/common/connection.go:1028-1038 | the index has exactly the hosts of monitored processes, each with a monitored pid exposing it |
| `Manager.AddedBacked` | pkg/accesslog/common/connection.go:517-538 | adding keeps: no empty count, only monitored pids counted, and with no failing write every monitored pid counted |
| `Manager.CgroupIdsAre` | pkg/accesslog/common/connection.go:563-580 | the cgroups of a pid are exactly those the resolver has for the containers of its processes |
| `Manager.TakenBacked` | pkg/accesslog/common/connection.go:540-558 | removing keeps the same |
| `Manager.ConnectionManager.AllowedWhileMonitored` | pkg/accesslog/common/connection.go:517-558 | with exact counts the kernel allows a cgroup if and only if some monitored pid is in it |
| `Manager.RecheckMissesNewProcess` | pkg/accesslog/common/connection.go:1097-1107 | a manager whose reconciliation is the first to see a process monitors it and does not count it |
| `Manager.RecheckStrandsCgroup` | pkg/accesslog/common/connection.go:1097-1107 | a manager whose reconciliation drops its only process still allows that process's cgroup |
| `Boot.ModuleStarter.constructor` | pkg/boot/module.go:44-63 | the declared modules by name and exactly the active ones |
| `Boot.ModuleStarter.AppendToResolve` | pkg/boot/module.go:150-170 | terminates; puts a module behind all it requires, or exhibits a cycle through the modules being resolved, or an undeclared name |
| `Boot.ModuleStarter.ResolveDependency` | pkg/boot/module.go:126-148 | with all names declared it fails exactly when an active module reaches a cycle; on success a module is in the order if and only if an active one reaches it, each once, requirements first |
| `Boot.ModuleStarter.StartModules` | pkg/boot/module.go:81-94 | starts a prefix of the order, all of it unless a module fails |
| `Boot.ModuleStarter.ShutdownModules` | pkg/boot/module.go:172-182 | stops the started modules in reverse order |
| `Boot.ModuleStarter.Run` | pkg/boot/module.go:65-95 | on every way out each started module started after and stops before everything it requires, and exactly the started ones are stopped |
| `Boot.StartsAfterStopsBefore` | pkg/boot/module.go:81-94 | any started prefix of a topological order keeps requirements first, its reverse keeps them last |
| `Boot.OrderHasNoCycle` | pkg/boot/module.go:126-170 | a module in a topological order reaches no cycle |
| `Storage.MatchesIsPartialEquivalence` | pkg/process/api/process.go:114-120 | being the same process is symmetric and transitive, and a process that is the same as any is the same as itself |
| `Storage.MatchesIff` | pkg/process/api/process.go:114-120 | two processes are the same exactly with equal pid, layer, service, instance and process name |
| `Storage.ProcessStorage.SyncAllProcessInFinder` | pkg/process/finders/storage.go:269-318 | stores one context per detected process in order, reusing matching ones, and queues one event per pid for exactly the added and the deleted contexts; with distinct detected processes none is stored twice |
| `Storage.ProcessStorage.AddNewProcessInFinder` | pkg/process/finders/storage.go:241-267 | appends, in order, one new context for each detected process that has none yet, counting those just appended, announces exactly these, and keeps every process stored once |
| `Storage.NewcomersCover` | pkg/process/finders/storage.go:241-267 | after an add every detected process with an entity has a context |
| `Storage.NewcomersAre` | pkg/process/finders/storage.go:241-267 | the added contexts are, in order, of exactly the detected processes that match neither a stored context nor one added before |
| `Storage.NewcomersValid` | pkg/process/finders/storage.go:241-267 | an add keeps contexts different and every process stored at most once, even for a list that names one twice |
| `Storage.ProcessStorage.Send` | pkg/process/finders/storage.go:434-448 | queues one event per pid with its contexts |
| `Storage.EventsGiveNewSet` | pkg/process/finders/storage.go:269-318 | applying the delete and add events to the old set gives the new set |
| `Storage.ExactlyTheDifference` | pkg/process/finders/storage.go:269-318 | announced as added is exactly what is new in the list, as deleted exactly what is no longer in it |
| `Storage.SyncedEach` | pkg/process/finders/storage.go:269-318 | each detected process has at its place a stored context that matches it if there is one, and a new one of its own otherwise |
| `Storage.SyncUnique` | pkg/process/finders/storage.go:269-318 | the new list has no process twice if and only if the detected one had none, and every process detected again keeps its context |
| `Storage.SyncedValid` | pkg/process/finders/storage.go:269-318 | a sync of distinct processes keeps contexts distinct |
| `Sender.RoundTrip` | pkg/accesslog/sender/sender.go:125-194 | a receiver that remembers the last connection recovers from the stream exactly the connections with logs, each with its kernel and protocol logs, in order |
| `Sender.NodeOnFirstOnly` | pkg/accesslog/sender/sender.go:134-194 | node information is on the first message and on no other |
| `Sender.SendLogs` | pkg/accesslog/sender/sender.go:125-167 | on a stream with any failures, the messages of the encoding are tried in order up to the first connection whose last message fails, what gets through arrives, and an error is reported exactly when there is such a connection |
| `Sender.SendConnection` | pkg/accesslog/sender/sender.go:137-161 | the messages of one connection, its information on the first of them only; the error is that of the last send |
| `Sender.ErrorIffLost` | pkg/accesslog/sender/sender.go:144-161 | on a stream that stays failed, no error is reported for a batch if and only if every message of it got through |
| `Sender.LossReportedIff` | pkg/accesslog/sender/sender.go:144-161 | every loss is reported, for every batch, if and only if the stream stays failed once it fails |
| `Sender.ErrorOverwritten` | pkg/accesslog/sender/sender.go:144-161 | on a stream that recovers, a connection of which the receiver has nothing is reported as sent |
| `Sender.SplitBatchLogs` | pkg/accesslog/sender/logs.go:65-90 | ceil(n/max) disjoint parts, all full but perhaps the last, holding each connection once with its logs |
| `Sender.GRPCSender.AddBatch` | pkg/accesslog/sender/sender.go:90-106 | the parts of the batch, at most 10000 connections each, go behind the waiting ones |
| `Sender.GRPCSender.PopLogs` | pkg/accesslog/sender/sender.go:226-236 | takes the oldest part, or tells that there is none |
| `Sender.GRPCSender.HandleLogs` | pkg/accesslog/sender/sender.go:108-123 | parts go out in queue order, each sent without an error; it stops early only at a part whose stream cannot be opened or fails at the end of a connection, exactly that part is lost and the rest stays queued |
| `Sender.SentIsCarried` | pkg/accesslog/sender/sender.go:125-167 | a part sent without an error, on a stream that stays failed once it fails, is decoded to exactly its connections with logs |
| `Sender.CarriedConnection` | pkg/accesslog/sender/sender.go:125-167 | every connection with logs in a part that was carried is among what the receiver decodes |
| `Symbols.DifferenceSign` | pkg/tools/profiling/api.go:193-201 | the sign of the wrapped difference is the order of two addresses exactly within 2^63 |
| `Symbols.FindAddr` | pkg/tools/profiling/api.go:188-210 | the loop computes the recursive search |
| `Symbols.SearchSound` | pkg/tools/profiling/api.go:188-210 | over any sorted table, a returned symbol has the greatest location at or below the address |
| `Symbols.FindsAllIff` | pkg/tools/profiling/api.go:188-210 | every address in [first, last) is found if and only if the middle location is within 2^63 of both ends |
| `Symbols.OutOfRange` | pkg/tools/profiling/api.go:204-209 | elsewhere nothing is found, but for the common location of the last two symbols |
| `Symbols.NotLast` | pkg/tools/profiling/api.go:188-210 | the last symbol is never returned |
| `Symbols.SearchIsScan` | pkg/tools/profiling/api.go:188-210 | with distinct balanced locations the search answers as the linear scan on [first, last) and with nothing elsewhere |
| `Symbols.HighAddressLost` | pkg/tools/profiling/api.go:193-201 | a concrete sorted table in which an address between two symbols is not found |
| `Symbols.Contains` | pkg/tools/profiling/api.go:172-186 | gives a position exactly for addresses in some range, from the first such range |
| `Symbols.LoadedIsFound` | pkg/tools/profiling/api.go:172-186 | a location of a shared object loaded in any range, of which no earlier one holds the address, is taken back to itself, in arithmetic modulo 2^64 |
| `Symbols.PositionIff` | pkg/tools/profiling/api.go:172-186 | there is a position exactly for an address in some range, and in a module that is not relocated it is the address |
| `Symbols.FoundIsGreatest` | pkg/tools/profiling/api.go:108-131 | what a module finds in a sorted table has the greatest location at or below the position |
| `Symbols.BalancedIsFound` | pkg/tools/profiling/api.go:108-131 | in a sorted, balanced table every position from the first location up to the last is found |
| `Symbols.Info.FindSymbolName` | pkg/tools/profiling/api.go:108-131 | after any lookups before it: the processed name of the symbol found by the first module that finds one, and none if no module does |
| `Symbols.Info.FindSymbols` | pkg/tools/profiling/api.go:89-105 | for exactly the addresses that are not zero, in order, that name, or the default where it is empty |

## Left out

- Buffers.Buffer.OffsetPosition: only offsets of zero or more, from an index inside its event; for a negative one the code takes the length of the wrong element.
- Buffers.Buffer.RemoveReadElements: with the cursor before the head, or a head that is no longer in the list, only the invariant of the list is stated.
- Buffers.Buffer.Slice: only for a start and an end of the same list with the end at or behind the start; the code walks off the list otherwise.
- Buffers.Buffer.AppendDataEvent: for a buffer that only ever received appended events, as the analyzer's buffers do; not for a combined one.
- Manager.ConnectionManager.DisallowCgroupsOfProcesses: a kernel removal that fails, which leaves a cgroup allowed that nobody counts, is not modelled.
- Boot.ModuleStarter.constructor: two modules with one name are excluded; the code would keep both in its list and the last in its map.
- Boot.ModuleStarter.AppendToResolve: for a name that is not declared and is required only through another module the code dereferences nil; the model ends with `Undeclared`.
- Buffers.CombineSlices: only for parts whose head stands at their front, as in every slice.
- Protocols.Tables.SkipAllDataAnalyzeAndDowngradeProtocol: the kernel entry that stops the upload of the connection's data is not part of the model.
- Protocols.Tables.BuildConnection: the removal of a connection from the table is not part of this model's runs.
- `Buffer.Len`, `DataSize`, `BuildDetails`, `BuildTotalDataIDRange` and the accessors of a buffer: either not meaningful as written or only reads of single fields.
- The iovec upload path and the forced-unfinished upload: the first never advances its count, the second numbers chunks outside the write.
- The HTTP/1 and HTTP/2 analyzers on top of the buffer, conntrack, ztunnel correlation, address building and log rendering.
- Locks and what they protect, except for the building of a connection; appends that arrive during a drain.
- Flush cycles while the backend is disconnected, which keep the queue as it is.
- LRU eviction and full kernel maps, the cache of process verdicts.
- Reporting, keep-alive and registration of processes with the backend.
- `AppendProtocolLog` of the queue and the two appends of a batch: the same as, or simpler than, what is modelled.
- The sort that puts the logger module first: its comparison looks at one argument only, so the active modules come in any order here.
- Demangling of symbol names, which is a parameter, and the reading of ELF files.
- Continuous profiling, profiling tasks, configuration, metrics and pprof.
