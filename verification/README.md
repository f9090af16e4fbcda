# Containment Domains runtime: a model and its proofs

Containment Domains (CDs) are nested, checkpointed regions of an MPI program. The runtime logs what crosses a
CD's boundary, agrees among tasks on where to re-execute after an error, and replays the logs there. This
project models the parts of the runtime where that can go wrong and proves what they promise, for all inputs
and all runs.

| file | part |
|---|---|
| `Bytes.dfy` | little-endian words, slices and overwrites of byte buffers |
| `LogModel.dfy` | the communication log as a value: table of entries, byte queue, modes |
| `PackFormat.dfy` | the record `[SIZE][CDID][Table][Queue][ChildLogQueue]`, nested to any depth; patching inside it |
| `CommLog.dfy` | the class `CommLog` with its growable arrays, proved against the two files above |
| `Replay.dfy` | run-length replay of one log |
| `CdLogs.dfy` | a task's path of CDs: logs, packed children, notes of outstanding requests |
| `CdPaths.dfy` | the loops that complete requests, on the path in place |
| `Wrappers.dfy` | the MPI wrappers, recording and replaying |
| `Playback.dfy` | the replaying wrappers on `CommLog` objects, and logs on their way to the parent and back |
| `Recorder.dfy` | the recording wrappers on a stack of `CommLog` objects |
| `WholeRun.dfy`, `WholeReplay.dfy` | whole runs with nested CDs: what they record, and when the logs answer them |
| `LogRollback.dfy` | what a rollback does to the logs, from an error anywhere to the re-execution of any CD |
| `Recital.dfy`, `Siblings.dfy` | which calls a finished record answers, and child CDs that share an ID |
| `Ledger.dfy`, `Settled.dfy` | the run on paper, and the exact condition on the calls for a replay |
| `OwnRequests.dfy`, `Patterns.dfy`, `OpenLoop.dfy` | a discipline that suffices, the usual loop, interrupted between and inside iterations, and runs that fail |
| `Moved.dfy`, `Twins.dfy` | a log read to its end is as before; recording does not look at cursors and modes |
| `Relive.dfy` | running on after a rollback: replay, flip, and recording behind what was replayed |
| `SecondRollback.dfy`, `Relapses.dfy` | a second rollback to the root, exactly, and programs it fails |
| `Requests.dfy` | conservation of outstanding requests |
| `RollbackCells.dfy` | the rollback points as min-registers over all tasks |
| `Recovery.dfy` | one task: detection, `Complete`, the recovery walk over CDs and logs |
| `Agreement.dfy`, `Rejoin.dfy` | several tasks: agreement in one CD, up a tree of CDs, and until everybody has met |
| `Mailbox.dfy` | pending counter, event bits and handler queue under every interleaving |
| `Naming.dfy` | `SplitCD_1D`, `SplitCD_3D`, names of CDs in the tree |
| `Tags.dfy` | tag width and tag packing |
| `Preserve.dfy` | preserve and restore counts over runs with rollbacks |

`dafny verify dfyconfig.toml` checks everything.

## How the runtime is read

- `ERROR_MESSAGE` ends in `assert(0)` (src/cd_def_debug.h:151), so a branch that reaches it ends the run; it is
  modelled as `None`, `Aborted`, `Stopped` or `ok == false`.
- The configuration is the one in the headers: `BUGFIX_0327`, `USE_LOCAL_MEM_ACCESS` and `MAILBOX_LOCK_ENABLED`
  are 1, `LOCK_PER_MAILBOX` is 0.
- What MPI answers, what each request will have received when it completes, what other tasks bring into a
  reduction and which bytes lie in a reserved queue slot are parameters; theorems hold for all of them.
- A request is its address. `CDID` equality ignores head, domain and object (src/cd_id.cc:114-117).
- The buffer of a CD's packed children is kept as trees in `CdLogs`; `CdLogs.HandoverBytes`,
  `CdLogs.FillKidPatches`, `WholeReplay.PulledFromBytes` and `PackFormat.NestedRoundTrip` connect trees and bytes.
- The scan for the tag width starts at bit 63; the source's first test shifts a 64-bit word by 64
  (src/cd_internal.cc:240), which C++ leaves undefined.

## Where the code does less than it seems to promise

Each of these is a lemma here, not a repair of the code.

- Only the root keeps its log. The recovery walk completes the logs of every CD it visits, the one that will
  re-execute included (src/cd_internal.cc:1620), so any other CD starts over with an empty log, and its acts are
  answered exactly if there is no call among them (`LogRollback.InnerRollbackForgets`, `LogRollback.ChildStartsOver`).
- A rollback to the root replays up to the interruption exactly if each record of the root holds its own data, no
  receive stays inside the CD, and each child is answered from the first record packed under its ID
  (`LogRollback.RootRollback`); on paper, if every request whose record can be found ends with its own data and every
  child would have logged what the first child under its ID logged, as far as it got (`Settled.ReplaysExactly`).
  Requests that MPI completed can fail that: a message sent inside the CD (`Patterns.InnerSendStays`), a child's request
  waited for in its parent (`Patterns.ParentWaits`), a parent's request waited for in a child
  (`WholeReplay.CompleteLeavesAncestors`), the second request at an address. Worse, a finished record can be
  overwritten with another request's data (`Patterns.ReuseOverwrites`).
- Every child gets the sequential ID 0 (src/cd_internal.cc:549-556), so a child that a loop creates and destroys has
  the same ID each time. All of them are answered from the record of the first (`WholeReplay.FoundKid`): with the wrong
  data and without an error (`Patterns.RecreatedChild`). The loop replays exactly if children that share an ID
  received the same (`Patterns.LoopReplays`, and `OpenLoop.LoopInterrupted` for an error inside an iteration). Even then
  the replay does not end at the interruption: the first record may be longer than what the open child had done, and
  its next receive, which had not happened before, is answered from there (`Relapses.OpenNamesake`); so is the next
  iteration (`Relapses.NextIteration`). The next call goes to MPI exactly if the record is not longer
  (`LogRollback.RootRollback`).
- A wrapper that reads a flag, an index or a count does not notice that the completion events behind it are
  missing, so a Test can be answered from the record of a receive (`Siblings.EventNotMissed`).
- The first rollback from inside a child leaves that child's record with the root. When the replay has flipped and
  the child logs again, its second record lies behind the first and is never found (`PackFormat.LastRecordFound`), so a
  second rollback to the root is not answered; otherwise the root is as in a run that never failed
  (`SecondRollback.SecondRollback`). Two blocking receives around the error are enough (`Relapses.OpenChildReceives`).
- One more "not yet" only counts up and does not mark the log as new, so a child that does nothing else after a
  replay does not pack its log again (`Relive.OneMorePoll`).
- `ReInit` does not clear the re-execution counters; a replay abandoned inside a repeated entry shortens the next
  one (`Replay.AbandonedReplay`, `Replay.LeftoverCounterShortensReplay`).
- A recovery walk entered with the collective flag by a CD of one task that has to be left resets the cell and
  then fails (`Recovery.Task.GetCDToRecover` says exactly when).
- The assertions of `SplitCD_3D` let 125 tasks and 64 children through, where tasks collide
  (`Naming.AssertionsAllow5And4`); the split separates tasks exactly if the sides divide
  (`Naming.Split3DExactly`).
- Two equal events before the receiver looks become one, and the pending counter never returns to zero
  (`Mailbox.SentTwice`, `Mailbox.QuietIsZero`).
- For `MPI_TAG_UB` = `INT_MAX` the width scan overflows and yields 63 (`Tags.WidthInRange`).
- A rollback before the first preserve call makes that call an error (`Preserve.ErrorExactly`).

## Model

| member | source | states |
|---|---|---|
| LogModel.TilesExactly | src/cd_comm_log.cc:429-474 | every byte of the used queue belongs to exactly one entry: slices tile it without gap |
| LogModel.TiledDisjoint | src/cd_comm_log.cc:429-474 | slices of different entries do not overlap |
| LogModel.LogDataAppends | src/cd_comm_log.cc:340-426 | seen as records, logging appends one record or bumps only the last record's counter; no logged payload changes |
| LogModel.ProbeAndLogFillsOne | src/cd_comm_log.cc:236-270 | filling a reserved slot late changes that record alone and keeps the log well formed |
| LogModel.AdvanceValid | src/cd_comm_log.cc:700-735 | a read moves the cursor or a re-execution counter and nothing else |
| CommLogs.CommLog.constructor | src/cd_comm_log.cc:129-206 | a new log is empty in the mode given; one made for replay allocates nothing |
| CommLogs.CommLog.Realloc | src/cd_comm_log.cc:208-233 | new buffers, an empty log, the same mode |
| CommLogs.CommLog.FoundRepeatedEntry | src/cd_comm_log.cc:340-355 | a repeated record like the last one bumps that one's counter and nothing else |
| CommLogs.CommLog.IncreaseTable | src/cd_comm_log.cc:477-500 | doubling the table changes no logged entry |
| CommLogs.CommLog.IncreaseQueue | src/cd_comm_log.cc:502-528 | growing the queue changes no logged byte; exactly when it refuses |
| CommLogs.CommLog.WriteTable | src/cd_comm_log.cc:429-455 | one entry is appended, in bounds, and the rest is kept |
| CommLogs.CommLog.WriteQueue | src/cd_comm_log.cc:457-474 | the payload, or a reserved slot of its length, is appended, in bounds |
| CommLogs.CommLog.LogData | src/cd_comm_log.cc:357-426 | the arrays refine the unbounded log: the new value is `LogModel.LogData` of the old one |
| CommLogs.CommLog.ProbeAndLogData | src/cd_comm_log.cc:236-270 | finds the first entry with the flag, if any, and does what `LogModel.ProbeAndLog` does |
| CommLogs.CommLog.ReInit | src/cd_comm_log.cc:168-172 | rewinds and sets replay mode; counters and entries are kept |
| CommLogs.CommLog.Reset | src/cd_comm_log.cc:1017-1028 | empties all three buffers and returns to recording |
| CommLogs.CommLog.ReadData | src/cd_comm_log.cc:678-739 | return code, payload and new state in each case, the flip at the end of the log included |
| CommLogs.CommLog.ProbeData | src/cd_comm_log.cc:742-790 | the same for a probe, which differs for an unfinished entry |
| CommLogs.CommLog.CheckChildLogAlloc | src/cd_comm_log.cc:531-558 | leaves cursor + length below the size and keeps the used prefix |
| CommLogs.CommLog.PackAndPush | src/cd_comm_log.cc:561-579 | the precomputed length is exact: the parent's buffer grows by this log's record and by nothing else |
| CommLogs.CommLog.PackLogs | src/cd_comm_log.cc:604-674 | the cursor advances by exactly the length given, over a record in the pack format |
| CommLogs.CommLog.FindChildLogs | src/cd_comm_log.cc:976-1013 | the walk visits only record boundaries, ends, and finds the first record of the CD, or nothing exactly if there is none |
| CommLogs.CommLog.UnpackLogs | src/cd_comm_log.cc:871-973 | rebuilds table, queue and child buffer from a record; exactly when it reports an error |
| CommLogs.CommLog.ProbeAndLogDataPacked | src/cd_comm_log.cc:273-338 | patches the first packed entry with the flag; the buffer is then the pack of the completed logs |
| PackFormat.DecEncEntry | src/cd_comm_log.cc:636-641 | a table entry survives being copied into a record and back |
| PackFormat.EntryLayout | src/cd_comm_log.h:48-63 | where each field of a table entry lies, in bytes |
| PackFormat.RecordLayout | src/cd_comm_log.cc:604-674 | where each number and each buffer of a record lies, in bytes |
| PackFormat.UnpackPack | src/cd_comm_log.cc:871-973 | unpacking a packed record gives every buffer and size back, and the index ends at SIZE |
| PackFormat.FindFirst | src/cd_comm_log.cc:976-1013 | over a sequence of records the walk stops at the first one of that CD, or finds nothing exactly if there is none |
| PackFormat.OtherCDNotFound | src/cd_id.cc:114-117 | a record is never found for an ID that differs in level, phase, rank, siblings, color, task, tasks or sequence number |
| PackFormat.HeadNotCompared | src/cd_id.cc:114-117 | and always for one that differs in head, domain or object only |
| PackFormat.LabelsKeepApart | src/cd_name_t.cc:94-98 | two children that differ in their label only each find their own record |
| PackFormat.ExtractPacked | src/cd_comm_log.cc:838-851 | a child that pulls its log gets the image of the first record with its ID |
| PackFormat.LastRecordFound | src/cd_comm_log.cc:976-1013 | a record packed behind others is found again exactly if it is the first of its CD, or the first one says the same; otherwise the first one is found |
| PackFormat.DescendFollows | src/cd_comm_log.cc:561-674 | at any depth and for any IDs, packing bottom-up and unpacking top-down rebuilds the log of the first child under each ID, or finds none exactly if there is none; the length check never fires |
| PackFormat.NestedRoundTrip | src/cd_comm_log.cc:561-674 | so each log comes back exactly if the one followed to says the same, and always if on its path it is the first of its ID or the first says the same |
| PackFormat.PatchOneRecord | src/cd_comm_log.cc:296-322 | on one record, storing payload and completed byte is completing the log and packing it again |
| PackFormat.PatchCommutesWithPacking | src/cd_comm_log.cc:273-338 | patching a child buffer gives the bytes that completing in the child and then packing gives; all other bytes stay |
| CdLogs.FillKidPatches | src/cd_comm_log.cc:273-338 | on a tree of logs, completing in a packed child is that patch of its bytes |
| Replay.ReadStep | src/cd_comm_log.cc:700-735 | one read takes one item off what is still to come |
| Replay.RunLengthReplay | src/cd_comm_log.cc:678-735 | exactly the sum of the counters reads succeed before the flip, and all counters are zero there, if and only if they were zero at the rewind |
| Replay.AbandonedReplay | src/cd_comm_log.cc:168-172 | a replay abandoned anywhere and started over answers as many reads as recorded exactly if it was not abandoned inside a repeated entry |
| Replay.LeftoverCounterShortensReplay | src/cd_comm_log.cc:168-172 | a log as Test records it, abandoned after two reads of three, answers two the next time |
| Replay.LogDataExtendsReplay | src/cd_comm_log.cc:340-426 | what is logged after a flip makes the next replay the old sequence followed by the new record |
| CdLogs.Holder | src/cd_internal.cc:4237-4281 | the note is found in the nearest CD that has it, or in none exactly if none has it |
| CdLogs.LogTopAdds | src/cd_comm_log.cc:357-426 | a finished record adds one entry, field by field, and its bytes, and changes nothing else |
| CdLogs.LogAgainAdds | src/cd_comm_log.cc:340-375 | with the repeated flag it adds one to the last counter exactly if length, completion, flag and the repeated mark agree |
| CdLogs.PostAdds | src/cd_comm_log.cc:397-421 | a request adds an open entry, room in the queue and one note |
| CdLogs.CompleteMeans | src/cd_internal.cc:4237-4347 | a completion: the event of the note's task, and the data in the first entry at the address in the own log, nowhere for a message inside the CD |
| CdLogs.CompleteAbove | src/cd_internal.cc:4298-4316 | the packed children above are searched exactly if the own log has no such entry |
| CdLogs.FillAboveMeans | src/cd_internal.cc:4300-4316 | the search goes up over relaxed CDs only and changes the first packed child it finds |
| CdLogs.FillKidMeans | src/cd_comm_log.cc:273-338 | in that child the first entry with the flag is finished and nothing else changes |
| CdLogs.HandoverMeans | src/cd_internal.cc:1985-2042 | what the parent of a finished CD has afterwards, field by field |
| CdLogs.CompleteDropsNote | src/cd_internal.cc:4341-4343 | completing a request removes its first note there and no other |
| CdLogs.HandoverBytes | src/cd_internal.cc:1985-2016 | the parent's child buffer grows by exactly the record of the CD that ends, or stays as it is |
| CdPaths.CdPath.FindNote | src/cd_internal.cc:4237-4281 | the nested search loops find the nearest note |
| CdPaths.CdPath.PatchAbove | src/cd_internal.cc:4300-4316 | the loop over the parents patches the first packed child found, going up until a strict CD |
| CdPaths.CdPath.ProbeAndLogData | src/cd_internal.cc:4237-4347 | the new path is `CdLogs.Complete` of the old one; it fails exactly where that does |
| CdPaths.CdPath.CompleteEach | src/cd_mpiwrapper.cc:861-865 | the loop over a request array completes the requests in order |
| Playback.PlayTest | src/cd_mpiwrapper.cc:874-887 | Test and Testall on the arrays: one read, and the loop over completion events, give the answer and the log of `Wrappers.ReadTest` |
| Playback.PlayWaitall | src/cd_mpiwrapper.cc:1214-1320 | Waitall's loop leaves at a flip and judges by its last return code |
| Playback.PlayWaitsome | src/cd_mpiwrapper.cc:1390-1470 | count, indices and one probe per index |
| Playback.PlayCall | src/cd_mpiwrapper.cc:311-1470 | every replaying wrapper, as code over ReadData and ProbeData, refines `Wrappers.Read`, on which the replay theorems stand; from the table entry alone: at the end it flips and asks MPI, another length ends the run, and a slot still open leaves buffer and log untouched |
| Playback.CompleteLogs | src/cd_internal.cc:1982-2016 | the log goes to a relaxed parent exactly if something new is in it, and is emptied either way; modes and flags as stated |
| Playback.BeginLogs | src/cd_internal.cc:1225-1247 | under a parent that replays the log becomes the first record of this CD, or an empty one if there is none |
| Playback.Recreate | src/cd_internal.cc:1225-1247 | completed by the walk and pulled again, a child's log comes back with every buffer and size, unless an earlier record has its ID: then that one does; a log with nothing new is lost |
| Recorder.CdStack.constructor | src/cd_internal.cc:565-573 | a root that records, with an empty log |
| Recorder.CdStack.PostRequest | src/cd_comm_log.cc:397-421 | a slot of the request's length in table and queue, and a note: `CdLogs.Post` on the arrays |
| Recorder.CdStack.PatchAbove | src/cd_internal.cc:4300-4316 | the loop over the parents, patching bytes of their child buffers: `CdLogs.FillAbove` on the arrays |
| Recorder.CdStack.CompleteRequest | src/cd_internal.cc:4237-4347 | search, fill, event and note: `CdLogs.Complete` on the arrays, in the own log and in packed children |
| Recorder.CdStack.Record | src/cd_mpiwrapper.cc:311-1470 | every recording wrapper as code over LogData, ProbeAndLogData and ProbeAndLogDataPacked refines `Wrappers.Gen`, on which the recording theorems stand |
| Recorder.CdStack.BeginCd | src/cd_internal.cc:519-531 | a child that records gets an empty log with new arrays |
| Recorder.CdStack.EndCd | src/cd_internal.cc:1982-2042 | the log goes as bytes into the parent's child buffer and the notes to the parent: `CdLogs.Handover` on the arrays |
| Wrappers.GenAdds | src/cd_mpiwrapper.cc:311-745 | the entries and bytes that Send, Recv, Sendrecv, Isend and Irecv leave, field by field |
| Wrappers.GenCompletes | src/cd_mpiwrapper.cc:752-1470 | the entries and bytes that the completing calls leave, field by field |
| Wrappers.GenPolls | src/cd_comm_log.cc:366-375 | "not yet" is a record of four zero bytes, or one more on the counter of the one before |
| Wrappers.SomeAnswer | src/cd_mpiwrapper.cc:311-1470 | MPI has an answer that the theorems allow for every call, and any data for a receive |
| Wrappers.OpenSlotIsAnswered | src/cd_comm_log.cc:700-709 | a read that meets a slot still open is answered with the caller's buffer and the log untouched, and the program goes on; Isend and Waitall stop |
| Wrappers.WrongLengthStops | src/cd_comm_log.cc:697-701 | another length than the one recorded ends the run, whatever the call |
| Wrappers.WrongLengthLater | src/cd_mpiwrapper.cc:373-1470 | so it does in a call's second place |
| Wrappers.WrongEventLater | src/cd_mpiwrapper.cc:925-1470 | and an event with bytes in the last place, where Testany and Waitsome look for one |
| Wrappers.HalfSendrecv | src/cd_mpiwrapper.cc:373-450 | a Sendrecv whose payload is missing or still open stops |
| Wrappers.CutShort | src/cd_comm_log.cc:678-695 | a log that ends behind a flag, an index or a count: what each call that reads one answers then |
| Wrappers.ReplayBlocking | src/cd_mpiwrapper.cc:311-450 | if the log holds what a blocking, test or wait call recorded, the same call gets the recorded answer from it and uses up exactly that |
| Wrappers.ReplayNonBlocking | src/cd_mpiwrapper.cc:531-745 | an Isend or Irecv is answered as recorded exactly if its record holds its own data and it is not a receive inside the CD |
| WholeRun.GenShows | src/cd_mpiwrapper.cc:311-1470 | a recorded call adds to the current CD's log exactly the records that call owes, and disturbs no other CD's |
| WholeRun.HandoverShows | src/cd_internal.cc:1985-2042 | the finished child's log is among its parent's packed children, as recorded |
| WholeRun.RecordShows | src/cd_internal.cc:4237-4347 | over any run with nested CDs, logs and packed children match the calls made, call by call |
| WholeReplay.FoundKid | src/cd_comm_log.cc:976-1013 | the record found under an ID is that of the first child CD that logged under it, whatever the run; none exactly if nobody did |
| WholeReplay.ReplayActs | src/cd_mpiwrapper.cc:311-1470 | from any point of a replay the remaining acts are answered as recorded exactly if the CD's own records ahead hold what they should, no receive stays inside, and each child is answered from the record it pulls |
| WholeReplay.NothingReplays | src/cd_internal.cc:1236-1240 | a child for which no record is found is answered exactly if it makes no call |
| WholeReplay.ShownReplays | src/cd_comm_log.cc:678-790 | replay of a CD that has its log, with any siblings: all outputs are the recorded ones and MPI is not called exactly if its own records and each child's first record answer; then no address was used twice and the first call past the log flips |
| WholeReplay.PulledFromBytes | src/cd_comm_log.cc:838-851 | the log a re-created child replays is the one found and unpacked from its parent's bytes |
| WholeReplay.PastTheEnd | src/cd_comm_log.cc:680-695 | at the end of the log every call flips to recording |
| WholeReplay.CompleteLeavesOwnKids | src/cd_internal.cc:4298-4316 | a completion never reaches the caller's own packed children |
| WholeReplay.CompleteLeavesAncestors | src/cd_internal.cc:4298-4316 | nor the own log of a CD above |
| WholeReplay.IntraStaysOpen | src/cd_internal.cc:4296-4322 | completing a message inside the CD adds an event and completes no entry |
| LogRollback.WalkIsRun | src/cd_internal.cc:1614-1735 | completing the logs of the open CDs on the way up leaves the logs that completing those CDs would have left |
| LogRollback.ResumeIsReplay | src/cd_internal.cc:1225-1247 | re-running the program down to the innermost CD that was open is replaying the whole |
| LogRollback.ResumeEnds | src/cd_internal.cc:1225-1247 | where a replay from perfect records ends: so much of the record the innermost CD replays from is left as it did not use |
| LogRollback.OwnNamesOrigin | src/cd_internal.cc:1225-1247 | without shared IDs that record is its own, and nothing is left |
| LogRollback.RootRollback | src/cd_internal.cc:1614-1735 | error anywhere, rollback to the root, any IDs: same answers without MPI up to the interruption, exactly if the root's own records and the first record under each child's ID answer; then every next call of the innermost CD flips exactly if the record it replays from is not longer than what it did, and otherwise a receive is handed the next string of that record |
| LogRollback.InnerRollback | src/cd_internal.cc:1982-2016 | rollback to a CD with a parent: its log is empty, and acts are answered exactly if they contain no call |
| LogRollback.RollbackInReplay | src/cd_internal.cc:1225-1247 | unless its parent is replaying: then it pulls the first record under its ID, or starts empty if there is none |
| LogRollback.NothingPulled | src/cd_internal.cc:1225-1247 | from a strict parent, or one that records, nothing is pulled |
| LogRollback.InnerRollbackForgets | src/cd_internal.cc:1614-1735 | so of what such a CD and the CDs below it had done nothing can be replayed |
| LogRollback.ChildStartsOver | src/cd_internal.cc:3531-3535 | a message received in a child that re-executes is gone |
| Ledger.RunSim | src/cd_internal.cc:4237-4347 | the run on paper, made of the calls alone, follows the recorded logs step by step, nested CDs and packed children included |
| Siblings.RerunSame | src/cd_mpiwrapper.cc:311-1470 | a replay looks at the calls only, not at what MPI had answered |
| Siblings.NamesakeAnswers | src/cd_comm_log.cc:976-1013 | a child that shares its ID with one that is answered as recorded gets that one's answers, and no error |
| Siblings.PrefixAnswers | src/cd_comm_log.cc:976-1013 | a child that made only the first of those calls is answered exactly if it had got the first of those answers |
| Recital.CallTells | src/cd_mpiwrapper.cc:311-1470 | on a record with no slot open any call is answered as recorded exactly if the record says next what the call owes its own log, but for completion events missing at its end |
| Recital.OwedText | src/cd_mpiwrapper.cc:311-1470 | what each call owes its log, byte for byte |
| Recital.IndicesInMemory | src/cd_mpiwrapper.cc:1390-1470 | the array of indices as Waitsome logs it |
| Recital.TextReplays | src/cd_comm_log.cc:678-790 | the acts of a CD likewise, and what is then left of the record |
| Siblings.RecitesExactly | src/cd_comm_log.cc:976-1013 | any acts on the perfect record of any other acts, nested CDs included: the exact condition, on the calls of both |
| Siblings.PerfectReplays | src/cd_comm_log.cc:976-1013 | any run: answered exactly if the records that can be found hold what they should and each child recites the first one under its ID |
| Siblings.DistinctRecites | src/cd_internal.cc:549-556 | with different IDs every run does, unless a receive stays inside its CD |
| Siblings.EventNotMissed | src/cd_mpiwrapper.cc:874-887 | a Test is answered from the record of a receive, although the event is not there |
| Settled.PerfectIff | src/cd_internal.cc:4237-4347 | the logs hold what they should exactly if the page does |
| Settled.ReplaysExactly | src/cd_internal.cc:1614-1735 | the exact condition on the calls, for every program: error anywhere, rollback to the root, same answers without MPI up to the interruption, if and only if the paper run settles every request that counts and each child recites the first one under its ID |
| Settled.RunReplays | src/cd_comm_log.cc:678-790 | the same for a CD that ran to its end |
| OwnRequests.RunTidy | src/cd_internal.cc:4237-4347 | in runs whose CDs complete their own requests a request is open exactly if it should be, and no other CD is touched |
| OwnRequests.SelfContainedSettles | src/cd_internal.cc:4237-4347 | such runs settle every request, although CDs use each other's addresses: what is left of the condition is that each child recites the first one under its ID, and with different IDs nothing is left |
| OwnRequests.SelfContainedReplays | src/cd_mpiwrapper.cc:531-1470 | so they replay from the root exactly if each child, the interrupted ones included, recites the first one under its ID; always with different IDs |
| Patterns.LoopReplays | src/cd_mpiwrapper.cc:620-745 | the usual loop, any number of child CDs under any IDs, each doing Irecv and Waitall at the same address, records without error and replays exactly if children that share an ID received the same |
| OpenLoop.LoopInterrupted | src/cd_mpiwrapper.cc:620-745 | the same with an error inside an iteration after any of its calls: the open iteration must have received what those before it under its ID did, and if it had not waited yet there must be one |
| Patterns.RecreatedChild | src/cd_internal.cc:549-556 | two children under one ID: the second is answered with the first one's message, without an error |
| Patterns.TwoLabels | src/cd_internal.cc:1137 | the same two children with different labels each get their own message back |
| Patterns.ParentWaits | src/cd_internal.cc:4298-4316 | a family of runs that complete every request and still do not replay: the child starts, the parent waits |
| Patterns.InnerSendStays | src/cd_internal.cc:4296-4322 | another: a message sent inside the CD and waited for there |
| Patterns.ReuseOverwrites | src/cd_comm_log.cc:294-330 | a run after which a finished child's record holds the data of a later request at the same address, and which cannot be replayed |
| Moved.ReadToTheEnd | src/cd_comm_log.cc:700-735 | a rewound log that has been read to its end is as it was, but for the cursor |
| Twins.RunTwins | src/cd_comm_log.cc:357-426 | whole runs are recorded alike by CDs that differ in cursors and modes only |
| Relive.LiveReplays | src/cd_internal.cc:1225-1247 | running on after a rollback, what is answered as recorded moves the cursor and changes nothing else, nested CDs included |
| Relive.BegunFresh | src/cd_internal.cc:519-531 | a child of a CD that records, or is strict, starts with an empty log and records |
| Relive.LiveAhead | src/cd_mpiwrapper.cc:887-903 | past the end of the log, and with IDs that have no record yet, everything is recorded as in a run that never failed |
| Relive.LiveLeaves | src/cd_internal.cc:4298-4316 | whatever a CD and the CDs in it do, the own logs of the CDs above stay as they are |
| Relive.LiveWalkIsRun | src/cd_internal.cc:1614-1735 | a second error with CDs open again: completing their logs on the way up leaves what completing those CDs would have left |
| Relive.OneMorePoll | src/cd_comm_log.cc:366-375 | a child that only polls once more after a replay is not packed again: its parent keeps the old count |
| SecondRollback.ChainBooks | src/cd_internal.cc:1985-2016 | whatever the CDs open at an interruption do after it, each still shows first what it had done before |
| SecondRollback.StaleRecord | src/cd_comm_log.cc:976-1013 | if the CD open below the root logged before and after the interruption, a second rollback finds its partial record and fails |
| SecondRollback.NeverFailed | src/cd_internal.cc:1614-1735 | otherwise, after replay, flip and whatever followed, the root is as in a run that never failed, but for cursor and mode |
| SecondRollback.SecondRollback | src/cd_internal.cc:1614-1735 | both for any interruption and any continuation, from the recorded run on, where open CDs and new ones have IDs of their own |
| SecondRollback.SecondError | src/cd_internal.cc:1614-1735 | from a second error anywhere to the root: its log is rewound, and resuming is replaying the whole |
| SecondRollback.ReplaysTwice | src/cd_internal.cc:1614-1735 | two errors, each anywhere: the second re-run is answered up to the second interruption if and only if the whole run settles on paper and the CD open below the root did not log on both sides of the first |
| Relapses.OpenChildReceives | src/cd_internal.cc:1985-1990 | a child receives `m`, rollback, replay, flip, it receives `n` and completes: the second rollback is not answered |
| Relapses.NextIteration | src/cd_comm_log.cc:976-1013 | a loop rolled back after its first child: the next child is handed the first one's message, and MPI is not called |
| Relapses.OpenNamesake | src/cd_comm_log.cc:976-1013 | a loop interrupted inside its second iteration: answered exactly if the first had received the same, and then the next receive, too, is handed the first one's message |
| Requests.PostNotes | src/cd_comm_log.cc:397-421 | an Isend or Irecv adds its request to the outstanding ones |
| Requests.CompleteNotes | src/cd_internal.cc:4237-4347 | a completion removes exactly one request with that flag |
| Requests.HandoverNotes | src/cd_internal.cc:2022-2042 | a CD that completes hands all its requests over: the list along the path is unchanged |
| Requests.RunBalance | src/cd_internal.cc:2022-2042 | over any run: outstanding after + completed = outstanding before + started, as multisets |
| Requests.NothingOutstanding | src/cd_internal.cc:4237-4347 | a run ends with nothing outstanding exactly if it completed each request it started |
| RollbackCells.GetCoarseCD | src/cd_internal.cc:4616-4627 | the loop ends in the nearest CD with several tasks, else the root |
| RollbackCells.CoarseIsShared | src/cd_internal.cc:4616-4627 | in a run of several tasks it ends in a CD that several tasks share |
| RollbackCells.Window.SetRollbackPoint | src/cd_comm_internal.cc:1262-1360 | exactly one cell changes, to the minimum or to a reset, whichever CD level made the call; and what is returned |
| RollbackCells.Window.Clear | src/cd_internal.cc:1289-1292 | the reset at the begin of a re-executing CD: the own cell and no other |
| RollbackCells.Window.CheckRollbackPoint | src/cd_comm_internal.cc:1363-1431 | through any CD level a task reads its own cell |
| RollbackCells.Window.Report | src/cd_handle.cc:2157-2185 | what Detect does to the cells, for CDs of one task and of several: the own cell ends at most at the current level, and a shared CD's head knows |
| RollbackCells.CellIsMinimum | src/cd_comm_internal.cc:1262-1360 | after any interleaving a cell is the minimum of what it was sent since its last reset |
| RollbackCells.OrderIrrelevant | src/cd_comm_internal.cc:1262-1360 | runs that send the same values to the same cells end alike, in any order and through any levels |
| Recovery.VisitMeans | src/cd_internal.cc:1614-1735 | one visit re-executes here, leaves with the least cell heard of, or fails: exactly when |
| Recovery.Task.GetCDToRecover | src/cd_internal.cc:1581-1741 | the walk ends; it succeeds exactly if the cell is a level of the path and no lone task that must leave asked for a reduction; then it returns the CD at the agreed level, the deeper CDs, and only they, are gone, once each, in the order of destruction, with empty directory and `begin_` unset and otherwise as they were, and the logs are those of `LogRollback.Walk` |
| Recovery.Removed | src/cd_handle.cc:1591-1639 | the destroyed CDs, deepest first, each with cleared directory and `begin_` unset |
| Recovery.WalkedMeans | src/cd_internal.cc:1581-1741 | the walk in plain terms: what is gone and how, what is left, and whose cells bound the level |
| Recovery.Task.Complete | src/cd_internal.cc:1748-1880 | completes exactly if the agreed rollback point lies below the CD, with that point in the cell; otherwise re-executes at the agreed level |
| Recovery.Task.CheckErrorOccurred | src/cd_handle.cc:2648-2725 | finds the deepest CD whose vector lacks none of the error's bits, or none exactly if there is none |
| Recovery.DeepestMeans | src/cd_handle.cc:83-84 | that CD told by the bits |
| Recovery.CoversMeans | src/cd_handle.cc:83-84 | a CD covers an error exactly if none of the error's bits is missing in its vector |
| Recovery.LeastMeans | src/cd_handle.cc:2648-2725 | the least level over several errors: one has its deepest covering CD there, and each has one there or below |
| Recovery.TwoErrors | src/cd_handle.cc:2676 | two errors at once are covered exactly where both are, and so no deeper than either alone |
| Recovery.Task.Detect | src/cd_handle.cc:2098-2185 | the level found is merged into the cell |
| Recovery.Task.DetectThenComplete | src/cd_internal.cc:1778-1886 | single task, root covers all: Complete re-executes at the least level reported since the reset, or goes on if there was no error |
| Agreement.GroupAgreement | src/cd_internal.cc:1622-1736 | in a collective visit all tasks re-execute or all leave, with the group's minimum in every cell, exactly if no task is meant for a CD below |
| Agreement.CompleteAgreement | src/cd_internal.cc:1772-1811 | in a collective Complete all cells become the minimum, so all tasks take the same branch |
| Agreement.TreeAgreement | src/cd_internal.cc:1581-1741 | up a tree of CDs of any shape, as long as nobody rejoins: all tasks of a CD decide alike by the least of all their cells, and all leave it exactly if every CD below drains and that cell lies above |
| Rejoin.EverybodyMeets | src/cd_internal.cc:1581-1811 | once the tasks that re-executed below have come to the Complete above, all tasks of a CD decide alike by the least of all cells there were, without any condition; who goes on keeps a cell from below |
| Mailbox.StepKeepsLaw | src/cd_comm_internal.cc:948-1023 | every step of sender or receiver keeps: pending = handled + queued + bits to deal with + on the way + lost |
| Mailbox.MailboxSafety | src/cd_comm_internal.cc:1517-1537 | over every interleaving the law holds, subtracting never wraps, and a zero counter means nothing to do |
| Mailbox.QuietIsZero | src/cd_comm_internal.cc:1517-1537 | when all is done the counter equals the number of events lost |
| Mailbox.SentTwice | src/cd_comm_internal.cc:948-1023 | a run in which one event sent twice leaves the counter at one |
| Mailbox.Receiver.ReadAsHead | src/cd_comm_internal.cc:645-772 | which handlers the head queues, event by event and in order, which bits go, what counts as handled at once, and that the law is kept; exactly when it aborts |
| Mailbox.Receiver.ReadAsMember | src/cd_comm_internal.cc:595-642 | the same for a member, event by event; it drops two events unhandled and leaves AllResume |
| Mailbox.HeadIsRun | src/cd_comm_internal.cc:645-772 | what the head does to one mailbox is a run of the steps above: it looks, queues or counts four events in this order and clears their bits |
| Mailbox.MemberIsRun | src/cd_comm_internal.cc:595-642 | what a member does likewise: two events ignored, three queued, AllResume left |
| Mailbox.Receiver.LocalSetMailBox | src/cd_comm_internal.cc:1221-1259 | the head queues its own handler and counts it |
| Mailbox.LocalIsRun | src/cd_comm_internal.cc:1221-1259 | as steps: the counter is bumped, the handler queued, the bit cleared |
| Mailbox.Receiver.DecPendingCounter | src/cd_comm_internal.cc:1517-1537 | the exact difference, without wrap-around |
| Mailbox.Receiver.FinalizeMailBox | src/cd_comm_internal.cc:1599-1656 | all bits of the CD's mailboxes count as handled and are subtracted |
| Naming.Split1D | src/cd_handle.cc:1112-1127 | child and rank are in range and give the task back; refused exactly if not divisible |
| Naming.Split1DBlocks | src/cd_handle.cc:1122-1124 | a child holds one block of consecutive tasks |
| Naming.Split1DOnto | src/cd_handle.cc:1112-1127 | every place in every child belongs to exactly one task |
| Naming.Split3DInverse | src/cd_handle.cc:1061-1109 | if the sides divide, child and rank are in range and give the task back |
| Naming.Split3DOnto | src/cd_handle.cc:1061-1109 | every place of every child has a task, and a child's tasks form one sub-cube |
| Naming.Split3DExactly | src/cd_handle.cc:1061-1109 | tasks are separated exactly if the children's side divides the side |
| Naming.Split3DCollides | src/cd_handle.cc:1061-1109 | otherwise two given tasks coincide |
| Naming.AssertionsAllow5And4 | src/cd_handle.cc:1085-1096 | the assertions admit sides 5 and 4, where tasks collide |
| Naming.Split3DInNumbers | src/cd_handle.cc:1098-1106 | color and rank for the task at x, y, z in numbers: x runs fastest, then y, then z |
| Naming.ThirdOfSecond | src/cd_name_t.cc:56-67 | with four children of three each, the second's third has rank 5 in level 2, and phase -1 |
| Naming.ColorsOfName | src/cd_name_t.cc:56-67 | the rank in the level lies below the product of the fan-outs and tells the whole path of colors |
| Naming.RanksFill | src/cd_name_t.cc:56-67 | every rank below that product is some CD's |
| Naming.NamesUnique | src/cd_name_t.cc:56-67 | CDs anywhere in the tree with equal level and rank are the same |
| Naming.TaskOfPath | src/cd_handle.cc:1112-1127 | a task's original ID is its rank in its CD plus that CD's rank times the CD's size |
| Naming.PathRecovered | src/cd_handle.cc:1112-1127 | the task's path of colors can be read off its original ID |
| Tags.HighestBit | src/cd_internal.cc:240-249 | the scan returns the highest set bit |
| Tags.WidthInRange | src/cd_internal.cc:236-249 | the width is 8 to 30 exactly for bounds from 255 to INT_MAX - 1; for INT_MAX it is 63 |
| Tags.TagFits | src/cd_id.cc:137-149 | whatever the arguments, the tag does not exceed MPI_TAG_UB (section 8.1.2 of MPI-3.1) |
| Tags.TagIsPut | src/cd_id.cc:137-149 | within the fields, shifting and or-ing is mixed-radix notation under a leading one |
| Tags.TagInNumbers | src/cd_internal.cc:252-254 | in numbers: six bits of level under the top bit, the rest halved between rank and task; levels below 64 can be read back |
| Tags.FirstChildTag | src/cd_id.cc:137-149 | for width 30, level 1, rank and task 0 it is 0x20800000 |
| Tags.TagDecodes | src/cd_id.cc:137-149 | within the fields level, rank and task can be read back, so tags are distinct |
| Tags.TagDecodesExactly | src/cd_id.cc:137-149 | and only then |
| Tags.RankRunsOver | src/cd_id.cc:137-149 | a rank past its field gives another CD's tag |
| Preserve.Counter.Preserve | src/cd_internal.cc:2634-2749 | whether a call preserves, restores or fails, and the counts and mode after it |
| Preserve.RunCounts | src/cd_internal.cc:2634-2749 | any run: preserved is the longest stretch of calls between rollbacks, restored at most that, and the mode in closed form |
| Preserve.RestoresExactly | src/cd_internal.cc:2716-2730 | after a rollback exactly as many calls restore as had been preserved, then preserving resumes |
| Preserve.NoErrorLater | src/cd_internal.cc:2732-2742 | once something was preserved the error is unreachable |
| Preserve.ErrorExactly | src/cd_internal.cc:2732-2742 | the error occurs exactly if the first call that is not for output follows a rollback |

## Left out

- MPI itself: windows, locks, communicators and requests are atomic steps, parameters and addresses.
- setjmp, longjmp, ucontext and stack preservation: a rollback is a change of state.
- MPI_Wait (it deletes the note before looking for it), Testsome (indices are not logged), Allgather (reads with
  another length than it logged) and the other collectives; Send, Recv and Sendrecv stand for the calls that log
  an event, a payload, or both.
- Strict CDs' own logging arms, ProbeIncompleteLogs and InvalidateIncompleteLogs; the libc log.
- LogRollback.RootRollback: the CDs are relaxed and in execution mode; a rollback during a re-execution, before the
  replay has reached its end, is not followed (there a CD's notes are probed and not handed over, src/cd_internal.cc:2043).
- SecondRollback.SecondRollback: no open CD, and no CD that is begun before its parent is back to recording, has the ID
  of an earlier one that logged; otherwise that CD is answered from the earlier one's record already after the first
  rollback, before any second one (`Relapses.OpenNamesake`, `Relapses.NextIteration`). A CD's own logging mode, which a
  child that flips its parent's log leaves behind, is not kept apart from the log's mode.
- SecondRollback.ReplaysTwice: the same IDs are left out.
- SecondRollback.NeverFailed: the same IDs are left out.
- SecondRollback.StaleRecord: the same IDs are left out.
- SecondRollback.ChainBooks: the same IDs are left out.
- Relive.LiveAhead: a child begun before the flip under an ID that has a record, which replays instead of recording.
- Rejoin.EverybodyMeets: tasks that re-execute meet no further error on their way to the Complete above.
- Recorder.CdStack.Record: where the source's assertions hold; where they fail is in `CdPaths.CdPath.ProbeAndLogData`.
- CommLogs.CommLog.LogData: the note of an unfinished request is in `CdLogs.Post`.
- OwnRequests.SelfContainedReplays: for programs that keep to a discipline; the condition for all is in `Settled.ReplaysExactly`.
- Overflow of uint64 sizes and counters; the pending counter and the tags are modelled at their width.
- Recovery.Task.GetCDToRecover: the value written to the head's cell when a lone task re-executes is not followed, nor remote writes between a reduction and the local store.
- Recovery.Task.Detect: CDs of one task; those of several are in `RollbackCells.Window.Report`, without the mailbox it also sets.
- Agreement.TreeAgreement: tasks whose CD re-executes do not rejoin here; they do in `Rejoin.EverybodyMeets`.
- Mailbox.Receiver.ReadAsHead: runs between two steps of the senders; the interleaved form is in the steps of `Mailbox.Next`.
- Mailbox.Receiver.ReadAsMember: likewise.
- Tags.HighestBit: starts at bit 63, not at the undefined shift by 64.
- InitializeMailBox on a re-created CD, which zeroes the shared counter.
- The cube roots of `SplitCD_3D`: given as the sides, which the assertions confirm.
- failed_phase, phase tree, profiling, debug output, environment variables and file paths.
- Packer, DataStore, TableStore, event handlers and RecoverObject: what is restored is not modelled, only how often.
- Remote entries, CDEvent, cd_malloc, ForwardToLowerLevel, error injection, the C interface and CDVector.
