# Verified models of Dicer's protocols

Dicer is a daemon that runs microVM instances, with a command line and a compose
file reader beside it. This project states, in Dafny, what the hardest parts of it
do, and proves what they are for. `dafny verify dfyconfig.toml` checks all of it.

**The event log** (`Events`, `EventLog`, `EventLogProofs`, `EventOutcomes`,
`EventLogObject`, `EventWarnings`, `EventFile`, `EventCodec`). Recording an event
never waits for the disk: it goes to a list in memory and to a bounded queue, and is dropped from the queue when that is full. A
single writer goroutine appends queued events to a file and compacts the file when
it has grown too long or an event was dropped. `EventLog` is this as a state
machine of seventeen steps, any of which may come between any two others, writes
and renames may fail, and the daemon may stop at any step. `EventLogProofs` proves
its invariant over every run and, from it, that nothing dropped is forgotten, that a
clean close is durable, that the file is always whole lines in order, and that
`Close` returns. `EventOutcomes` says, of the actions of a run alone, when `Close`
returns an error, when the file is compacted and what is kept. `EventLogObject` has the same code as classes, with the writer's
loop as a loop: every step it takes, and every step others take between two of its
own, is proved to be one of the machine's, so the durability of a clean close is a
postcondition of that loop. `EventFile` takes the results down to bytes.

**Subscriptions** (`Subscriptions`, `History`). What a follower is sent: the history
and then everything recorded after it, with no gap and no overlap, until it closes
or falls behind.

**The definition store** (`Definitions`, `Store`, `StoreProofs`, `StoreOutcomes`,
`StoreLifetimes`, `StoreObject`).
Instances, snapshots, kernels, networks and volumes in maps with ID indexes, written
through to files. An operation is the list of disks it passes through and the
memory it ends with, so a failure or a crash after any filesystem call is part of
the model. Proved over every sequence of operations, and over lifetimes with crashes
and restarts: references and indexes stay right, the files hold what is in memory,
and a crash leaves all or nothing. `StoreOutcomes` says of every operation, for any
number of filesystem calls that succeed, what each name leads to afterwards, and each
error exactly when it is due.

**Compose** (`Dependencies`, `DependencyCheck`, `ServiceOrder`, `Converge`). Which
dependency graphs are accepted, the order services are brought up in, and the
goroutines that bring them up: no deadlock, nothing started too early, an outcome for
each service that is what its `up` and its waits answered, and an error that is always
a root cause.

**Texts, trees, addresses and files.** `Interpolation` and `Templates`: reading a
printed template is evaluating it, with each operator's meaning for a variable that is
unset, empty or set. `ShellWords` and `ShellGrammar`: the splitter
accepts exactly the lines of a grammar and undoes the printer. `Merges`,
`MergeProofs` and `MergeKeys`: YAML merge keys replaced without changing what a key
means, and exactly when keys stay unique. `EditDistance`: the table computes
the least cost of all alignments. `Subnets`: the lowest free /24. `SparseCopy`: a
copy that never writes zeroes and is exact all the same.

Where code is a loop over variables it is a method with that loop, proved to compute
a function of its inputs, and the theorems are about the function. Where it is an
object it is a class whose methods are proved against a function of the old state.

## What turned out not to hold

- A `$${` in a default of a compose variable, `${A:-$${}`, is refused although `$$`
  is documented as a literal dollar: braces are counted before dollars are read.
  `Templates.ArgumentMeansItselfIff` says exactly which arguments can be written, for
  every operator.
- A copy on a filesystem without `SEEK_DATA` returns before the file is sized, so
  trailing zeroes are lost although the result is said to be sized to match.
  `SparseCopy.CopyAll` says exactly when the copy is whole, by the filesystem's
  answers and the input.
- The store finds a kernel, network or volume that an instance names by ID, and then
  lets it be deleted, since deletes compare names. The lemmas of `StoreProofs` whose
  names end in `Iff` say when references are kept.
- A rename or a directory removal that stops halfway leaves the files out of step
  with memory; `StoreProofs.WriteThrough` says that nothing else does.
- A quoted `<<` key in a compose file is not counted among a mapping's own keys, so
  a merge can leave it twice (`MergeKeys.QuotedKeyDoubles`), or before it make it read
  as the merged one (`MergeKeys.QuotedKeyMisread`). `MergeKeys.StaysUniqueIff` and
  `MergeKeys.QuotedMeansIff` say exactly when. A merge key tagged by hand and spelt
  otherwise does count, and hides what it merges (`MergeKeys.TaggedKeyHides`).

## Model

| member | source | states |
|---|---|---|
| Events.AgedFrom | internal/event/log.go:383-394 | the age limit removes exactly the leading events older than the oldest allowed, and stops at the first that is not |
| Events.Trim | internal/event/log.go:383-394 | what is kept is a tail of the list within the count limit, the first kept is not older than the age limit, and everything dropped is past the count or older than the age limit |
| EventOutcomes.FilterPicks | internal/event/event.go:118-123 | an unset field of a filter picks everything and a set one only what has it |
| EventOutcomes.TrimmedIsOne | internal/event/log.go:383-394 | the two limits leave exactly one list: there is no other tail within both that drops only what is past one |
| EventOutcomes.RecordKeepsTrimmed | internal/event/log.go:219-248 | what is kept after Record is the list with the stamped and numbered event, trimmed by count and by age at that time |
| EventOutcomes.OpenKeepsTrimmed | internal/event/log.go:145-179 | what is kept after opening is what was loaded, trimmed by count and by age |
| EventOutcomes.HistoryIsTrimmed | internal/event/log.go:219-248 | the list a subscriber gets its history from is trimmed in the same way, by Record only |
| EventOutcomes.FailedIff | internal/event/log.go:330-343 | over every run that stops, from any state, Close returns an error if and only if there was one already, a replace or a reopen failed after the queue was drained, or closing an open file did |
| EventOutcomes.CloseFailsIff | internal/event/log.go:469-483 | the same from a waiting writer, as an opened log has: nothing before the queue is drained makes Close fail |
| EventOutcomes.CompactsIffDue | internal/event/log.go:321-352 | the writer goes on to copy if and only if the file is not open, is over its maximum and a quarter, or lacks a drop while the queue is seen empty, and it is not too soon after a failed one |
| EventOutcomes.RetryIsPutOff | internal/event/log.go:347-358 | after a failed compaction none is begun within thirty seconds, short of Close |
| EventLogProofs.OpenEstablishes | internal/event/log.go:145-179 | opening the log on any loaded events establishes the invariant |
| EventLogProofs.RecordKeeps | internal/event/log.go:219-290 | recording keeps the invariant, whether the event is queued, dropped for a full queue, or comes after Close |
| EventLogProofs.TakeKeeps | internal/event/log.go:306-309 | taking the next queued event keeps the invariant |
| EventLogProofs.WriteOkKeeps | internal/event/log.go:361-372 | a write that succeeds keeps the file in record order with the count right |
| EventLogProofs.WriteFailKeeps | internal/event/log.go:361-379 | a failed write, cut after any number of bytes, is followed by no other write until a compaction |
| EventLogProofs.SkipKeeps | internal/event/log.go:309-320 | skipping an event that a compaction already wrote, or while the file is not open, keeps the invariant |
| EventLogProofs.ReadQueueLenKeeps | internal/event/log.go:321-324 | looking at the queue's length and then at the drops, with records in between, misses no drop |
| EventLogProofs.DecisionKeeps | internal/event/log.go:321-358 | the writer goes back to waiting only with nothing left to compact, or with a retry set |
| EventLogProofs.CopyKeeps | internal/event/log.go:398-437 | the copy a compaction takes covers all kept events up to the last recorded |
| EventLogProofs.ReplaceOkKeeps | internal/event/log.go:410-437 | replacing the file by the copy keeps it ordered while queued events wait that it already has |
| EventLogProofs.ReopenOkKeeps | internal/event/log.go:410-437 | reopening the compacted file keeps the invariant |
| EventLogProofs.FailedCompactionKeeps | internal/event/log.go:347-358 | a compaction that fails at either place keeps the invariant |
| EventLogProofs.CloseLogKeeps | internal/event/log.go:469-483 | closing the queue at any step keeps the invariant |
| EventLogProofs.FinalCheckKeeps | internal/event/log.go:330-335 | the check after the queue is drained compacts if anything is missing from the file |
| EventLogProofs.CloseFileKeeps | internal/event/log.go:336-343 | closing the file, or failing to, keeps the invariant |
| EventLogProofs.CrashKeeps | internal/event/log.go:306-343 | stopping at any step leaves whole lines in order and at most one cut line |
| EventLogProofs.StepKeeps | internal/event/log.go:219-437 | every step of the recorders and the writer keeps the invariant |
| EventLogProofs.RunKeeps | internal/event/log.go:219-437 | so does every run, in every interleaving |
| EventLogProofs.ReachableKeeps | internal/event/log.go:137-483 | the invariant holds of every state any open log reaches |
| EventLogProofs.CleanCloseHappens | internal/event/log.go:463-483 | a log on any loaded events reaches a clean close |
| EventLogProofs.LastLines | internal/event/log.go:410-437 | an ordered file of genuine events that has the last k recorded ends with exactly those |
| EventLogProofs.NothingForgotten | internal/event/log.go:265-343 | whenever the writer waits on an empty queue, no compaction having failed, or the last one having succeeded and the clock gone forward, the file is open, no drop is newer than the last compaction, and the file holds every event still kept |
| EventLogProofs.CleanCloseIsDurable | internal/event/log.go:329-343 | if Close returns no error the file is clean and ends with exactly the kept events, whatever was dropped or failed before |
| EventLogProofs.FileIsWholeLinesInOrder | internal/event/log.go:306-379 | at every step, a crash included, the file is whole lines with strictly increasing record numbers and at most one partial line of a later event; while it is open the count is its number of lines |
| EventLogProofs.FileIsBounded | internal/event/log.go:306-358 | on the same condition the file has at most maxCount + maxCount/4 events whenever the writer waits |
| EventLogProofs.ReopenRestores | internal/event/log.go:145-211 | with no age limit, opening the events of a cleanly closed file gives exactly the kept list |
| EventLogProofs.ClosedStep | internal/event/log.go:306-343 | after Close every step of the writer lowers a rank that no other step raises |
| EventLogProofs.WriterCanMove | internal/event/log.go:306-343 | after Close the writer has a next step until it has stopped |
| EventLogProofs.CloseReturns | internal/event/log.go:463-483 | Close returns: the writer takes at most so many more steps and is never stuck before the end |
| EventLogObject.Log.constructor | internal/event/log.go:145-179 | the fields are those of the opened state machine |
| EventLogObject.Log.Trim | internal/event/log.go:383-394 | the two loops over the list keep what Events.Trim keeps of it and the new event, and so what that promises of the age and the count |
| EventLogObject.Log.Record | internal/event/log.go:219-290 | the new fields are exactly the machine's record step, with the warning due |
| EventLogObject.Writer.constructor | internal/event/log.go:145-179 | log, file and writer together are the opened state machine, with no step taken |
| EventLogObject.Writer.Others | internal/event/log.go:219-290 | what other goroutines do between two steps of the writer is steps of the machine, and never shrinks the queue or reopens it |
| EventLogObject.Writer.Receive | internal/event/log.go:309-309 | the range over the queue ends only once it is closed and empty, and gives each event as the machine takes it |
| EventLogObject.Writer.Handle | internal/event/log.go:310-320 | writing, skipping or failing to write the event is the machine's step for it |
| EventLogObject.Writer.MustCompact | internal/event/log.go:321-352 | the guard and the check of the time are the machine's decision |
| EventLogObject.Writer.Compact | internal/event/log.go:410-437 | copy, replace and reopen are the machine's steps, whatever is recorded between them and wherever it fails |
| EventLogObject.Writer.TryCompact | internal/event/log.go:347-358 | a failed compaction is put off, as the machine's step, and the writer waits again |
| EventLogObject.Writer.Finish | internal/event/log.go:330-343 | what follows the loop ends in the stopped state, with an error if and only if a replace, a reopen or the close of an open file was answered so |
| EventLogObject.Writer.Write | internal/event/log.go:306-343 | the whole loop, with any interference between its steps and any failures, is a run of the machine from an opened log; it ends once Close is called, Close returns an error if and only if, after the queue was drained, a compaction failed or the open file did not close, and if it returns none the file ends with exactly the events kept |
| EventWarnings.EachRunIsWarnedOfOnce | internal/event/log.go:213-218 | over every run there are exactly as many dropping warnings as runs of dropped events |
| EventWarnings.RecordingLateIsWarnedOfOnce | internal/event/log.go:213-218 | recording after Close is warned of exactly once, however often it is done |
| EventWarnings.DropsAreCounted | internal/event/log.go:265-290 | over every run the count of dropped events is the number of records that found the queue full while the log was open |
| EventFile.Load | internal/event/log.go:188-211 | the loop over lines computes the loading function |
| EventFile.LoadAnyLine | internal/event/log.go:188-211 | whatever a line holds, it loads as the event it is, or else as nothing, and what follows is read as it would be alone |
| EventFile.LoadCut | internal/event/log.go:188-211 | a line cut anywhere loads as its event if the document is complete, else as nothing |
| EventFile.LoadLines | internal/event/log.go:188-211 | whole lines load as their events, whatever follows |
| EventFile.LoadFindsLines | internal/event/log.go:188-211 | whatever a write left behind, loading finds all whole lines and at most the one complete document |
| EventFile.CrashLoadsOrderedEvents | internal/event/log.go:188-211 | opening after a crash at any step of any run loads recorded events in order, none twice |
| EventFile.CrashLosesLittle | internal/event/log.go:300-305 | a crash while the file is open, in the middle of a write too, loses, of what is kept, only events in the queue, in the writer's hand, or dropped since the last compaction |
| EventFile.CloseThenOpenRestores | internal/event/log.go:188-211 | through the bytes: close cleanly, open again, and the kept list is back |
| EventCodec.LawfulExists | internal/event/log.go:361-368 | an encoding exists that does all that is asked of one |
| Subscriptions.StepKeeps | internal/event/subscription.go:20-92 | every step keeps: registered exactly while the channel is open, never over its size, and holding exactly what was recorded since and matches |
| Subscriptions.RunKeeps | internal/event/subscription.go:20-92 | so does every run |
| Subscriptions.RunContinues | internal/event/subscription.go:73-92 | over every run a subscription keeps its filter and where it began, and once ended never opens again and keeps its reason and where it ended |
| Subscriptions.NoGapNoOverlap | internal/event/subscription.go:20-37 | for any limit: history, then what was read, then what is buffered, is the matching part of the list kept at the start, but for what the limit leaves out, and of all recorded until the end |
| Subscriptions.LimitKeepsTheLast | internal/event/log.go:439-461 | a limit gives the longest end of the matching events that is within it, and no limit all of them |
| Subscriptions.FallsBehindOnlyWhenFull | internal/event/subscription.go:73-92 | a step makes a subscription fall behind if and only if it records a matching event and finds 256 waiting, and ends it otherwise if and only if it closes it or the log; what was delivered stays |
| Subscriptions.SubscribeOpens | internal/event/subscription.go:20-37 | a new subscription is empty and open, or ended if the log is closed, and no other changes |
| Subscriptions.Broadcaster.constructor | internal/event/log.go:145-179 | no subscriptions, and the invariant |
| Subscriptions.Broadcaster.Finish | internal/event/subscription.go:83-92 | ends a registered subscription once and any other not at all |
| Subscriptions.Broadcaster.Deliver | internal/event/subscription.go:73-79 | sends to one subscription, or ends it if its channel is full |
| Subscriptions.Broadcaster.OfferAll | internal/event/log.go:219-248 | the loop over the map offers the event to each registered subscription once |
| Subscriptions.Broadcaster.Record | internal/event/log.go:219-248 | the machine's record step, keeping the invariant |
| Subscriptions.Broadcaster.ListMatching | internal/event/log.go:449-461 | the loop over the kept events gives the matching ones, cut to the limit |
| Subscriptions.Broadcaster.Subscribe | internal/event/subscription.go:20-37 | the machine's subscribe step, with the history of the same moment |
| Subscriptions.Broadcaster.CloseSubscription | internal/event/subscription.go:63-68 | the machine's end step |
| Subscriptions.Broadcaster.FinishAll | internal/event/log.go:469-476 | the loop over the map ends every registered subscription |
| Subscriptions.Broadcaster.Close | internal/event/log.go:469-483 | the first Close ends every subscription, later ones change nothing |
| History.SendHistory | internal/grpcserver/events_handler.go:94-112 | the batches concatenate to the history, each but the last is full, and only the last is marked caught up; it fails exactly at the first batch the stream does not take |
| History.LoopEnds | internal/grpcserver/events_handler.go:58-77 | the follow loop takes the events up to the first turn that is none, and returns nil or that it fell behind as that turn says |
| History.GetEvents | internal/grpcserver/events_handler.go:54-77 | the history and then each event received is sent, in order, until the client goes, the channel closes or a send fails; a failed send loses only the last event received, and otherwise the error is fell-behind exactly if the channel closed so; the one response marked caught up is the last of the history |
| History.FollowerSeesEverything | internal/grpcserver/events_handler.go:54-77 | for any limit: what a follower is sent, the one event a failed send loses, and what waits for it, is the matching part of the list kept and all recorded since, in order; it is told that it fell behind if and only if it did, and then all before that was sent |
| Definitions.ValidIsNotStaging | internal/naming/naming.go:18-37 | a valid name is never taken for a staging directory |
| Definitions.ValidNameIff | internal/naming/naming.go:18-37 | a name is valid if and only if it is at most 253 characters and labels joined by dots, each a letter or digit, or two with at most 61 letters, digits or hyphens between |
| Definitions.Find | internal/filestore/kernels.go:63-74 | a lookup gives the definition with that name, or else the one with that ID, and none only if none has either |
| Definitions.PutKeepsIff | internal/filestore/kernels.go:138-146 | keeping a definition leaves the index right if and only if it takes no ID from another and loses none of its own |
| Definitions.DropKeeps | internal/filestore/kernels.go:118-122 | deleting a definition leaves the index right |
| Definitions.MoveKeepsIff | internal/filestore/instances.go:139-143 | a rename leaves the index right if and only if it keeps the ID, or gives a new one where there was none |
| Definitions.IndexIsDetermined | internal/filestore/store.go:50-54 | the names by ID are a function of the definitions by name |
| Definitions.SweptLoadsTheSame | internal/filestore/files.go:49-69 | removing staging directories changes nothing that loads |
| Definitions.ListDirs | internal/filestore/files.go:49-69 | the names are all entries but staging directories, which are removed where they can be |
| Definitions.Load | internal/filestore/kernels.go:27-40 | loading gives exactly the definitions that are where their names say, rightly indexed if IDs are unique |
| Definitions.LoadRestores | internal/filestore/kernels.go:27-40 | loading files that hold a table gives that table, index and all |
| StoreProofs.PresentIff | internal/filestore/instances.go:206-225 | references that resolve are all names of what is there if and only if none is an ID only |
| StoreProofs.CreateInstanceKeepsIff | internal/filestore/instances.go:46-70 | an accepted instance keeps all references present if and only if it names by name, and all IDs right if and only if its own is new |
| StoreProofs.UpdateInstanceKeepsIff | internal/filestore/instances.go:86-104 | an accepted update keeps references if and only if it names by name, and IDs if and only if it keeps its own |
| StoreProofs.RenameInstanceKeepsIff | internal/filestore/instances.go:106-144 | the same of an accepted rename |
| StoreProofs.CreateSnapshotKeepsIff | internal/filestore/snapshots.go:60-86 | the same of an accepted snapshot and the definition it keeps |
| StoreProofs.CreateResourceKeepsIff | internal/filestore/networks.go:42-60 | a new kernel, network or volume keeps references, and IDs if and only if its own is new |
| StoreProofs.UpdateKernelKeepsIff | internal/filestore/kernels.go:76-90 | the same of a kernel's update |
| StoreProofs.DeletesKeep | internal/filestore/kernels.go:92-123 | every delete the store allows keeps references by name and IDs |
| StoreProofs.DeleteKeepsResolvingIff | internal/filestore/volumes.go:76-107 | a delete leaves every reference resolving if and only if none names what is deleted by an ID that is not a name |
| StoreProofs.ReferenceByIDDangles | internal/filestore/kernels.go:94-123 | an instance that names its kernel by ID is accepted, and then so is deleting the kernel, which leaves it without one |
| StoreProofs.AttemptKeeps | internal/filestore/store.go:43-47 | whatever becomes of an operation, refused, failed or done, the memory invariant is kept |
| StoreProofs.RunKeeps | internal/filestore/store.go:35-65 | over every sequence of operations, any of them refused or failing, no stored instance or snapshot names what is not there, and every ID leads to the one definition with it |
| StoreProofs.CreateInstanceDisks | internal/filestore/instances.go:61-69 | each disk of a create loads as the state before or after |
| StoreProofs.UpdateInstanceDisks | internal/filestore/instances.go:99-103 | each disk of an update loads as the state before or after |
| StoreProofs.RenameInstanceDisks | internal/filestore/instances.go:127-137 | after the move and before the rewrite the instance loads under neither name |
| StoreProofs.DeleteInstanceDisks | internal/filestore/instances.go:146-165 | an instance whose directory is partly removed loads as deleted |
| StoreProofs.StageSnapshotDisks | internal/filestore/snapshots.go:49-58 | a staging directory does not load |
| StoreProofs.CreateSnapshotDisks | internal/filestore/snapshots.go:76-85 | a snapshot is whole or absent at every point of its creation |
| StoreProofs.DeleteSnapshotDisks | internal/filestore/snapshots.go:114-132 | a snapshot whose directory is partly removed loads as deleted |
| StoreProofs.PutResourceDisks | internal/filestore/files.go:111-118 | a definition written is a definition loaded |
| StoreProofs.DropResourceDisks | internal/filestore/files.go:120-127 | a definition removed is not loaded |
| StoreProofs.PlanDisks | internal/filestore/store.go:43-47 | every disk of every operation loads as memory before or after it, but for the middle of a rename |
| StoreProofs.WriteThrough | internal/filestore/store.go:4-5 | after any operation the files hold what is in memory if and only if it is not a rename or a directory removal of which exactly one filesystem call succeeds |
| StoreProofs.ReopenRestores | internal/filestore/store.go:68-114 | opening files that hold what is in memory gives the same maps and indexes |
| StoreProofs.ReopenedIsSynced | internal/filestore/store.go:68-114 | a store just opened is in step with the files it has left |
| StoreProofs.CrashIsAllOrNothing | internal/atomicfile/atomicfile.go:14-48 | a crash at any point of any operation but a rename, then opening, gives memory as before or as after it |
| StoreProofs.CrashedRenameLosesInstance | internal/filestore/instances.go:129-137 | a crash between a rename's move and rewrite loses that instance and nothing else |
| StoreProofs.RunIsDurable | internal/filestore/store.go:4-12 | after every run in which nothing stopped halfway, opening gives what is in memory |
| StoreOutcomes.FindIs | internal/filestore/instances.go:73-84 | a key is found if and only if something has it for a name or an ID, and a name comes first |
| StoreOutcomes.ResolvesIffFound | internal/filestore/instances.go:209-225 | references resolve if and only if the kernel, the network and the source of every volume mount are found |
| StoreOutcomes.InUseIffUsed | internal/filestore/volumes.go:86-96 | in use is: the kernel, the network or a volume mount of some stored instance or snapshot |
| StoreOutcomes.IntegrityIsServed | internal/filestore/instances.go:206-225 | the references invariant field by field: kernel, network and every volume mount of every stored instance and snapshot are there |
| StoreOutcomes.RunServes | internal/filestore/store.go:35-65 | so after every sequence of operations |
| StoreOutcomes.LookupAfter | internal/filestore/instances.go:73-84 | what is stored is found by its name, and by its ID unless that is a name; what is renamed or deleted is not found under its old name unless that is the ID of another |
| StoreOutcomes.CreateInstanceOutcome | internal/filestore/instances.go:48-70 | without an error the name leads to the given definition, every other name where it did, and the other kinds are as they were; each error if and only if it is due, in the source's order; with an error memory is as it was |
| StoreOutcomes.UpdateInstanceOutcome | internal/filestore/instances.go:88-104 | the same of an update |
| StoreOutcomes.RenameInstanceOutcome | internal/filestore/instances.go:108-144 | the same, with the new name leading to the renamed definition and the old one nowhere; a rename to its own name does nothing |
| StoreOutcomes.DeleteInstanceOutcome | internal/filestore/instances.go:148-165 | without an error nothing has the name or the ID of what the key meant, its directory is gone, and all else is as it was; not found if and only if nothing has the key |
| StoreOutcomes.StageSnapshotOutcome | internal/filestore/snapshots.go:52-58 | a new staging directory and nothing else |
| StoreOutcomes.CreateSnapshotOutcome | internal/filestore/snapshots.go:64-86 | the same as for an instance, with the staging directory gone |
| StoreOutcomes.DeleteSnapshotOutcome | internal/filestore/snapshots.go:115-132 | the same as for an instance |
| StoreOutcomes.CreateResourceOutcome | internal/filestore/networks.go:44-60 | the same of a kernel, a network or a volume |
| StoreOutcomes.UpdateKernelOutcome | internal/filestore/kernels.go:77-90 | the same of a kernel's update |
| StoreOutcomes.DeleteResourceOutcome | internal/filestore/networks.go:78-107 | the same of a delete, refused as in use if and only if a stored instance or snapshot names it |
| StoreLifetimes.AnyPlanWithin | internal/filestore/store.go:43-47 | after every filesystem call of every operation the files lack at most instances and snapshots, never what they name |
| StoreLifetimes.OpenedIsRight | internal/filestore/store.go:68-114 | opening the store on files something stopped halfway left gives right references and indexes again, in step with the files |
| StoreLifetimes.LifeKeeps | internal/filestore/store.go:35-114 | over every life of the store, with failures, crashes at any point and restarts, references and indexes stay right |
| StoreLifetimes.SmoothLifeLosesNothing | internal/filestore/store.go:4-12 | over every life in which nothing stops halfway, a restart changes nothing and a crash leaves all or nothing of the operation it hit |
| StoreObject.Names | internal/instance/instance.go:205-215 | whether a definition names this kernel, network or volume, by its fields |
| StoreObject.FileStore.constructor | internal/filestore/store.go:71-114 | memory is what the disk loads as, and staging directories are gone where they can be |
| StoreObject.FileStore.CheckReferences | internal/filestore/instances.go:209-225 | whether every reference is found by name or ID |
| StoreObject.FileStore.IsInUse | internal/filestore/kernels.go:102-112 | whether any stored instance or snapshot has the name among its references |
| StoreObject.FileStore.CreateInstance | internal/filestore/instances.go:48-70 | memory, disk and error are the operation's for any number of filesystem calls that succeed: which definition each name then leads to, and each error exactly when due; an allowed call keeps references and indexes right |
| StoreObject.FileStore.UpdateInstance | internal/filestore/instances.go:88-104 | the same: without an error the name leads to the definition given and nothing else changes |
| StoreObject.FileStore.RenameInstance | internal/filestore/instances.go:108-144 | the same, with the directory moved before the definition is rewritten, and the old name leading nowhere |
| StoreObject.FileStore.DeleteInstance | internal/filestore/instances.go:148-165 | the same, with a removal that may stop after the definition is gone, and nothing left with the name or the ID |
| StoreObject.FileStore.StageSnapshot | internal/filestore/snapshots.go:52-58 | the same; memory does not change |
| StoreObject.FileStore.CreateSnapshot | internal/filestore/snapshots.go:64-86 | the same, written in the staging directory and then moved |
| StoreObject.FileStore.DeleteSnapshot | internal/filestore/snapshots.go:115-132 | the same |
| StoreObject.FileStore.CreateResource | internal/filestore/volumes.go:44-60 | the same, for a kernel, a network or a volume |
| StoreObject.FileStore.UpdateKernel | internal/filestore/kernels.go:77-90 | the same |
| StoreObject.FileStore.DeleteResource | internal/filestore/kernels.go:94-123 | the same, refused while in use |
| Dependencies.WalkFalls | internal/compose/project.go:124-158 | along a chain of dependencies, places in an order with dependencies first strictly fall |
| Dependencies.OrderedIsAcyclic | internal/compose/build.go:147-195 | a graph that can be listed with dependencies first has no cycle |
| Dependencies.OrderHasReachable | internal/compose/project.go:124-158 | such a list has whatever its members depend on, however far |
| DependencyCheck.Search.Visit | internal/compose/build.go:167-187 | finds a real, simple cycle, or finishes the service with all it reaches and leaves the path as it was |
| DependencyCheck.Search.Enter | internal/compose/build.go:167-175 | the path stays the chain of services being visited |
| DependencyCheck.Search.Leave | internal/compose/build.go:182-187 | a finished service comes after all it depends on |
| DependencyCheck.CycleFound | internal/compose/build.go:168-172 | the end of the path from a service met again, closed, is a cycle of the graph |
| DependencyCheck.CheckNames | internal/compose/build.go:147-157 | the first pass refuses exactly self-dependencies and unknown services, and reports the first there is |
| DependencyCheck.CheckDependencies | internal/compose/build.go:145-195 | accepts a graph if and only if every dependency exists and there is no cycle; reports a cycle, really there, if and only if nothing depends on itself or on what is missing, and otherwise the first dependency that does |
| ServiceOrder.Search.Visit | internal/compose/project.go:138-150 | what it visits and lists is what the recursive search gives: the service after all it depends on, keeping what is there |
| ServiceOrder.Order | internal/compose/project.go:124-158 | the order of the recursive search from the names in turn: no duplicates, exactly the services reachable from them, each after all it depends on; the first unknown name is refused and nothing else |
| ServiceOrder.OnlyKeepsOrder | internal/compose/project.go:160-171 | picking named services out of an order keeps the order and loses no named one |
| ServiceOrder.Select | internal/compose/project.go:160-171 | exactly the services named, picked out of the very order Order gives for these names |
| Converge.StepKeeps | internal/cli/compose_up.go:311-328 | every step of every goroutine keeps the invariant |
| Converge.RunKeeps | internal/cli/compose_up.go:298-330 | so does every interleaving |
| Converge.SomeoneCanMove | internal/cli/compose_up.go:298-330 | until all outcomes are done, the first service in order that is not can take a step |
| Converge.ConvergeFinishes | internal/cli/compose_up.go:298-330 | no deadlock and no endless run |
| Converge.UpOnlyWhenReady | internal/cli/compose_up.go:311-328 | a service is brought up only after every dependency came up and its own wait for each condition ended well |
| Converge.FailureStopsDependents | internal/cli/compose_up.go:311-328 | no service that depends on a failed one, however far, is ever brought up |
| Converge.FirstError | internal/cli/compose_up.go:332-343 | the first failure in the order of the services, or none if all came up |
| Converge.FirstErrorIsRootCause | internal/cli/compose_up.go:332-343 | that error is never that a dependency did not come up, and everything that service depends on came up |
| Converge.UpIsAsAnswered | internal/cli/compose_up.go:319-327 | over every run a service has come up if and only if its `up` answered without an error, has failed of it if and only if that answered with one, and counts as called if and only if it was |
| Converge.MetIsAsAnswered | internal/cli/compose_up.go:311-318 | a condition counts as met for a service if and only if its own wait for it answered so |
| Converge.StoppedAsAnswered | internal/cli/compose_up.go:311-318 | a service fails of a condition only if its own wait for it ended badly, and of a dependency only if it saw that one failed |
| Converge.AnswersStop | internal/cli/compose_up.go:311-318 | and whenever its wait ends badly, or it sees a dependency failed, it fails of that |
| Converge.NoErrorIffAllUp | internal/cli/compose_up.go:332-343 | there is no error at the end if and only if every `up` was called and answered without one |
| Converge.FailedUpStopsDependents | internal/cli/compose_up.go:311-328 | if an `up` answers with an error, that of no service depending on it, however far, is ever called |
| Interpolation.Run | internal/compose/interpolate.go:26-66 | the loop over a builder computes the recursive meaning |
| Interpolation.NextPiece | internal/compose/interpolate.go:26-66 | one turn of the loop reads the first piece |
| Interpolation.FindClosing | internal/compose/interpolate.go:70-85 | the loop over a depth counter finds the closing brace |
| Templates.ReadingIsEvaluating | internal/compose/interpolate.go:26-137 | for every template tree, interpolating its printed form equals evaluating it, where each operator means what its own three cases say: unset, set and empty, set and not empty |
| Templates.VariablesAre | internal/compose/interpolate.go:16-25 | a plain or braced variable gives its value, and nothing when unset or empty |
| Templates.WrittenIs | internal/compose/interpolate.go:88-137 | an operator written with any balanced text for an argument gives what its meaning says of the variable and that text |
| Templates.ColonOperators | internal/compose/interpolate.go:88-137 | the three operators with a colon, each for a variable unset, empty and set: empty counts as unset, and the error of `?` names the variable and the message |
| Templates.PlainOperators | internal/compose/interpolate.go:88-137 | the three without: empty counts as set |
| Templates.LoneDollar | internal/compose/interpolate.go:26-66 | a dollar before anything else, or at the end, is itself |
| Templates.NoNameIsRefused | internal/compose/interpolate.go:88-100 | braces that do not start with a name are refused |
| Templates.NoOperatorIsRefused | internal/compose/interpolate.go:101-137 | a name and a colon alone are refused |
| Templates.BadOperatorIsRefused | internal/compose/interpolate.go:101-137 | so is a name followed by any other character |
| Templates.DoubledReadsBack | internal/compose/interpolate.go:26-66 | any text with every dollar doubled is read as itself |
| Templates.ArgumentMeansItselfIff | internal/compose/interpolate.go:70-137 | for each of the six operators, a text written with its dollars doubled as the argument means itself if and only if its braces balance |
| Templates.DoubledBraceFails | internal/compose/interpolate.go:70-85 | a default of one doubled dollar and an open brace is refused |
| ShellWords.Split | internal/compose/file.go:363-420 | the loop computes the scanner |
| ShellWords.ShellJoin | internal/cli/instance_details.go:304-314 | the loop computes the printer |
| ShellWords.BareIff | internal/cli/instance_details.go:304-314 | an argument is written as it is if and only if it is not empty and has none of the twenty-three special characters |
| ShellWords.SplitUndoesJoin | internal/compose/file.go:363-420 | splitting what was joined succeeds and gives back every list of arguments |
| ShellGrammar.SplitIsGrammar | internal/compose/file.go:360-420 | splitting gives these words if and only if the text is a line of the grammar with these words |
| ShellGrammar.SplitGivesOutcome | internal/compose/file.go:363-420 | every line of the grammar is split into its words, and of a line with an unfinished end the error says which: an open quote of either kind, or a last backslash |
| ShellGrammar.FindLine | internal/compose/file.go:363-420 | every text is a line of the grammar or one with an unfinished end, so the outcome of every text is given |
| ShellGrammar.ScanLine | internal/compose/file.go:371-407 | from any state between elements, the scanner collects the words of the line |
| EditDistance.Compute | internal/cli/suggest.go:83-110 | the table computes the recursive distance with adjacent swaps |
| EditDistance.FillRow | internal/cli/suggest.go:94-108 | one row more of the table is the distance of the prefixes |
| EditDistance.Cell | internal/cli/suggest.go:94-108 | a cell is the distance of its prefixes, from its neighbours |
| EditDistance.DistanceIsLeast | internal/cli/suggest.go:80-110 | no alignment costs less than the distance |
| EditDistance.DistanceIsReached | internal/cli/suggest.go:80-110 | some alignment costs just that |
| EditDistance.Symmetric | internal/cli/suggest.go:80-110 | the distance is symmetric |
| EditDistance.ZeroIffEqual | internal/cli/suggest.go:80-110 | it is zero if and only if the strings are equal |
| EditDistance.Bounds | internal/cli/suggest.go:80-110 | it is at least the difference of the lengths and at most the longer |
| Merges.AddNew | internal/compose/load.go:269-274 | the innermost loop takes the pairs whose keys are not taken yet |
| Merges.AddAll | internal/compose/load.go:265-275 | the loop over merged mappings: the first to set a key wins |
| Merges.MergePairs | internal/compose/load.go:246-277 | the loops over a mapping's pairs |
| Merges.ApplyMerges | internal/compose/load.go:238-278 | the recursion over the whole tree |
| MergeProofs.AppliedIsFlat | internal/compose/load.go:238-278 | what is left of a mapping is the pairs it keeps and those it gets from the mappings it merges, flattened first, with their children done |
| MergeProofs.AppliedIsMergeFree | internal/compose/load.go:235-278 | no merge key is left anywhere, whatever the tree |
| MergeProofs.FindIsFirst | internal/compose/load.go:238-278 | what a key is read as is the value of the first ordinary pair with it, and nothing only if there is none |
| MergeProofs.MergeFreeIsFixed | internal/compose/load.go:238-278 | a tree without merge keys is not changed |
| MergeProofs.TwiceIsOnce | internal/compose/load.go:238-278 | a second run changes nothing, whatever the tree |
| MergeProofs.AppliedReads | internal/compose/load.go:235-278 | what every key of every done mapping is read as, keys spelt like the merge key and merge keys spelt otherwise included |
| MergeProofs.AppliedMeans | internal/compose/load.go:235-278 | every key but one spelt like the merge key reads as the mapping's own value, or else as the first a merged mapping gives, unless a merge key is tagged by hand and spelt so |
| MergeProofs.TaggedMeansIff | internal/compose/load.go:246-250 | a merge key of a mapping, spelt like another key, changes what that key means if and only if the key is merged and not the mapping's own |
| MergeKeys.QuotedMeansIff | internal/compose/load.go:246-250 | an ordinary key spelt like the merge key keeps its meaning if and only if no mapping merged before it gives it another value |
| MergeKeys.UniqueIff | internal/compose/load.go:246-277 | the keys of a mapping stay unique if and only if it has no key spelt like the merge key both of its own and merged |
| MergeKeys.StaysUniqueIff | internal/compose/load.go:235-278 | the keys stay unique throughout a tree if and only if no mapping still there has both |
| MergeKeys.UnquotedMeans | internal/compose/load.go:235-278 | without ordinary keys so spelt, every key keeps its meaning |
| MergeKeys.UnquotedStaysUnique | internal/compose/load.go:235-278 | where ordinary keys are unique and none is spelt like the merge key, keys stay unique throughout the tree |
| MergeKeys.QuotedKeyDoubles | internal/compose/load.go:246-250 | a mapping with both, whose key is left twice |
| MergeKeys.QuotedKeyMisread | internal/compose/load.go:253-258 | a mapping whose own key so spelt reads as the merged one's |
| MergeKeys.TaggedKeyHides | internal/compose/load.go:246-250 | a mapping whose merge key, tagged by hand and spelt foo, hides the foo it merges |
| Subnets.OverlapIsShared | internal/compose/subnet.go:37-45 | two prefixes overlap if and only if they share an address |
| Subnets.ContainsIsInterval | internal/compose/subnet.go:20-48 | a prefix is the interval of addresses from its masked one |
| Subnets.MaskedContains | internal/compose/subnet.go:20-30 | masking does not change which addresses a prefix has |
| Subnets.IsFree | internal/compose/subnet.go:37-45 | the inner loop: whether a candidate overlaps none of those used |
| Subnets.CandidateIs | internal/compose/subnet.go:28-35 | the candidates are 10.213.0.0/24, 10.213.1.0/24 and so on, each of 256 addresses |
| Subnets.CandidatesTile | internal/compose/subnet.go:11-16 | they share the addresses of 10.213.0.0/16 out among them, each to exactly one |
| Subnets.LowestIsLeast | internal/compose/subnet.go:18-20 | the lowest free candidate is the /24 of least address in the pool that shares none with any prefix taken |
| Subnets.FreeSubnet | internal/compose/subnet.go:20-48 | the /24 of least address in 10.213.0.0/16 that shares no address with any IPv4 prefix taken, and an error if and only if all 256 do |
| Subnets.CreateNetwork | internal/cli/compose_up.go:204-244 | each subnet tried is the lowest free of those turned away and those listed, and each way of ending says why: made, sixteen turned away, the name listed, none free, or the daemon failing |
| Subnets.IsListed | internal/cli/compose_up.go:223-228 | whether a network of the name is listed |
| Subnets.TriesAreNew | internal/cli/compose_up.go:204-244 | the subnets one call tries are all different, and each shared no address with any network listed then |
| Subnets.AnswersDecide | internal/cli/compose_up.go:210-244 | the daemon's answers decide what is tried and how it ends |
| SparseCopy.IsZero | internal/diskfile/copy.go:116-123 | whether every byte is zero |
| SparseCopy.Output.WriteAt | internal/diskfile/copy.go:100-103 | byte by byte: the block where it is written, what was there elsewhere, and zeroes in a hole past the end |
| SparseCopy.Output.Truncate | internal/diskfile/copy.go:89-90 | byte by byte: what was there, up to the size, and zeroes beyond |
| SparseCopy.CopyRange | internal/diskfile/copy.go:93-114 | it succeeds if and only if every chunk can be read, and written unless it is all zeroes; the output is then the input so far, short of zeroes only, and reaches the end if and only if the last chunk is not all zeroes |
| SparseCopy.WritesOkIff | internal/diskfile/copy.go:93-114 | a range can be copied if and only if each of its chunks, one every mebibyte, can be read, and written unless it is all zeroes |
| SparseCopy.LastChunkIs | internal/diskfile/copy.go:93-114 | the last chunk starts at the last whole number of mebibytes before the end |
| SparseCopy.WriteSome | internal/diskfile/copy.go:97-110 | of a chunk whose read fails, what was read may be written, and nothing else changes |
| SparseCopy.CopyAll | internal/diskfile/copy.go:58-91 | it succeeds if and only if its reads and writes do; the output is then the input, short of trailing zeroes only, and exactly the input if and only if the filesystem's answers lead to sizing the file or the last chunk read is not all zeroes |
| SparseCopy.FallbackLosesTrailingZeroes | internal/diskfile/copy.go:76-79 | the copy of one zero byte without SEEK_DATA succeeds and is empty |

## Left out

- JSON encoding of events is a parameter, with the law that decoding undoes encoding and that no proper prefix of a document is one; YAML encoding of definitions is the identity.
- Event times are integers and need not be monotone; nothing is claimed about their order.
- A crash is the daemon stopping between two filesystem calls; loss of written data in a power failure, and what fsync does about it, is not modelled.
- EventLogObject.Log.Record: states the list, the counters and the queue; passing the event to subscriptions, which the same critical section does, is in Subscriptions.
- The readers of the store between the critical sections of one operation: states are those at operation boundaries, so a lookup during a rename that finds neither name is not modelled.
- Definitions.Find: an index entry that leads to no definition, which the source answers with an empty definition, is excluded by the index invariant it requires.
- StoreObject.FileStore.IsInUse: does not say which instance or snapshot the error names; the source takes the first in order of name.
- Tokens in the store: their operations are those of kernels without the in-use checks.
- Removing a staging directory that was never moved into place: its caller does it, and it never loads.
- Definitions.Load: an unreadable file and a malformed one are the same entry, one that no definition can be read from.
- Merges.ApplyMerges: gives the new tree and does not rewrite the nodes' content in place; expandAliases and deepCopy, which run before it, are not modelled.
- MergeProofs.AppliedMeans: requires that no merge key in the tree is spelt like the key; a parser gives the merge tag to no other spelling, MergeProofs.AppliedReads says what is read where one was tagged by hand, and MergeProofs.TaggedMeansIff when that differs.
- Subnets.FreeSubnet: takes prefixes already parsed, or the fact that one did not parse, and gives the candidate's number; the text of prefixes is not modelled.
- ShellWords.ShellJoin: quotes one argument with a recursive function, where the source calls the standard library's ReplaceAll.
- Converge.ConvergeFinishes: takes bringing a service up and waiting for a condition as steps that end, in success or failure; a wait that never ends is not modelled.
- SparseCopy.CopyAll: takes the input as not changing during the copy and writes as failing or succeeding whole; permissions, and removing a partial copy, are not modelled.
- The gRPC client and conversions, CLI output, DNS, authentication, archives, and the instance, image, network and hypervisor managers: field copies, table lookups and calls into other programs.
