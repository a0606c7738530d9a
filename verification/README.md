# An MMS engine in Dafny

This project models the hard core of an MMS engine written in C and proves properties of it:
the dispatcher of network tasks, the message codec, and a number of algorithms with loops and
arithmetic.

## How it is built

- **Values first.** Each state machine is a datatype with step functions that make the same
  choices as the code. What comes from outside (answers of handlers, the clock, the size of a
  file, the device behind the write buffer) is a parameter of the step, so every lemma holds
  for all of it.
- **Then the code's own form.** Code that changes things in place is a class or a method with
  loops, proved to do what the functions say; what the functions keep, the objects keep.
- **Then the properties**, as lemmas about the functions: for every input, every run, every
  reachable state.

| files | what they model |
|---|---|
| Tasks, TaskLife, TaskEffects, TaskObject | one task: states, wakeups, transfers, notices, the tasks it queues |
| TaskOrder, MergeSort | the comparator of the queue and sorting with it |
| DispatcherModel, DispatcherSafety, DispatcherTasks, DispatcherCycle, DispatcherObject, Sums | queue, active task, connection, idle timer, run loop |
| NemoModel, NemoSafety, NemoStates, NemoObject | the connection that reserves and releases a SIM |
| Wsp, FileBuffer | encoded numbers (sections 8.1.2 and 8.4.2 of WAP-230-WSP), the write buffer |
| MediaType, MediaGrammar, MediaScanner | media types (section 3.7 of RFC 2616) |
| MultipartBody, PartHeader, MultipartWriter, ContentTypeHeader | the multipart body (section 8.5 of WAP-230-WSP) |
| HeaderTable, HeaderParser | the table-driven acceptor of headers |
| Dates | dates as Long-integers |
| Addresses, AddressHeaders, AddressMethods | address lists out and in |
| EncodeJob, Resampler | making a message small enough, and the image resampler |
| Transfers, TransferObject | update requests with two levels of cached flags |
| FileNames, NameTable | names and ids of received parts |
| Common | small shared types |

## What came out of it

Some expectations do not hold of the code as it is. Each of these is a lemma that says exactly
when the code meets the expectation:

- The comparator of the queue deviates from the lexicographic order exactly on skewed pairs: two
  tasks in the same connection-needing state and of the same priority, of which only the younger
  wants the open connection (`TaskOrder.CompareIsLexicographic`). It is transitive on a queue
  exactly when no third task closes a cycle with such a pair (`TaskOrder.TransitiveExactly`), and
  there is a run in which a queue is sorted on which it is not (`DispatcherCycle.CycleReached`).
- A media type is printed so that it can be parsed again exactly when no value has a backslash
  (`MediaType.RoundTrip`). A tab is white space between tokens, but RFC 2616 would also have it
  inside quoted strings (`MediaType.TablesAreRight`).
- The announced length of the headers of a part is right exactly when its content type has at
  most one charset and at most one name (`PartHeader.HeadersLengthExact`). The Content-Type
  header of the message has no such limit (`ContentTypeHeader.ValueSpan`).
- A date survives exactly in the first 2^31 seconds (`Dates.DateRoundTrip`).
- A transfer that cannot be started may leave a started notice without an answer
  (`TaskLife.LeftStarted`), and only the way the run loop lets the task go keeps it from
  reporting its outcome twice (`TaskLife.CancelWouldRepeat`).
- mms_connection.h documents two sequences of connection states. The Nemo connection can also go
  from OPENING to CLOSED. A run announces one of the two sequences exactly when its context is
  never reported inactive while it is being opened (`NemoStates.EveryRunDocumented`), and there
  is a run in which it is (`NemoStates.SkipExample`): one that says "inactive" of a context that
  was inactive already. Real changes of the active property never skip OPEN
  (`NemoStates.FlipsDocumented`). The model follows the code.
- A list of addresses survives if each of them starts with an octet of at least 32 that is not
  127; and only then, unless the first address that is misread happens to be a text in a character
  set other than UTF-8 (`AddressHeaders.AddressesSurvive`).
- The location of a part is read back exactly when it is empty or starts with an octet of at
  least 32 that is not 127 (`PartHeader.PartParsed`), and its copy as a file name exactly when it
  starts with one from 32 to 126 (`PartHeader.FileNameRead`).
- Scaling divides by zero exactly when the codec leaves an image to the resampler of which nothing
  would be left, unless it has no pixels in either direction (`Resampler.Image.Resize`);
  `Resampler.LeftExactly` says when nothing would be left. That takes a codec that accepts an
  empty output. The one for JPEG, the only one there is, cannot start to compress an image without
  pixels and refuses (mms-lib/src/mms_attachment_jpeg.c:118-128), so there it does not happen: an
  image one pixel wide, which its first step empties (`Resampler.OneColumnEmptied`), is just not
  resized.
- A cookie that is given out again while it is live makes the cached flags wrong exactly when
  something is forgotten with it (`Transfers.EnableAgrees`).

`dafny verify dfyconfig.toml` checks the project. Every induction is written out, so adding
`--manual-lemma-induction` makes no difference.

## Model

| member | source | states |
|---|---|---|
| DispatcherSafety.EveryRun | mms-lib/src/mms_dispatcher.c:251-284 | After any sequence of events with any answers of the outside world: nothing is active between steps; at most one task is transmitting, over the dispatcher's own connection, which is open and has that task's IMSI; the idle timer is armed only with a connection and nobody using the network; every task ever created is in exactly one of queue and released list, and released tasks are finished |
| DispatcherSafety.StepOk | mms-lib/src/mms_dispatcher.c:405-530 | Every single step (push, run, connection change, idle timeout, cancel, task event, start) keeps the invariant of the whole system |
| DispatcherSafety.EveryRunInv | mms-lib/src/mms_dispatcher.c:405-530 | The invariant holds after every run |
| DispatcherSafety.NoLostWakeup | mms-lib/src/mms_dispatcher.c:727-738 | Unless a run is due, or something was queued from outside since the last run, the queue is empty or its first task waits for the outside world |
| DispatcherSafety.NothingLeftToRun | mms-lib/src/mms_dispatcher.c:405-461 | When a run ends with a waiting task in front, no task of a higher priority is left and every task of that priority is waiting too |
| DispatcherSafety.DoneMeansDone | mms-lib/src/mms_dispatcher.c:72-89 | The delegate is told that all is done at most once a step and at most once for each start, and then the queue and the connection are gone and every task ever created, children included, was released exactly once |
| DispatcherSafety.StepTells | mms-lib/src/mms_dispatcher.c:72-89 | In a step without a start the delegate is told nothing, or once with the dispatcher started before and stopped and empty after |
| DispatcherSafety.StepToldExactly | mms-lib/src/mms_dispatcher.c:72-89 | In a step that looks whether everything is done (a run, a lost connection, an idle timeout, cancelling everything, a connection manager that is done) the delegate is told exactly when the dispatcher was started, nobody is busy and neither tasks nor a connection are left, and exactly then the dispatcher stops; in the other steps nothing is told and nothing stops |
| DispatcherSafety.EveryRunTells | mms-lib/src/mms_dispatcher.c:72-89 | After any sequence of events a started dispatcher with no task and no connection left is about to run, or waits for somebody who was busy and has not said since that he is done; and one that was started and is not any more has told its delegate |
| DispatcherSafety.StartExactly | mms-lib/src/mms_dispatcher.c:531-548 | Starting with a root directory and something to do schedules a run, counts a start and changes neither tasks nor connection; otherwise nothing happens |
| DispatcherSafety.IdleAfterRun | mms-lib/src/mms_dispatcher.c:517-527 | After a run the idle timer is armed exactly when there is a connection that no task uses or wants |
| DispatcherTasks.NoTaskLost | mms-lib/src/mms_dispatcher.c:488-500 | Whatever happens, every task that the dispatcher has stays with it, queued or let go, with its number, kind, SIM and message id (a notification may take the id it is answered with); once let go it does not change any more |
| DispatcherTasks.DecodedIsPublished | mms-lib/src/mms_task_decode.c:270-277 | After any sequence of events in which what was downloaded could be decoded, every decoding task that was let go uncancelled has its message published by a task for the same message and SIM, and acknowledged by another |
| DispatcherTasks.NewChild | mms-lib/src/mms_dispatcher.c:550-558 | Whatever a task that is run has cause to queue is in the queue after its turn, for the same message and SIM |
| DispatcherTasks.EventChild | mms-lib/src/mms_dispatcher.c:550-558 | Whatever a task has cause to queue when something reaches it is in the queue after that, ready, with the id, the SIM and a lifetime of 600 seconds from then |
| DispatcherTasks.CancelHitsOne | mms-lib/src/mms_dispatcher.c:684-707 | Cancelling a message ends exactly the tasks with its id and leaves all others, and the connection, as they are |
| DispatcherTasks.CancelHitsAll | mms-lib/src/mms_dispatcher.c:684-707 | Cancelling everything ends every task, and the connection is gone if it closes at once |
| DispatcherTasks.FirstGets | mms-lib/src/mms_dispatcher.c:405-461 | The first task of the sorted queue that needs a connection is picked if the right one is open, also if it is open already when it is asked for; it waits for one that is being opened or a wrong one that is closing; and it is over if there is none to be had |
| DispatcherTasks.SubmitExactly | mms-lib/src/mms_dispatcher.c:577-590 | What is pushed is the last in the queue: a new ready task with a number of its own and everything it was made of |
| DispatcherTasks.LossHits | mms-lib/src/mms_dispatcher.c:251-290 | When a connection is lost, exactly the tasks of its SIM that use or want the network are put to sleep, or are over if it is too late; the others are left alone |
| DispatcherSafety.LoopNeverDone | mms-lib/src/mms_dispatcher.c:467-530 | The run loop itself never tells the delegate and never stops the dispatcher |
| DispatcherSafety.RunLoopOk | mms-lib/src/mms_dispatcher.c:467-502 | The run loop keeps network safety and the books from any state and for any answers |
| DispatcherSafety.PickOk | mms-lib/src/mms_dispatcher.c:405-461 | Picking a task keeps network safety and the books, whatever it does to the connection |
| DispatcherSafety.DispatchOk | mms-lib/src/mms_dispatcher.c:474-502 | Running or transmitting the picked task and putting it away keeps network safety and the books |
| DispatcherSafety.PutAwayOk | mms-lib/src/mms_dispatcher.c:488-500 | A task that has run is released if it is DONE and queued again otherwise, never both |
| DispatcherSafety.ConnectionLostOk | mms-lib/src/mms_dispatcher.c:251-290 | Losing the connection leaves no task transmitting and the timer off |
| DispatcherSafety.CloseConnectionOk | mms-lib/src/mms_dispatcher.c:115-130 | Closing keeps network safety, whether the connection closes at once or later |
| DispatcherSafety.TaskStepOk | mms-lib/src/mms_dispatcher.c:712-738 | An event of one queued task keeps the invariant |
| DispatcherSafety.CancelStepOk | mms-lib/src/mms_dispatcher.c:684-707 | Cancelling one message or everything keeps the invariant |
| DispatcherSafety.QueueKeepsInv | mms-lib/src/mms_dispatcher.c:550-558 | Queueing new tasks keeps the invariant; new numbers are new |
| DispatcherModel.DispatchWeight | mms-lib/src/mms_dispatcher.c:474-502 | One turn of the run loop strictly decreases the total weight of the queue although tasks queue children and go from READY over NEED_CONNECTION to TRANSMITTING: the loop terminates |
| DispatcherModel.HandleWeight | mms-lib/src/mms_dispatcher.c:474-502 | A task run or transmitted weighs less afterwards, the weight of all the children it queues included; which those are, TaskEffects.ChildrenExactly says |
| DispatcherModel.PickWeight | mms-lib/src/mms_dispatcher.c:405-461 | Picking a task never increases the weight |
| DispatcherModel.PickedCanRun | mms-lib/src/mms_dispatcher.c:405-461 | A picked task is runnable, or needs a connection and the open one is for its IMSI |
| DispatcherModel.OneTurn | mms-lib/src/mms_dispatcher.c:474-502 | The loop as recursion: one pick, one dispatch, and the rest of the loop |
| TaskOrder.CompareIsLexicographic | mms-lib/src/mms_dispatcher.c:330-401 | Two tasks are compared in the lexicographic order of (transmitting, priority, wants this connection, runnable, wants a connection, creation) exactly when they are not a skewed pair: same connection-needing state and priority, open connection, and the younger one wants it; the comparator is antisymmetric and never says equal |
| TaskOrder.SkewMakesCycle | mms-lib/src/mms_dispatcher.c:357-372 | A skewed pair and any task that closes it, runnable or in the other connection-needing state, go round in a cycle |
| TaskOrder.CycleExactly | mms-lib/src/mms_dispatcher.c:330-401 | Three tasks make a cycle exactly when one of them closes a cycle with the other two, which are a skewed pair: it is runnable, or in the other connection-needing state and created on the right side of them |
| TaskOrder.TransitiveExactly | mms-lib/src/mms_dispatcher.c:330-401 | The comparator is transitive on a queue exactly when no task of it closes a cycle with a skewed pair of it |
| TaskOrder.CycleExample | mms-lib/src/mms_dispatcher.c:357-372 | A queue of three tasks on which the comparator is not transitive |
| DispatcherCycle.CycleReached | mms-lib/src/mms_dispatcher.c:357-372 | There is such a queue in a run: three tasks for two SIMs are submitted and ask for connections, a fourth one comes and the connection opens; the run that is then due sorts a queue on which the comparator is not transitive |
| TaskOrder.SortTasksIsChain | mms-lib/src/mms_dispatcher.c:409-412 | Sorting permutes the queue and leaves no neighbours the wrong way round, transitive or not |
| TaskOrder.SortedIsLexicographic | mms-lib/src/mms_dispatcher.c:330-401 | Without skewed pairs the sorted queue is in lexicographic order throughout |
| TaskOrder.TransmittingFirst | mms-lib/src/mms_dispatcher.c:336-341 | A transmitting task comes first while the connection is open, skewed pairs or not |
| TaskOrder.NothingOverlooked | mms-lib/src/mms_dispatcher.c:330-401 | If the first task waits, all of its priority wait and none has a higher one |
| MergeSort.SortIsChain | mms-lib/src/mms_dispatcher.c:409-412 | A stable merge sort, as g_list_sort of GLib, permutes and leaves no bad neighbours for any antisymmetric comparator |
| DispatcherObject.MmsDispatcher.RunLoop | mms-lib/src/mms_dispatcher.c:467-502 | The loop of mms_dispatcher_run in place equals the recursive run loop of the model |
| DispatcherObject.MmsDispatcher.Loop | mms-lib/src/mms_dispatcher.c:474-502 | Loop with the active task: new state equals what is left of the run loop, with a decreasing weight |
| DispatcherObject.MmsDispatcher.Run | mms-lib/src/mms_dispatcher.c:467-530 | A whole run: loop, network idle check, check for being done |
| DispatcherObject.MmsDispatcher.PickNextTask | mms-lib/src/mms_dispatcher.c:405-461 | Sorted queue, connection and answer decide the picked task as the model says |
| DispatcherObject.MmsDispatcher.UseConnection | mms-lib/src/mms_dispatcher.c:424-461 | A first task that needs a connection gets it, is put off, or is told there is no network |
| DispatcherObject.MmsDispatcher.Dispatch | mms-lib/src/mms_dispatcher.c:474-502 | Run or transmit, queue the children, release or queue again |
| DispatcherObject.MmsDispatcher.ConnectionLost | mms-lib/src/mms_dispatcher.c:251-290 | Every task of the lost connection is told; whole new state |
| DispatcherObject.MmsDispatcher.ConnectionStateChanged | mms-lib/src/mms_dispatcher.c:251-290 | A state change of the connection with its handler is one step of the model; the object stays valid |
| DispatcherObject.MmsDispatcher.NetworkIdleRun | mms-lib/src/mms_dispatcher.c:186-194 | The idle timeout is one step of the model; the object stays valid |
| DispatcherObject.MmsDispatcher.NetworkInUse | mms-lib/src/mms_dispatcher.c:517-527 | Whether some queued task uses the network |
| DispatcherObject.MmsDispatcher.QueueTasks | mms-lib/src/mms_dispatcher.c:550-558 | New tasks are appended with consecutive numbers |
| DispatcherObject.MmsDispatcher.Submit | mms-lib/src/mms_dispatcher.c:577-590 | A push from outside is one step of the model; the object stays valid |
| DispatcherObject.MmsDispatcher.StartTasks | mms-lib/src/mms_dispatcher.c:531-548 | Starting is one step of the model; the object stays valid |
| DispatcherObject.MmsDispatcher.NextRun | mms-lib/src/mms_dispatcher.c:225-236 | The scheduled run is one step of the model; the object stays valid |
| DispatcherObject.MmsDispatcher.CancelMessage | mms-lib/src/mms_dispatcher.c:684-707 | Cancelling is one step of the model; the object stays valid |
| DispatcherObject.MmsDispatcher.TaskEvent | mms-lib/src/mms_dispatcher.c:712-738 | An event of a task, with what the delegate does, is one step of the model; the object stays valid |
| DispatcherObject.MmsDispatcher.HandlerDone | mms-lib/src/mms_dispatcher.c:740-749 | A handler that is done is one step of the model; the object stays valid |
| DispatcherObject.MmsDispatcher.ConnManDone | mms-lib/src/mms_dispatcher.c:754-763 | A connection manager that is done is one step of the model; the object stays valid |
| TaskLife.EveryLife | mms-lib/src/mms_task_http.c:322-362 | Whatever happens to an http task in whatever order (completion, stale completion, write error, lost network, retry past the deadline, start failure, cancel): its outcome was reported exactly once if it is DONE and never otherwise; started and finished notices alternate; a wakeup is pending exactly while it sleeps and never past the deadline |
| TaskLife.ApplyOk | mms-lib/src/mms_task_http.c:376-426 | Every operation keeps the invariant of a task, or leaves it finished and let go |
| TaskLife.HttpFinishedOk | mms-lib/src/mms_task_http.c:376-426 | A completion, stale or not, keeps the invariant and ends in the same state, SLEEP or DONE |
| TaskLife.HttpWriteErrorOk | mms-lib/src/mms_task_http.c:478-500 | A failed write of a received chunk puts the task to sleep or ends it |
| TaskLife.TransmitOk | mms-lib/src/mms_task_http.c:620-638 | A transmission that starts is TRANSMITTING; one that cannot start is finished with its outcome reported once |
| TaskLife.NetworkUnavailableOk | mms-lib/src/mms_task_http.c:651-663 | A task told that there is no network sleeps or is over |
| TaskLife.CancelOk | mms-lib/src/mms_task_http.c:665-674 | A cancelled task is DONE with its outcome reported once |
| TaskLife.RunOk | mms-lib/src/mms_task_notification.c:291-315 | Running a task of any kind keeps the invariant and never leaves it READY or TRANSMITTING |
| TaskLife.OnEventOk | mms-lib/src/mms_task.c:54-71 | Wakeups, completions and answers keep the invariant and never make a task need or use the network |
| TaskLife.CancelWouldRepeat | mms-lib/src/mms_task_http.c:620-638 | A start failure does not mark the transaction as over: cancelling the task then would report a second outcome; only letting it go at once prevents that |
| TaskLife.LeftStarted | mms-lib/src/mms_task_http.c:620-638 | An http task ends with a started notice unanswered exactly when a transfer could not be started while the transaction was still active from an earlier one |
| TaskLife.LeftStartedExample | mms-lib/src/mms_task_http.c:651-663 | That does happen: network lost during the first transfer, file gone at the second |
| TaskLife.SleepsAreBounded | mms-lib/src/mms_task.c:192-204 | With a retry interval of at least a second and clocks that do not go back a task sleeps at most (deadline - creation time) times |
| TaskLife.WholeLife | mms-lib/src/mms_task_http.c:749-775 | The same from creation on: for every life of every newly created task, and no wakeup is past the deadline that it was created with |
| TaskLife.WholeLifeSleeps | mms-lib/src/mms_task.c:181-206 | A newly created task sleeps at most (deadline - creation time) times in its whole life, both as they were at its creation |
| TaskEffects.OpLeaves | mms-lib/src/mms_task_http.c:376-426 | A table of every operation on every kind of task: the state it leaves, the wakeup (after the retry interval but not past the deadline), the deadline, the transfers still to be answered, and that cancelling marks |
| TaskEffects.OpTells | mms-lib/src/mms_task_http.c:322-362 | A table of what every operation on an http task tells: success and refusal as they are, a transfer that broke off is put off while there is time and cancelled after that, an I/O error for a failed start, the end of a transfer that was announced before the outcome, and nothing else |
| TaskEffects.WholeLifeTells | mms-lib/src/mms_task_http.c:322-362 | Over the whole life of a newly created http task its notices are those that its operations stand for, in order, with one outcome if it is over: the status of the operation that decided it |
| TaskEffects.ChildrenExactly | mms-lib/src/mms_task_decode.c:252-314 | An operation queues a task of a kind exactly when there is cause: Publish and Ack when a message was decoded, NotifyResp when it was not understood or not wanted in time, Retrieve when the handler wants it, Decode after a successful Retrieve and Send after encoding; never two of a kind, all with the SIM, message id, lifetime and priority they should have |
| TaskLife.FallAsleep | mms-lib/src/mms_task.c:72-113 | Each way of falling asleep costs at least a second, or the task is over |
| TaskLife.NewTaskOk | mms-lib/src/mms_task.c:181-206 | A new task of any kind satisfies the invariant |
| TaskObject.MmsTask.WakeUp | mms-lib/src/mms_task.c:60-71 | In place: the timer makes a sleeping task READY; the whole new state is the one of the model |
| TaskObject.MmsTask.Finished | mms-lib/src/mms_task_http.c:376-426 | In place: completion of the current or of a stale transfer; the whole new state is the one of the model |
| TaskObject.MmsTask.WriteFailed | mms-lib/src/mms_task_http.c:478-500 | In place: the chunk could not be written; the whole new state is the one of the model |
| TaskObject.MmsTask.NetworkUnavailable | mms-lib/src/mms_task_http.c:651-663 | In place: retry or cancel; the whole new state is the one of the model |
| MediaType.RoundTrip | mms-lib/src/mms_codec.c:382-432 | Parsing the printed form of a media type gives it back exactly when it is well formed (token type, subtype and attributes, any NUL-free values, empty, control and 8-bit characters included) and no value contains a backslash |
| MediaType.SpoiltThen | mms-lib/src/mms_codec.c:249-256 | A value with a backslash never comes back: the table counts the backslash as text, so it is printed unescaped and swallows what follows |
| MediaType.EscapedThen | mms-lib/src/mms_codec.c:319-338 | A value without a backslash that was escaped is read back to the closing quote |
| MediaType.ParameterThen | mms-lib/src/mms_codec.c:346-369 | One printed parameter is read back, whatever follows that ends a token |
| MediaType.ParsedWellFormed | mms-lib/src/mms_codec.c:382-403 | What the parser accepts is well formed |
| MediaGrammar.ParsesExactly | mms-lib/src/mms_codec.c:285-398 | The parser accepts exactly the strings of a grammar of tokens and quoted strings (with quoted pairs) with any white space, or none, wherever there may be some, and makes of them what they mean |
| MediaGrammar.FormParsed | mms-lib/src/mms_codec.c:333-369 | Every form of a media type is accepted, with and without white space, quoted or not |
| MediaType.TablesAreRight | mms-lib/src/mms_codec.c:208-284 | The tables of characters are those of RFC 2616: tokens without controls and separators, any text but the quote in quoted strings; but a tab is white space and no text |
| MediaType.BareOrQuoted | mms-lib/src/mms_codec.c:400-425 | Exactly the tokens are printed without quotes |
| MediaScanner.SkipSpacesAt | mms-lib/src/mms_codec.c:287-291 | Skips what the model skips |
| MediaScanner.ScanToken | mms-lib/src/mms_codec.c:306-317 | Token, position and failure as in the model |
| MediaScanner.ScanQuotedText | mms-lib/src/mms_codec.c:325-332 | The loop over a quoted string, quoted pairs resolved |
| MediaScanner.ScanQuotedString | mms-lib/src/mms_codec.c:319-338 | Quoted string with its quotes |
| MediaScanner.ScanParameters | mms-lib/src/mms_codec.c:346-369 | The loop over all parameters |
| MediaScanner.ParseContentType | mms-lib/src/mms_codec.c:382-403 | The whole parser equals the model |
| MediaScanner.IsHttpToken | mms-lib/src/mms_codec.c:293-304 | True exactly of nonempty strings of token characters |
| MediaScanner.QuoteIfNecessary | mms-lib/src/mms_codec.c:413-428 | Token as it is, anything else quoted |
| MediaScanner.UnparseContentType | mms-lib/src/mms_codec.c:405-432 | The whole printer equals the model |
| Wsp.UintvarRoundTrip | mms-lib/src/mms_codec.c:1715-1731 | A uintvar (section 8.1.2 of WAP-230-WSP) is read back with nothing of what follows |
| Wsp.ValueLengthRoundTrip | mms-lib/src/mms_codec.c:1697-1713 | A Value-length (section 8.4.2.2 of WAP-230-WSP) is read back, short or with a length quote |
| Wsp.UintvarFits | mms-lib/src/mms_codec.c:1715-1731 | A 32-bit number takes one to five octets, so the six octets that are reserved suffice |
| Wsp.UintvarShortest | mms-lib/src/mms_codec.c:1715-1731 | No fewer octets are read as the same number |
| Wsp.ValueLengthShort | mms-lib/src/mms_codec.c:1697-1713 | A length takes one octet exactly up to 30 |
| Wsp.OctetsMinimal | mms-lib/src/mms_codec.c:1793-1797 | No shorter sequence of octets stands for the same number |
| FileBuffer.Buffer.Flush | mms-lib/src/mms_codec.c:1613-1635 | Succeeds exactly when the device takes the buffer; what was emitted does not change |
| FileBuffer.Buffer.Request | mms-lib/src/mms_codec.c:1642-1659 | With a device that keeps up, space is given exactly for up to 256 octets; what was emitted before is kept in front of it |
| FileBuffer.Buffer.Put | mms-lib/src/mms_codec.c:1642-1659 | Request and copy append to what was emitted |
| FileBuffer.Buffer.PutField | mms-lib/src/mms_codec.c:1661-1673 | One marked token and its value are appended |
| FileBuffer.Buffer.Copy | mms-lib/src/mms_codec.c:1675-1695 | Data that bypass the buffer are appended behind it; succeeds exactly when the device takes buffer and data |
| FileBuffer.Buffer.PutUintvar | mms-lib/src/mms_codec.c:1715-1731 | The encoded number is appended |
| FileBuffer.Buffer.PutValueLength | mms-lib/src/mms_codec.c:1697-1713 | The encoded length is appended |
| FileBuffer.Buffer.GetFileSize | mms-lib/src/mms_codec.c:1637-1640 | Is the length of everything emitted |
| MultipartBody.BodyWalks | mms-lib/src/mms_codec.c:2336-2369 | A reader that uses only the part count and the two lengths of every entry recovers all headers and data in order at their offsets exactly when every announced header length is right |
| MultipartBody.EntryReads | mms-lib/src/mms_codec.c:2252-2261 | One entry is recovered exactly when its announced length is right |
| MultipartBody.WrittenAt | mms-lib/src/mms_codec.c:2252-2261 | The k-th recovered entry, without recursion |
| PartHeader.HeadersLengthExact | mms-lib/src/mms_codec.c:2084-2176 | The announced length of the headers is never too small, and right exactly when the content type has at most one charset and at most one name: every one is counted, the last one is written |
| PartHeader.TypeLengthExact | mms-lib/src/mms_codec.c:2117-2147 | The same for the Value-length of the content type |
| PartHeader.TypeSpan | mms-lib/src/mms_codec.c:2184-2214 | The Value-length of the content type spans exactly type, charset and name under the same condition |
| PartHeader.PartParsed | mms-lib/src/mms_codec.c:1276-1310 | A receiver of the headers of a part knows its content id, in angle brackets, and it knows the location that was sent exactly when that is empty or starts with an octet of at least 32 other than 127; then the headers are read to their end, as the message needs |
| PartHeader.ParsePart | mms-lib/src/mms_codec.c:1276-1310 | The loop over the headers of a part, up to the first value that cannot be taken or decoded, with what is left behind it |
| PartHeader.HeadersReceived | mms-lib/src/mms_codec.c:1338-1371 | Content type, charset, name, content id and location all come back from the headers of a part exactly when the location is one that does; a message whose type has a code without a name is refused |
| PartHeader.TypeReads | mms-lib/src/mms_codec.c:1334-1344 | A receiver of the value of a content type gets the name back, as it is or by its code, the number of the last charset and the last name |
| PartHeader.TypeTextParses | mms-lib/src/mms_codec.c:1373-1377 | The content type that is put together for an attachment, with ";charset=" and no space, is parsed as that type with that charset |
| PartHeader.CaseIgnored | mms-lib/src/mms_codec.c:2119-2144 | Parameters are recognized by their names in whatever case |
| PartHeader.IntegerShort | mms-lib/src/mms_codec.c:2126-2140 | A charset number takes one octet exactly below 128 |
| PartHeader.DispositionSays | mms-lib/src/mms_codec.c:2228-2244 | The disposition is octet 129 and the parameter with the number 6, which is the file name, as long as the location with its quote |
| PartHeader.FieldsRead | mms-lib/src/mms_codec.c:2216-2244 | Which values are taken off whole, as octets: content id, location and disposition are all found with their kinds and their octets exactly when the location starts with an octet of at least 32; what their text is, PartParsed says |
| PartHeader.IntegerRoundTrip | mms-lib/src/mms_codec.c:2126-2140 | A charset number is read back from its Integer-value, whatever comes behind it |
| PartHeader.DispositionReads | mms-lib/src/mms_codec.c:2228-2244 | The Value-length of the disposition spans exactly its octets |
| PartHeader.FileNameRead | mms-lib/src/mms_codec.c:2240-2243 | The file name in the disposition, which is not quoted, comes back exactly when the location starts with an octet from 32 to 126 |
| MultipartWriter.ReaderRecovers | mms-lib/src/mms_codec.c:2336-2369 | The body that is written is read back, headers, data and offsets of all parts, exactly when no content type has two charsets or two names |
| MultipartWriter.PartsReceived | mms-lib/src/mms_codec.c:1328-1388 | From end to end: with at most one charset and one name in each content type, a receiver of the written body gets the data of every part, its content type as it is or by its code, its charset and name, and its content id and location, exactly when the location is empty or starts with an octet of at least 32 other than 127 |
| MultipartWriter.WriteBody | mms-lib/src/mms_codec.c:2353-2369 | Writing through the 256-octet buffer succeeds exactly when every part can be encoded and the device takes the whole body; then the file holds the body and every attachment has the offset at which the reader finds its data |
| MultipartWriter.WriteEntries | mms-lib/src/mms_codec.c:2360-2364 | The loop over the attachments |
| MultipartWriter.WritePart | mms-lib/src/mms_codec.c:2252-2261 | Headers and data are appended and the offset is the position of the data |
| MultipartWriter.WriteHeader | mms-lib/src/mms_codec.c:2084-2250 | Succeeds when the part can be encoded and the device keeps up, and only then with the two lengths and the headers appended |
| MultipartWriter.MeasureType | mms-lib/src/mms_codec.c:2112-2144 | The computing loop: the length counts all charsets and names, the last ones are kept, an unknown charset fails |
| MultipartWriter.WriteType | mms-lib/src/mms_codec.c:2184-2214 | Value-length, type, charset and name are appended |
| MultipartWriter.WriteOthers | mms-lib/src/mms_codec.c:2216-2244 | Content id, location and disposition are appended |
| MultipartWriter.OffsetsRecovered | mms-lib/src/mms_codec.c:2252-2261 | The recorded offsets are those of the reader |
| ContentTypeHeader.ValueSpan | mms-lib/src/mms_codec.c:1932-2017 | The Content-Type header of a message, with any number of type and start parameters, is taken by a reader exactly to its end |
| ContentTypeHeader.HeaderReads | mms-lib/src/mms_codec.c:1932-2017 | A receiver of the Content-Type header of a message gets the type back, as it is or by its code, and all type and start parameters in order |
| ContentTypeHeader.ShortHeader | mms-lib/src/mms_codec.c:1976-1987 | The header is two octets exactly when the type has a code and no parameter is written |
| ContentTypeHeader.Measure | mms-lib/src/mms_codec.c:1953-1974 | The computing loop gives the length of exactly what will be written |
| ContentTypeHeader.WriteParameters | mms-lib/src/mms_codec.c:2003-2010 | The writing loop appends all parameters in order |
| ContentTypeHeader.EncodeContentType | mms-lib/src/mms_codec.c:1932-2017 | Succeeds when type and parameters fit and the device keeps up, only if they fit, and then with the header appended |
| Dates.DateRoundTrip | mms-lib/src/mms_codec.c:611-634 | Encoding and extracting a 64-bit date gives it back exactly when it is in [0, 2^31) |
| Dates.DateRead | mms-lib/src/mms_codec.c:1783-1818 | A reader takes the octets of a date, at least one, and nothing of what follows |
| Dates.DateShortest | mms-lib/src/mms_codec.c:1793-1797 | No other octets for the same date are fewer |
| Dates.EncodeDate | mms-lib/src/mms_codec.c:1783-1818 | The shortest big-endian octets with their count are appended |
| Dates.FillOctets | mms-lib/src/mms_codec.c:1803-1806 | The loop from the last octet to the first, with the arithmetic shift, gives the 64 bits of the date |
| Dates.ShortOctets | mms-lib/src/mms_codec.c:1807-1809 | Skipping zeros leaves the shortest form |
| Dates.ExtractDate | mms-lib/src/mms_codec.c:611-634 | The loop equals the number of at most four octets modulo 2^31 |
| Resampler.Image.Resize | mms-lib/src/mms_attachment_image.c:131-244 | For any image, limit and answer of the codec: every written line consists of the floor means of its blocks; resizing succeeds exactly when the codec agrees, all input can be read and all output is accepted, and then there are out.height lines and the step is remembered; it divides by zero exactly when the codec leaves an image to the resampler of which nothing would be left, and so never with a codec that refuses empty outputs, as the one for JPEG does |
| Resampler.Scale | mms-lib/src/mms_attachment_image.c:165-226 | Copying, averaging or division by zero, decided by the two sizes |
| Resampler.LeftExactly | mms-lib/src/mms_attachment_image.c:34-53 | Something is left of the image exactly when the smaller side is at least two more than the current step and the last step that leaves something is within the limit |
| Resampler.OneColumnEmptied | mms-lib/src/mms_attachment_image.c:34-53 | An image one pixel wide is emptied by its first step, whatever the limit |
| Resampler.Average | mms-lib/src/mms_attachment_image.c:186-226 | The averaging loop with its early ends: each octet is the floor of the mean of its nx by ny block, and the number of lines for any point at which reading or writing fails |
| Resampler.LinesWritten | mms-lib/src/mms_attachment_image.c:146-149 | For 0 < k <= h: h / (h / (h / k)) = h / k, so the loop writes out.height lines |
| Resampler.Copy | mms-lib/src/mms_attachment_image.c:167-178 | Decoder-assisted copying, with its early ends |
| Resampler.OnePixelBlocks | mms-lib/src/mms_attachment_image.c:167-178 | Copying is averaging over blocks of one pixel |
| Resampler.AddLine | mms-lib/src/mms_attachment_image.c:193-205 | The inner loops add nx pixels colour by colour to every sum and stay inside both buffers |
| Resampler.FinishBlock | mms-lib/src/mms_attachment_image.c:207-219 | The sums of a whole block become its line of averages in the line buffer itself |
| Resampler.BlockSumBound | mms-lib/src/mms_attachment_image.c:208-218 | A block sum is at most 255 times its pixels, so every average is an octet |
| Resampler.MeanBetween | mms-lib/src/mms_attachment_image.c:207-219 | The mean is between the darkest and the lightest octet of its block, so a block of one shade keeps it |
| Resampler.NextResizeStep | mms-lib/src/mms_attachment_image.c:34-53 | The loop computes the next step |
| Resampler.NextStepIsLeast | mms-lib/src/mms_attachment_image.c:34-53 | The next step is the first one after the current within the pixel limit |
| Resampler.NotEmptied | mms-lib/src/mms_attachment_image.c:34-53 | Something is left of the image exactly when some later step is within the limit and not empty |
| NemoSafety.EveryRun | mms-connman-nemo/src/mms_connection_nemo.c:422-467 | In every run the SIM is reserved at most once and held exactly while the connection is alive with a reservation; the busy count is the number of pending calls; when the state is final and the calls have returned, what was reserved was released, once |
| NemoSafety.StepOk | mms-connman-nemo/src/mms_connection_nemo.c:120-168 | Every event keeps the invariant |
| NemoSafety.ReserveDoneOk | mms-connman-nemo/src/mms_connection_nemo.c:422-467 | So does the answer to the reservation, also when it comes after cancellation |
| NemoStates.StepForward | mms-connman-nemo/src/mms_connection_nemo.c:120-155 | Final states stay, nothing goes back, an open connection never fails, and every change of state is announced |
| NemoStates.SkipsOpen | mms-connman-nemo/src/mms_connection_nemo.c:181-197 | A connection that is being opened becomes CLOSED exactly when its watched context is said to have become inactive |
| NemoStates.EveryRunDocumented | mms-lib/include/mms_connection.h:23-27 | What a run announces is OPENING to FAILED or OPENING to OPEN to CLOSED, or the beginning of it, exactly when no step reports a watched context inactive while the connection is still being opened |
| NemoStates.SkipExample | mms-connman-nemo/src/mms_connection_nemo.c:181-197 | Such a run: the SIM is reserved, an inactive context is found, and it is reported inactive; all that is announced is CLOSED |
| NemoStates.FlipsDocumented | mms-connman-nemo/src/mms_connection_nemo.c:181-197 | If oFono only reports real changes of the active property, every run is documented |
| NemoStates.StepExactly | mms-connman-nemo/src/mms_connection_nemo.c:169-277 | A table of every event: the state it leads to, and that the context is activated exactly when it is checked while being opened, is not active and the network is there, and deactivated exactly when an active one is closed |
| NemoStates.EveryRunAlert | mms-connman-nemo/src/mms_connection_nemo.c:291-467 | In every run, while it is alive the connection notices the modem manager, the SIM, the connection manager and the context going away; while it is being opened it waits for something that it will notice, so it is never stuck |
| NemoStates.EveryRunClosable | mms-connman-nemo/src/mms_connection_nemo.c:540-553 | A connection can be closed at any time: the end is reached at once, or deactivation was asked for and the report of it is the end |
| NemoObject.NemoConnection.Handle | mms-connman-nemo/src/mms_connection_nemo.c:169-257 | In place: any event with the handler that is installed for it; the whole new state is the one of the model, and it keeps the invariant and the balance of reservations |
| NemoObject.NemoConnection.constructor | mms-connman-nemo/src/mms_connection_nemo.c:513-538 | A new connection asks for the SIM or waits for the modem manager; it satisfies the invariant |
| HeaderTable.AcceptsExactly | mms-lib/src/mms_codec.c:1104-1144 | A table whose preset headers come first accepts a message exactly when every mandatory header came before the first failing handler and the preset headers that are present are at positions 1, 2, 3 and so on in the order of the table |
| HeaderTable.FirstKept | mms-lib/src/mms_codec.c:1077-1089 | A header that may not be repeated keeps what its first occurrence gave |
| HeaderTable.AllJoined | mms-lib/src/mms_codec.c:575-602 | A repeatable address header holds the comma-join of all its occurrences in order |
| HeaderTable.AcceptsInFront | mms-lib/src/mms_codec.c:1092-1143 | A message is accepted exactly when every mandatory header comes before the first refused one and the message starts with those preset headers that it has, in the order of the table; only wanted ones may be repeated later |
| HeaderTable.StopsAtFirst | mms-lib/src/mms_codec.c:1067-1090 | Parsing stops at the first wanted well-known header, not just a repetition, whose handler fails |
| HeaderTable.UnwantedLeft | mms-lib/src/mms_codec.c:1077-1081 | A header without a place for its value leaves nothing |
| HeaderTable.LastKept | mms-lib/src/mms_codec.c:1077-1089 | Any other repeatable header holds its last occurrence |
| HeaderParser.ParseHeaders | mms-lib/src/mms_codec.c:1045-1144 | The parser with its table of entries accepts exactly what the specification accepts, and delivers its contents |
| HeaderParser.ReadItem | mms-lib/src/mms_codec.c:1067-1090 | One header: skipped, recorded or given to its handler; false exactly when the handler fails |
| HeaderParser.CheckHeaders | mms-lib/src/mms_codec.c:1092-1143 | The two final loops decide exactly completeness and positions |
| HeaderParser.ExpectedPosition | mms-lib/src/mms_codec.c:1113-1137 | The expected position counts the present headers listed before |
| HeaderParser.ReadTable | mms-lib/src/mms_codec.c:1057-1065 | The table is filled in from the list of arguments |
| AddressHeaders.AddressesSurvive | mms-lib/src/mms_task_encode.c:527-550 | Preparing a list, encoding one header for each element, decoding with commas and splitting gives the trimmed non-empty entries, each cut at its last type, if each of them starts with an octet of at least 32 other than 127, whatever texts in other character sets are converted to; and only then, unless the first value that is misread is a text in a character set other than UTF-8 that is converted to control characters |
| AddressHeaders.TailShorter | mms-lib/src/mms_util.c:20-33 | A normalized address that loses its first octets, the type apart, comes back shorter |
| PartHeader.TextBack | mms-lib/src/mms_codec.c:1820-1841 | A text comes back but for a leading octet 127 |
| AddressHeaders.SentReads | mms-lib/src/mms_codec.c:1900-1922 | The headers that were sent are the ones that are found exactly when all elements start like a text |
| AddressHeaders.CollectedJoined | mms-lib/src/mms_codec.c:575-602 | Collecting gives the comma-join of the texts |
| AddressHeaders.MisreadUtf8 | mms-lib/src/mms_codec.c:516-525 | An address that is misread as UTF-8 text, with its charset number in short or long form, loses at least two octets in front and none of its type |
| AddressHeaders.OtherLost | mms-lib/src/mms_codec.c:505-557 | A list of which an address starts with a control octet does not come back, unless what is misread first is a text in another character set that is converted to control characters |
| Addresses.NormalizeTwice | mms-lib/src/mms_util.c:63-90 | Normalizing an address is idempotent |
| Addresses.NormalizedBack | mms-lib/src/mms_util.c:20-33 | Stripping a normalized address gives what stripping the original gives |
| Addresses.StrippedIs | mms-lib/src/mms_util.c:20-33 | What is before the last "/TYPE=" is left of an address, and one without is only trimmed |
| Addresses.TrimmedIs | mms-lib/src/mms_util.c:20-33 | The blanks around an address go, and nothing else |
| Addresses.ElementsSent | mms-lib/src/mms_task_encode.c:527-550 | Splitting the prepared list gives the normalized pieces that are not blank |
| Addresses.JoinThenPieces | mms-lib/src/mms_codec.c:1900-1922 | Splitting a comma-join of comma-free strings gives them back |
| AddressMethods.Normalize | mms-lib/src/mms_util.c:63-90 | The two loops and the type test compute the normalized address |
| AddressMethods.PrepareAddressList | mms-lib/src/mms_task_encode.c:525-550 | The loop computes the prepared list |
| AddressMethods.SplitAddressList | mms-lib/src/mms_util.c:39-54 | The list is split and stripped in place |
| AddressMethods.EncodeTextArrayElement | mms-lib/src/mms_codec.c:1900-1922 | All elements are appended, or one of them does not fit; with a device that keeps up, success exactly when all fit |
| Transfers.EveryRun | mms-transfer-list-dbus/src/mms_transfer_dbus.c:284-382 | While cookies are not given out twice, both caches are right after every run, and the signals sent and their receivers are those of a service without caches |
| Transfers.EnableAgrees | mms-transfer-list-dbus/src/mms_transfer_dbus.c:284-339 | A new request keeps the caches right exactly when nothing is forgotten, that is when its cookie is not in use or what it overwrites is asked for elsewhere |
| Transfers.SameReceivers | mms-transfer-list-dbus/src/mms_transfer_dbus.c:86-123 | With right caches the receivers are the clients with a live request, and the flag of the object is set exactly when there is one: gating changes nothing |
| Transfers.StepRefines | mms-transfer-list-dbus/src/mms_transfer_dbus.c:86-382 | Every event keeps the service with caches in step with the one without |
| Transfers.StepAgrees | mms-transfer-list-dbus/src/mms_transfer_dbus.c:195-231 | Every event keeps the caches right, a reused cookie apart |
| Transfers.ReportedOnce | mms-transfer-list-dbus/src/mms_transfer_dbus.c:126-166 | Reporting the same progress twice is reporting it once |
| TransferObject.TransferDbus.EnableUpdates | mms-transfer-list-dbus/src/mms_transfer_dbus.c:284-339 | Whole new state and the cookie |
| TransferObject.TransferDbus.DisableUpdates | mms-transfer-list-dbus/src/mms_transfer_dbus.c:341-382 | Whole new state, for right and wrong cookies |
| TransferObject.TransferDbus.ClientVanished | mms-transfer-list-dbus/src/mms_transfer_dbus.c:218-231 | Whole new state |
| TransferObject.TransferDbus.UpdateFlags | mms-transfer-list-dbus/src/mms_transfer_dbus.c:195-216 | The walk over the clients in any order combines their flags |
| TransferObject.TransferDbus.CombineRequests | mms-transfer-list-dbus/src/mms_transfer_dbus.c:366-374 | The walk over the requests in any order combines their flags |
| TransferObject.TransferDbus.EmitSignal | mms-transfer-list-dbus/src/mms_transfer_dbus.c:85-123 | The walk over the clients in any order reaches exactly those with the flag |
| TransferObject.TransferDbus.SendProgress | mms-transfer-list-dbus/src/mms_transfer_dbus.c:126-146 | Whole new state |
| TransferObject.TransferDbus.ReceiveProgress | mms-transfer-list-dbus/src/mms_transfer_dbus.c:147-167 | Whole new state |
| TransferObject.TransferDbus.Finished | mms-transfer-list-dbus/src/mms_transfer_dbus.c:168-181 | Whole new state |
| FileNames.AllPartsDiffer | mms-lib/src/mms_task_decode.c:206-245 | For any attachments: all file names handed out, those of originals included, are different and contain none of the six characters; the parts have different content ids |
| FileNames.UniqueIsLeast | mms-lib/src/mms_task_decode.c:82-87 | The name handed out is the proposal with the least number of underscores in front that is not taken |
| FileNames.FewUnderscores | mms-lib/src/mms_task_decode.c:82-87 | There are never more underscores than names |
| FileNames.ProposedIs | mms-lib/src/mms_task_decode.c:195-206 | A part is called by its location; without one, by its content id; and if what there is of them is empty, by its number |
| FileNames.NumbersDiffer | mms-lib/src/mms_task_decode.c:200-205 | Numbered parts have different names |
| FileNames.LocationsKept | mms-lib/src/mms_task_decode.c:195-206 | If the locations are clean and all different, every part gets its own |
| FileNames.ContentIdsKept | mms-lib/src/mms_task_decode.c:209-224 | If all parts are written and have different content ids, they keep them |
| FileNames.PartsAre | mms-lib/src/mms_task_decode.c:209-236 | There is a part for every file that could be written, in order, and one with a transfer encoding has its original beside it |
| FileNames.SanitizedWithin | mms-lib/src/mms_task_decode.c:66-81 | Brackets go, slashes of either kind become underscores, and every other character stays where it is |
| FileNames.SanitizedProper | mms-lib/src/mms_task_decode.c:66-81 | A cleaned name contains no slash, backslash, angle or square bracket |
| FileNames.ProperKept | mms-lib/src/mms_task_decode.c:66-81 | A name is left alone exactly when it contains none of them |
| NameTable.Strings.AddUnique | mms-lib/src/mms_task_decode.c:92-104 | The clash loop terminates and adds the unique name |
| NameTable.Strings.AddFileName | mms-lib/src/mms_task_decode.c:59-88 | Cleaning and the clash loop together |
| NameTable.Strings.Contains | mms-lib/src/mms_task_decode.c:44-56 | True exactly when the string is there |
| NameTable.Clean | mms-lib/src/mms_task_decode.c:66-81 | The copying loop cleans |
| NameTable.NameParts | mms-lib/src/mms_task_decode.c:206-245 | The loop over the attachments gives files, ids and parts of the specification |
| EncodeJob.Job.Run | mms-lib/src/mms_task_encode.c:207-246 | The last attempt decides: DONE with its file kept exactly when it fits; TOO_BIG only when cancelled, or nothing could be resized, or resizing did not help; no file otherwise |
| EncodeJob.FewAttempts | mms-lib/src/mms_task_encode.c:225-233 | There are at most as many attempts as octets over the limit |
| EncodeJob.LargestPart | mms-lib/src/mms_task_encode.c:82-122 | The part to resize is the first of the largest that can be |
| EncodeJob.SmilFirst | mms-lib/src/mms_task_encode.c:505-511 | The SMIL part moves to the front, the others keep their order |

## Left out

- DispatcherObject.MmsDispatcher.RunLoop: the queue holds task values that are replaced, not shared objects, so aliasing between a task in the queue and the same task elsewhere is not modelled; TaskObject shows the steps of one task in place.
- DispatcherSafety.EveryRun: calls from a task into its environment do not re-enter the dispatcher; a connection that closes at once is modelled by the answer closesNow although the code asserts at mms_dispatcher.c:123-124 that it does not.
- TaskLife.EveryLife: the started and paused callbacks of a transfer are folded into the notices, aborted transfers complete later, and the tasks that acknowledge or answer a notification have no listener for their outcome in the code.
- TaskLife.SleepsAreBounded: timers do not fire early and the clock does not go back.
- Resampler.Image.Resize: products of pixels and sums of colours are unbounded numbers, so they are assumed to fit into 32 bits as in the code; whether the codec takes a size is a parameter, and that the JPEG one refuses an empty output is what libjpeg does, which is not part of this model.
- PartHeader.PartParsed: the iteration over headers and the two string decoders belong to the WSP library and are taken as sections 8.4.1.2 and 8.4.2.1 of WAP-230-WSP define them.
- PartHeader.TypeReads: the tables of codes and character sets, in either direction, belong to the WSP library and are parameters; a name that is read by its code is the name that was sent if they are inverse (CanonicalIs).
- DispatcherTasks.DecodedIsPublished: that a message could be decoded and the files of its tasks prepared are answers from outside.
- MultipartWriter.WriteBody: lengths are assumed to be below 2^32; the tables of well-known types and character sets are parameters.
- AddressHeaders.AddressesSurvive: what g_convert makes of a text in a character set other than UTF-8 is a parameter; the "only if" leaves out lists of which the first address that is misread is such a text and is converted to control characters, because a conversion could by chance give back the text that was sent. The number of a character set is unbounded, and behind a misread header the reader goes on with whatever comes; neither matters to the result.
- TaskObject.MmsTask.CancelTask: a publishing task keeps holding its call after the answer, as in the code; what the handler makes of cancelling a call that has ended is not modelled.
- HeaderTable.AcceptsExactly: what a handler makes of a value is a parameter; whether it fails depends on the value alone, as in the code.
- Transfers.EveryRun: fewer than 2^32 requests; after that cookies repeat and EnableAgrees says what happens.
- NemoSafety.EveryRun: proxy, message centre and interface properties of the context are plain copies and not modelled; the answer to a release is taken as a release.
- EncodeJob.Job.Run: the size of each attempt, cancellation and what can be resized are parameters; an attempt of size zero is a failed one.
- FileNames.AllPartsDiffer: whether a file could be written is a parameter; undoing the transfer encoding and renaming files are not modelled.
- GLib objects, reference counts, signals and main loops: only the steps that they cause.
- libsoup, sockets and files: success or failure as parameters of the steps.
- The WSP library beyond uintvar, Value-length, Integer-value, text and entries of a multipart body: not part of this model.
- Conversion of character sets, the other message headers and their enumerations: easy mappings without a deeper property.
- SMIL text, MIME transfer encodings, guessing of types, cleanup of temporary files: input and output only.
- D-Bus access policies, settings, command line, logging and the engine around it all: wrappers.
- The oFono connection manager: the same rule for states as the Nemo one, and simpler.
- The list of transfers on D-Bus: its key equality compares a key with itself, so it is no map.
