# Verification of the zweidraehte conformance harness

This project models the conformance harness of the KNX stack in Dafny and
proves what its comments, tests and callers rely on. It is checked with
`dafny verify dfyconfig.toml`.

* **The DUT side of the IPC link** (`conformance/src/dut/link.rs`,
  `conformance/src/dut/common.rs`). `LinkProtocol` is a step relation over the
  link task, the device stack, the logger and one exit handler on a cooperative
  executor; one action is one stretch of code between two awaits, and a run is
  any interleaving. `LinkConservation` proves what happens to frames,
  confirmations, sequence numbers and log records over all runs, `LinkBarrier`
  what the restart barrier guarantees, `LinkDrain` when a step and startup are over,
  `LinkFailures` what is left when writes fail. `LinkLayer` is the link task itself, method by method, with the
  other tasks acting at every await; each stretch is shown to be a step of the relation.
  `LogQueue` is the bounded log queue. `PollingDut` is the sequential counterpart
  (`conformance/src/bin/dut_bcu2.rs`).
* **The suite engine** (`conformance/src/engine.rs`,
  `conformance/src/bin/runner.rs`). `SuiteSelection` and `SuiteRun` cover filter
  resolution, the sequential prefix, the run loop and its tally;
  `GreedyMatching` and `BlockMatch` the block of OUT telegrams in any order;
  `SyncCheck` the check for unsolicited sync responses; `DutSelection` the
  choice of one DUT process.
* **Templates** (`conformance/src/telegram.rs`, `conformance/src/eitt`).
  `Telegram` holds the two template parsers and the matcher, `TelegramForms` what
  each form of a token stands for, `Frame` the walker over token widths,
  `SyncSkeleton` the header fields read with it, `Comment` the comment command
  lexer and `CommentForms` what each command reads from its text; `Text` and `Octets`
  hold the string and octet operations they use.
* **Fixture storage** (`conformance/src/dut`). `MemoryMap` shows that overlapping
  windows over four arrays act as one byte map, `CertificationArray` that a
  buffer with a length acts as a sequence (section 4.3.2.3 and section 4.3.3.3
  of KNX 03/04/01).

Where the code and its comments part, the model follows the code:

* `conformance/src/eitt/comment.rs:79-82` gives a mistyped trace command as an
  example of unrecognised text. The bare `@` ends the token table, so every text
  that begins with `@` is recognised, and that one is shown in the tool bar.
* `conformance/src/dut/link.rs:183-189` says the barrier is reset when a step's
  reply is sent. It is reset when the next command is dispatched, which is why a
  handler that marks its reason between two dispatches can be released by the
  signal of the finished step (`LinkBarrier.MarkedOutsideGoesUnannounced`).
* `conformance/src/dut/system7_secure_stack.rs:540` and `:562` say that nobody
  ever gets at 51D0h-51DFh. That is so for ranges wholly inside it; one that
  reaches over either end is judged by the level-2 block around it, so two octets
  at 51CFh are served to level 2 (`MemoryMap.DenyWindowOverlap`,
  `MemoryMap.DenyWindowReached`).

Some properties hold only under a condition, and are stated with it: greedy block
matching is complete exactly for nested elements
(`BlockMatch.BlockCompleteIffNested`); the token walker is exact for every token
exactly when no variable name can be cut at an operator to another width
(`Frame.WidthsExactIff`); a raw range write keeps the certification array's
tail zero exactly when it leaves no nonzero octet beyond its count
(`CertificationArray.CertificationLongArray.WriteElementRange`), which property
writes always do, and so does every caller that keeps the promise of
`crates/zweidraehte-proto/src/properties.rs:671-673`. A memory access
panics exactly if it is of 65536 octets or more and its truncated length would be
served from the arrays (`MemoryMap.PanicsExactlyWhen`), and reading a comment
exactly if it is a wait whose time is too long for a duration
(`Comment.ParseTakesLongest`). The panics of the polling DUT are outcomes of its
commands and timer ticks (`PollingDut.Dut.HandleCommand`).

Inputs the model leaves open are parameters, and every result holds for all of
them: the outcome of each test step, how a filter matches a name, the secure
unwrapping of a frame, how text is read as a number, what the micro stack returns
from each poll and whether it accepts a local reset, when a parent stops reading,
what the other tasks do during an await, and how a device reacts to a sync request
or response.

## Model

| member | source | states |
|---|---|---|
| LinkConservation.StepKeeps | conformance/src/dut/link.rs:277-601 | Every step of the link task, the stack, the logger and the exit handler keeps the queue, message and socket invariants: nothing dequeued is lost, duplicated or reordered on its way to the wire |
| LinkConservation.WireCarriesTheOutbox | conformance/src/dut/link.rs:338-396 | In every run with successful writes, whenever the link waits for input the frame-carrying messages are the dequeued requests cut into batches, in order, each batch cut to its first sixteen frames, and the outbox holds the rest |
| LinkConservation.WireConservesFrames | conformance/src/dut/link.rs:477-542 | If no step was overfull, the frames on the wire followed by those of the outbox are exactly the frames enqueued |
| LinkConservation.EveryRequestConfirmedOnce | conformance/src/dut/link.rs:522-542 | At any moment of any run, failed writes or not, the n-th confirmation carries the frame of the n-th request, positive exactly if that is a data request, and at most the last dequeued one is still unconfirmed; a frame dropped from a full step is confirmed too |
| LinkConservation.EveryStepAnsweredOnce | conformance/src/dut/link.rs:401-454 | In every run with successful writes, the StepComplete sequence numbers are a prefix of those of the step commands at every moment and all of them between commands |
| LinkConservation.FramesNumberedConsecutively | conformance/src/dut/link.rs:362-384 | In every run with successful writes, unsolicited frames are numbered 0, 1, 2, ... modulo 2^32 over startup and idle time together |
| LinkConservation.StartupComesFirst | conformance/src/dut/link.rs:277-315 | In every run with successful writes, Ready is the first protocol message, and RoiComplete precedes every StepComplete and Exiting |
| LinkConservation.DrainsEnd | conformance/src/dut/link.rs:477-518 | However the other tasks interleave, one drain polls the outbox at most 128 times |
| LinkConservation.RecordsPrecedeTheirMessage | conformance/src/dut/link.rs:62-67 | When the last queued record of a send is out, the records on the wire are all those delivered so far, in order, and records written, dropped and queued add up to those accepted |
| LinkFailures.NothingRepeatedOrReordered | conformance/src/dut/link.rs:62-67 | In every run, whichever writes fail, the wire is what the link set out to send with some messages left out: no reply is repeated, invented or out of order, at most one answers each step command, and frame numbers and batches keep their order |
| LinkFailures.ReadyComesFirst | conformance/src/dut/link.rs:277-283 | In every run, whichever writes fail, Ready is the first protocol message and is not repeated |
| LinkFailures.RoiCompleteInTime | conformance/src/dut/link.rs:338-396 | In every run, whichever writes fail, a RoiComplete that is written precedes every StepComplete and every Exiting |
| LinkFailures.SentStepKeeps | conformance/src/dut/link.rs:62-67 | Every step keeps the relation between what was sent and what was meant to be; a failed write loses the message in flight, and the link lives on only if Ready went out before it |
| LinkDrain.StepEndsPatiently | conformance/src/dut/link.rs:477-518 | However the other tasks interleave, a poll of the outbox ends a step if and only if it finds nothing and an exit is marked, or it is the eighth in a row that finds nothing, or the 128th of the step |
| LinkDrain.CapEndsStep | conformance/src/dut/link.rs:477-518 | A request that was found ends the step, once confirmed, if and only if the 128th poll found it |
| LinkDrain.FilteredAreNotHandedOn | conformance/src/dut/link.rs:401-425 | In every run what is handed on is the last command received and never a frame the address filter rejected; such a frame is drained for at once |
| LinkDrain.StartupLeavesNothing | conformance/src/dut/link.rs:338-396 | When startup is declared over the outbox is empty and every request so far is in a batch already sent out |
| LinkBarrier.BarrierStepKeeps | conformance/src/dut/link.rs:166-189 | Every step keeps the barrier invariant that relates the pending exit, the settled signal, the handler and the wire |
| LinkBarrier.ReleasedMeansAnnounced | conformance/src/dut/link.rs:544-601 | When the settled signal (not its timer) released the handler and writes succeeded, its reason is on the wire if and only if it was marked between a dispatch's reset and its take; if that dispatch was a step, it stands behind that step's reply with only log records between |
| LinkBarrier.StaleSignalCannotRelease | conformance/src/dut/link.rs:401-405 | A signal left from an earlier dispatch cannot wake a handler that marked its reason in the current one |
| LinkBarrier.AnnouncedAtMostOnce | conformance/src/dut/link.rs:559-570 | Exiting is written at most once, and only for a reason marked inside a dispatch |
| LinkBarrier.MarkedOutsideGoesUnannounced | conformance/src/dut/link.rs:627-639 | A run in which a reason marked between two dispatches is released at once by the old signal with nothing announced: the condition above is needed |
| LinkLayer.IpcLinkLayer.Process | conformance/src/dut/link.rs:277-315 | The task as written: in every interleaving each of its stretches between awaits is a step of the state machine, and whenever it waits for input the wire answers exactly the commands given, numbers its frames consecutively and carries the outbox; if writes failed, replies and batches are those with some left out |
| LinkLayer.IpcLinkLayer.DrainRoiAndAnnounce | conformance/src/dut/link.rs:338-396 | Unless a write fails, sends nothing but unsolicited frames until the scan is over and the outbox is empty, and then RoiComplete |
| LinkLayer.IpcLinkLayer.DispatchCommand | conformance/src/dut/link.rs:401-454 | Whatever the interleaving, ends with the command received, the link idle and the barrier released, and unless a write fails has sent one reply of at most sixteen frames if the command was a step, then at most one notice of leaving, and nothing else |
| LinkLayer.IpcLinkLayer.DrainStep | conformance/src/dut/link.rs:477-518 | Returns the frames the pending StepComplete carries, at most sixteen, after at most 128 polls of the outbox, and writes nothing itself |
| LinkLayer.IpcLinkLayer.CaptureAndConfirm | conformance/src/dut/link.rs:522-542 | Adds one confirmation, with the frame of the request it captures, positive exactly for a data request, and returns that frame |
| LinkLayer.IpcLinkLayer.EmitStepComplete | conformance/src/dut/link.rs:544-570 | Unless a write fails, sends the reply, then the notice of the exit marked by then if there is one, in this order; an exit marked before is never overlooked; then the barrier is released |
| LinkLayer.IpcLinkLayer.FlushLifecycleExit | conformance/src/dut/link.rs:586-601 | Unless a write fails, sends exactly the notice of the exit marked by the time the wait ends, or nothing if its timer fired first; an exit marked before is never overlooked; the barrier is released in both cases |
| LinkLayer.IpcLinkLayer.SendMsg | conformance/src/dut/link.rs:62-67 | Success appends all records queued at the start and then the message, and no other protocol message; failure appends no protocol message; only a failed Ready ends the process |
| LinkLayer.FreedMeansAnnounced | conformance/src/dut/link.rs:627-639 | The link between the program's handler and the barrier theorem: a freed handler's reason is on this link's wire exactly when it was marked inside a dispatch |
| LogQueue.IpcLogger.Log | conformance/src/dut/common.rs:138-155 | A record within the level is appended; at 512 queued records the oldest goes and is counted |
| LogQueue.IpcLogger.DrainLogs | conformance/src/dut/common.rs:165-181 | Hands out the drop report, then the queue in order, and leaves both empty |
| LogQueue.QueueIsLatest | conformance/src/dut/common.rs:138-155 | Over any history the queue is the latest min(512, n) of the n records since the last drain, and the drop count is the rest |
| LogQueue.DrainDeliversWindow | conformance/src/dut/common.rs:165-181 | A drain delivers the newest records of its window, preceded by one report exactly when the window overflowed |
| LogQueue.NothingLostSilently | conformance/src/dut/common.rs:138-181 | Records accepted equal records delivered plus drops reported plus pending drops plus records queued |
| LogQueue.OrderKept | conformance/src/dut/common.rs:138-181 | Delivered and then queued records are the accepted ones with some left out, in the same order |
| PollingDut.Dut.Run | conformance/src/bin/dut_bcu2.rs:43-90 | The main loop writes exactly the trace determined by its turns and halts as that trace says, or writes a proper prefix of it because the parent stopped reading; and the logger took exactly what the turns taken log at or under its level |
| PollingDut.Dut.HandleCommand | conformance/src/bin/dut_bcu2.rs:92-138 | A step is answered before a restart it causes is announced; a frame error or a refused local master reset panics with nothing written |
| PollingDut.Dut.Send | conformance/src/bin/dut_bcu2.rs:188-202 | Every queued record precedes the message, and after a failed write nothing more is written |
| PollingDut.Dut.SendUnsolicited | conformance/src/bin/dut_bcu2.rs:152-165 | Frames go out in order under consecutive numbers that continue from the last tick; a frame that cannot be encoded panics with nothing written |
| PollingDut.TraceGrammar | conformance/src/bin/dut_bcu2.rs:43-165 | On what any run leaves on the wire: the replies are those of the step commands of the turns taken, in order, each with the frames of its own poll, each followed by the frames of its tick, and unsolicited frames are numbered 1, 2, 3, ... modulo 2^32; all of them, or a prefix if the parent went away |
| PollingDut.BeatProjects | conformance/src/bin/dut_bcu2.rs:92-165 | Command by command: an injected frame and the two triggers are answered once with the frames of their own poll unless it panics, programming mode and sync with none, the rest not at all; a turn then sends the frames of its timer tick, if it gets that far |
| PollingDut.PollsAnswer | conformance/src/bin/dut_bcu2.rs:100-121 | On the wire: a command that polls is answered with the frames of that poll, or panics with nothing written; of the three only an injected frame acts on a restart, announced behind the reply |
| PollingDut.PlainAnswers | conformance/src/bin/dut_bcu2.rs:108-138 | On the wire: programming mode and sync are answered with no frames, a power cycle and a reset that applies give the notice of leaving alone, a reset that is refused panics with nothing written |
| PollingDut.LoopEnds | conformance/src/bin/dut_bcu2.rs:43-90 | The turns taken are those up to the first that ends the loop, and that one says how: by end of file, by a read error, by leaving, or by one of the panics |
| PollingDut.RecordsAccounted | conformance/src/bin/dut_bcu2.rs:188-202 | Every record a run logged at or under the level is on the wire, counted in a drop report there, or still in the logger, in the order logged |
| PollingDut.NothingAfterExiting | conformance/src/bin/dut_bcu2.rs:170-202 | Whatever is written starts with Ready and RoiComplete, which are never repeated, and nothing follows Exiting |
| PollingDut.ExitedIffAnnounced | conformance/src/bin/dut_bcu2.rs:167-185 | A run leaves by a command if and only if Exiting is on the wire; then the wire ends with the reason of the last command taken, right behind the reply if that was an injected frame |
| GreedyMatching.GreedySound | conformance/src/engine.rs:443-534 | A successful scan assigns every frame its own element that accepts it, with no assumption on the elements |
| GreedyMatching.GreedyIffMatchable | conformance/src/engine.rs:443-534 | If whenever two elements share a frame the earlier accepts no more than the later, the scan succeeds exactly when a perfect matching exists |
| GreedyMatching.CompleteIffNested | conformance/src/engine.rs:404-414 | That nesting is exactly what the scan needs to find every perfect matching |
| GreedyMatching.SameOrDisjointIsNested | conformance/src/engine.rs:404-414 | Elements that accept the same frames or none in common are nested |
| BlockMatch.ExpectBlock | conformance/src/engine.rs:415-553 | Keys are checked before any frame is read; the step passes if and only if enough frames arrive and the first of them are placed by the scan, secure elements before plain ones; an empty block passes unread |
| BlockMatch.VerdictIff | conformance/src/engine.rs:443-534 | The step passes if and only if the keys are known, enough frames arrive and each in turn is taken by an element it fits, no free one before it fitting: secure elements come before plain ones, and within a kind the order is that of the block; a frame fits a plain element as it is, a secure one by what it unwraps to |
| BlockMatch.SingleVerdict | conformance/src/engine.rs:443-534 | A block of one element passes if and only if its key is known, if it needs one, and the first frame agrees under every mask: the frame itself with a plain element, what it unwraps to with a secure one |
| BlockMatch.PassIsBijection | conformance/src/engine.rs:443-534 | A pass is a bijection between the frames consumed and the elements; a plain element agrees with its frame under every mask, a secure one with what its frame unwraps to under its key |
| BlockMatch.PassIffMatchable | conformance/src/engine.rs:404-414 | For nested elements the step passes exactly when the frames fit the elements in some way |
| BlockMatch.ArrivalOrderIrrelevant | conformance/src/engine.rs:404-414 | For nested elements the verdict is the same for every permutation of the frames |
| BlockMatch.OrderIrrelevantIffNested | conformance/src/engine.rs:404-414 | For elements that each accept some frame, the verdict ignores the order of arrival on every block if and only if the elements are nested |
| BlockMatch.SeparableIsNested | conformance/src/engine.rs:404-414 | Elements that accept the same frames or disjoint frames meet the condition |
| BlockMatch.BlockCompleteIffNested | conformance/src/engine.rs:443-534 | Elements that are not nested have a block of fitting frames the step fails |
| SuiteSelection.SelectSuites | conformance/src/engine.rs:1562-1574 | The in-place rewriting resolves a run: the direct selection, or its sequential fill, every selection nonempty, strictly increasing and in range |
| SuiteSelection.DirectCoversRequested | conformance/src/engine.rs:1543-1557 | A suite or case is selected directly exactly when there are no filters, its suite's name matches, or a case name does |
| SuiteSelection.SequentialIsClosure | conformance/src/engine.rs:1562-1574 | A sequential run covers exactly what is reached at or before something selected directly |
| SuiteSelection.SequentialIsSmallestPrefix | conformance/src/engine.rs:1559-1574 | That is the smallest prefix of the suite and case order containing every direct selection |
| SuiteSelection.DirectIsUnion | conformance/src/engine.rs:1543-1557 | A nonempty filter list selects the union of what its filters select alone |
| SuiteSelection.SelectionIsMonotone | conformance/src/engine.rs:1562-1574 | Adding filters to a nonempty list never selects less, in either order |
| SuiteSelection.CountIsSelected | conformance/src/engine.rs:1578-1605 | case_count is the number of indices selects accepts, and the listed cases are those, in order |
| SuiteSelection.PrerequisitesNeverUnderflow | conformance/src/bin/eitt.rs:351-361 | Included cases are never fewer than requested ones, suite by suite |
| SuiteSelection.TotalsNeverUnderflow | conformance/src/bin/eitt.rs:351-356 | Nor are they over all suites together: the included cases minus the requested ones never underflow |
| SuiteRun.RunSuites | conformance/src/engine.rs:1614-1890 | Every run: the summary is read off the executed suites and cases, nothing of an entered suite or executed case is skipped, blocked cases are exactly those the rules name |
| SuiteRun.RunPhase | conformance/src/engine.rs:1693-1715 | Every step of a list is attempted in order whatever the others did, and the list passes iff all of them do |
| SuiteRun.RunCase | conformance/src/engine.rs:1753-1842 | A case runs preparation, steps and teardown in full and is counted as passed iff every step of all three passes, as failed otherwise |
| SuiteRun.CasePasses | conformance/src/engine.rs:1753-1842 | The steps of a case that was run are attempted in the order preparation, steps, teardown, and it passed exactly when each of them did |
| SuiteRun.WhichCasesRun | conformance/src/engine.rs:1726-1737 | A failed preparation step blocks every case of a suite; otherwise an independent suite executes all selected cases and a sequential one those up to the first in which a step fails |
| SuiteRun.SuccessIffNoStepFailed | conformance/src/engine.rs:1484-1492 | In either order the exit code is SUCCESS if and only if every step attempted in the whole run passed, preparations and teardowns of suites and cases included |
| SuiteRun.NextSuite | conformance/src/engine.rs:1646-1658 | One turn of the suite loop keeps tests = passed + failed + blocked, the step count, and which suites may be entered |
| SuiteRun.EnteredTally | conformance/src/engine.rs:1484-1492 | Success is kept exactly by suites in which nothing failed, those execute all their selected cases, and a sequential suite adds at most one failure of cases and preparation together |
| SuiteRun.SuccessMeansAllPassed | conformance/src/engine.rs:1484-1492 | In either order, a SUCCESS exit code means that every chosen suite was entered and went clean, that the cases executed are exactly those selected, suite by suite and in order, and that all of them passed |
| SuiteRun.SequentialExecutesPrefix | conformance/src/engine.rs:1646-1737 | A sequential run executes a prefix of the flattened selected cases, all but the last passing, enters no suite after one with a failure, and stops short only after a failure |
| Telegram.ParseTelegram | conformance/src/telegram.rs:147-166 | The loop returns the concatenated octets of the tokens, each as TelegramForms says, or nothing if any token is bad |
| Telegram.ParseMatcher | conformance/src/telegram.rs:199-243 | The loop returns the concatenated patterns, each as TelegramForms says, with a wildcard flag exactly where the mask is zero |
| Telegram.Matches | conformance/src/telegram.rs:257-271 | Accepts exactly the frames of the expected length that agree under every mask, the repeat flag masked in octet 0 |
| Telegram.Diff | conformance/src/telegram.rs:273-312 | No length line and no bracketed octet exactly when the frame matches; an octet is bracketed exactly when it is at fault |
| Telegram.ParsersAgree | conformance/src/telegram.rs:147-243 | Whatever the telegram parser accepts, the matcher parser accepts with the same octets and a zero mask exactly at ?? |
| Telegram.TemplateMatchesItself | conformance/src/telegram.rs:199-271 | Read as a matcher, such a template accepts exactly the frames of its length that differ at most at its wildcards and in the repeat flag |
| Telegram.MovedOctetDiffers | conformance/src/telegram.rs:28-49 | An indexed octet moved by an offset differs from the real one unless the offset is a multiple of 256 |
| Telegram.OffsetMovesValue | conformance/src/telegram.rs:52-106 | A one- or two-octet variable keeps its width under an offset and its big-endian value moves modulo that width |
| Telegram.OffsetRoundTrip | conformance/src/telegram.rs:52-106 | Adding an offset and taking it off again gives the variable back, wrap-around included |
| Telegram.NibbleAccepts | conformance/src/telegram.rs:208-230 | A token with one wild nibble compares exactly the other nibble with its digit |
| Telegram.ExactAccepts | conformance/src/telegram.rs:187-190 | A matcher made from raw octets accepts exactly them, give or take the repeat flag |
| TelegramForms.NameStandsFor | conformance/src/telegram.rs:109-114 | A plain name stands for the octets of its variable, an address high octet first, and an unknown one for nothing |
| TelegramForms.PlusForm | conformance/src/telegram.rs:52-80 | NAME+n is the value of a one- or two-octet variable plus n, modulo 256 or 65536, high octet first; another width, an unknown name or a number beyond an i32 is an error |
| TelegramForms.MinusForm | conformance/src/telegram.rs:81-107 | NAME-n is that value minus n |
| TelegramForms.IndexForm | conformance/src/telegram.rs:32-51 | NAME.i is octet i of the variable, and an error exactly if it has none |
| TelegramForms.MovedIndexForms | conformance/src/telegram.rs:32-51 | NAME.i+n and NAME.i-n are octet i plus and minus n modulo 256, and an error if there is no such octet or n is beyond an i16 |
| TelegramForms.LiteralTokens | conformance/src/telegram.rs:158-161 | Two hexadecimal digits are one octet, the first its high half, compared in full; one digit is an octet too |
| TelegramForms.WildTokens | conformance/src/telegram.rs:153-161 | Two question marks are a zero octet that a matcher never looks at; one beside a digit is no octet of a telegram |
| TelegramForms.NibbleTokens | conformance/src/telegram.rs:208-230 | A digit behind a question mark is compared as the low half of an octet, one before it as the high half |
| TelegramForms.TemplateConcat | conformance/src/telegram.rs:147-243 | A template cut at any white space reads as its two parts one after the other, telegram and matcher alike, and a part that cannot be read spoils the whole |
| Text.DecimalReads | conformance/src/telegram.rs:58-62 | A number written in decimal reads back as itself |
| Text.SplitJoin | conformance/src/eitt/frame.rs:115 | Splitting joined words gives the words back |
| Frame.TokenWidthExact | conformance/src/eitt/frame.rs:63-70 | If no variable name is unclear, every token that parses contributes exactly the width the walker counts |
| Frame.WidthsExactIff | conformance/src/eitt/frame.rs:57-70 | Walker and parser agree on every token if and only if no variable name is unclear; an unclear one has a token that shows it |
| Frame.PlainNamesAreExact | conformance/src/eitt/frame.rs:57-70 | Names without the operators of the grammar are never unclear |
| Frame.TokenAt | conformance/src/eitt/frame.rs:73-83 | Finds the token covering an octet and its offset, and fails exactly past the end |
| Frame.TokenSpan | conformance/src/eitt/frame.rs:95-116 | Returns text exactly when both ends are boundaries and the start is inside the frame, and reading it again gives exactly those octets of the whole parse |
| Frame.SpanReparses | conformance/src/eitt/frame.rs:85-116 | Any slice of tokens, joined and parsed, is the slice of the whole parse between its offsets |
| Frame.TemplateSpanRereads | conformance/src/eitt/frame.rs:95-116 | For a whole template: the text found for a span of its parsed octets parses again to exactly those octets |
| SyncSkeleton.ReadSkeleton | conformance/src/eitt/secure.rs:339-369 | Reads the control, NPDU and TPCI octets and the two addresses at the offsets of the layout the control octet calls for, or reports the first of them that cannot be read and why |
| SyncSkeleton.SkeletonReadsHeader | conformance/src/eitt/secure.rs:339-369 | If the template parses, the fields read are its octets up to the TPCI, each at its place in the layout, and each address text reads again to its two octets |
| SyncSkeleton.SkeletonOffsets | conformance/src/eitt/frame.rs:49-55 | The fields stand at octets 1, 3, 5 and 6 of a standard frame and 2, 4, 1 and 7 of an extended one, which one being told by the top bit of octet 0 |
| SyncSkeleton.ErrorNamesFirst | conformance/src/eitt/secure.rs:339-369 | An error names the first field that cannot be read: the control octet, then NPDU, source, destination and TPCI of the layout it calls for |
| SyncSkeleton.SpellingIsIrrelevant | conformance/src/eitt/secure.rs:334-340 | Two templates that parse to the same octets give the same fields, however they spell them as variables or literals |
| Comment.ParseTakesLongest | conformance/src/eitt/comment.rs:233-258 | For every text that begins with @ the command is built from the longest token of both tables that begins the text, is never Unrecognised and never reaches the unreachable arm; it panics exactly when that token is a wait token whose quoted time is too long for a duration |
| Comment.FirstIsLongestIffUnshadowed | conformance/src/eitt/comment.rs:180-183 | For any table without repeats, first match is longest match on every text if and only if no entry is a prefix of a later one |
| Comment.TokensAreUnshadowed | conformance/src/eitt/comment.rs:184-222 | The tables of the source have that property |
| Comment.EveryTokenBuilds | conformance/src/eitt/comment.rs:260-297 | No token reaches the unreachable arm, and each builds the command that reports it, or overflows on exactly the wait times that are too long |
| Comment.ParseWaitTime | conformance/src/eitt/comment.rs:339-348 | The loop over the parts returns the wait time they stand for: nothing if any part is not a number, too long past the range of a duration |
| Comment.HoursMinutesSeconds | conformance/src/eitt/comment.rs:329-348 | A text of three finite numbers with colons between them, and any white space around them, waits so many hours, minutes and seconds, nothing if that is negative, and is too long exactly from 2^64 seconds on |
| Comment.QuotedWaitOverflows | conformance/src/eitt/comment.rs:271-273 | A wait comment panics if and only if the time between its quotes, whatever it is, is too long for a duration |
| Comment.InfiniteWaitOverflows | conformance/src/eitt/comment.rs:346-347 | One such comment: an infinite time, which the number reader accepts |
| Comment.TakeQuotedSplits | conformance/src/eitt/comment.rs:303-314 | The left-trimmed input is opener, quote-free argument, optional closer and untouched tail |
| Comment.TakeQuotedReadsBack | conformance/src/eitt/comment.rs:303-314 | A quoted argument is read back exactly, whichever quotes stand around it |
| CommentForms.PlainText | conformance/src/eitt/comment.rs:233-237 | Text that does not begin with @ is documentation, without the white space around it |
| CommentForms.ArgumentReaches | conformance/src/eitt/comment.rs:299-322 | Behind any token, and any white space, a quoted argument reaches the command, whatever follows it |
| CommentForms.TextCommands | conformance/src/eitt/comment.rs:260-269 | The commands that show, trace or pause take the rest of the text, without the white space around it, whenever no longer token begins it |
| CommentForms.WaitCommands | conformance/src/eitt/comment.rs:271-273 | A wait keeps its argument as written, the time it reads as, and the text behind it, or overflows on a time too long |
| CommentForms.AutoPassCommand | conformance/src/eitt/comment.rs:275 | Auto pass is on exactly for the argument on, in any case |
| CommentForms.SequenceCommands | conformance/src/eitt/comment.rs:277-283 | Sequences are called, with conformance exactly for @##, and stopped by the name in quotes |
| CommentForms.ParallelCommands | conformance/src/eitt/comment.rs:278-281 | A parallel call splits its argument at the first semicolon into a name and a loop count, which is dropped if it is beyond a u32 or missing, and waits exactly for @>w |
| CommentForms.SecurityCommands | conformance/src/eitt/comment.rs:285-289 | Keys, sequence numbers and imports get the argument as it is; the two resets need none |
| CommentForms.PointApiCommand | conformance/src/eitt/comment.rs:291-293 | A Point API command keeps its token and its argument |
| CommentForms.InterfaceCommands | conformance/src/eitt/comment.rs:239-248 | An interface is activated by layer and connection, split at the first semicolon, and deactivated by the connection |
| MemoryMap.SecureSystem7State.Serve | conformance/src/dut/system7_secure_stack.rs:603-767 | Over any reads and writes the four arrays answer as one byte map does |
| MemoryMap.SecureSystem7State.ReadAt | conformance/src/dut/system7_secure_stack.rs:603-686 | A read answers as the byte map does, window by window, and changes nothing |
| MemoryMap.SecureSystem7State.WriteAt | conformance/src/dut/system7_secure_stack.rs:688-767 | An accepted write to stored memory changes exactly its octets; refused, write-only and delegated ones change nothing |
| MemoryMap.ReadsReturnLastWritten | conformance/src/dut/system7_secure_stack.rs:603-767 | Every permitted read of stored memory returns, octet by octet, what the last accepted write put there |
| MemoryMap.MemoryIsLastWritten | conformance/src/dut/system7_secure_stack.rs:688-767 | Each address of the byte map holds the last value an accepted write put there, or its first one |
| MemoryMap.SucceedsExactlyWhen | conformance/src/dut/system7_secure_stack.rs:603-767 | Exactly when an access of 1 to 65535 octets succeeds, per window, level and policy |
| MemoryMap.ShortAccessesStayInside | conformance/src/dut/system7_secure_stack.rs:603-767 | Below 65536 octets nothing panics and an accepted access lies in one stored window |
| MemoryMap.ShortAccessesRouteTruly | conformance/src/dut/system7_secure_stack.rs:609-612 | Below 65536 octets the truncated and saturated end address picks the window the true one would |
| MemoryMap.PanicsExactlyWhen | conformance/src/dut/system7_secure_stack.rs:603-767 | An access panics if and only if it is of 65536 octets or more and one of its length modulo 65536 at the same address would be served from the arrays; otherwise it is judged as that one |
| MemoryMap.LongAccessPanics | conformance/src/dut/system7_secure_stack.rs:609-612 | A witness: 65536 octets written at 5000h panic whoever asks |
| MemoryMap.DenyWindowNeverSucceeds | conformance/src/dut/system7_secure_stack.rs:638-643 | A range wholly in 51D0h-51DFh is refused whoever asks |
| MemoryMap.DenyWindowOverlap | conformance/src/dut/system7_secure_stack.rs:638-665 | A range that touches 51D0h-51DFh succeeds if and only if the level is at most 2, it lies in the level-2 block and it is not wholly inside the window |
| MemoryMap.DenyWindowReached | conformance/src/dut/system7_secure_stack.rs:638-665 | A witness: two octets at 51CFh are read with level 2, the second of them inside the window |
| MemoryMap.TestRegionsNeverDelegate | conformance/src/dut/system7_secure_stack.rs:573-599 | No access that starts in a test region reaches the family map, whatever its length |
| MemoryMap.JudgedByWindow | conformance/src/dut/system7_secure_stack.rs:603-767 | What an access wholly inside a window comes to, window by window in addresses: served, computed, dropped, or refused with which error, by direction, level and policy |
| MemoryMap.JudgedElsewhere | conformance/src/dut/system7_secure_stack.rs:573-599 | What an access inside no window comes to: not accessible from 65536 on, refused if it starts in a test region, as write protected exactly if an end of it lies where that direction is not supported, and otherwise left to the family map |
| MemoryMap.FamilyExactlyWhen | conformance/src/dut/system7_secure_stack.rs:573-599 | The family map is asked exactly about accesses that start below 65536 and outside the test regions |
| MemoryMap.EmptyAccess | conformance/src/dut/system7_secure_stack.rs:603-767 | An access of no octets belongs to the first window it stands in or just behind |
| MemoryMap.SecureSystem7State.constructor | conformance/src/dut/system7_secure_stack.rs:908-918 | A factory-fresh device holds 0Fh, AAh and FFh in its regions |
| CertificationArray.CertificationLongArray.Serve | crates/zweidraehte-proto/src/properties.rs:682-712 | Over any property reads and writes the buffer and length answer as a plain sequence that is zero-filled when grown and truncated when shrunk, and the tail stays zero |
| CertificationArray.CertificationLongArray.SetElementCount | conformance/src/dut/fixture_common.rs:488-494 | Resizes the sequence and clears everything past the new length |
| CertificationArray.CertificationLongArray.WriteElementRange | conformance/src/dut/fixture_common.rs:496-503 | Overwrites and resizes the sequence; the tail stays zero if and only if the count leaves no nonzero octet behind |
| CertificationArray.CertificationLongArray.WritePropertyValue | crates/zweidraehte-proto/src/properties.rs:682-712 | A property write does to the sequence what its rules say, refusals included, and always keeps the tail zero |
| CertificationArray.CertificationLongArray.ReadLongArray | conformance/src/dut/fixture_common.rs:607-637 | A read returns the count, the clamped slice of the sequence, or the right refusal |
| CertificationArray.WriteRefusals | crates/zweidraehte-proto/src/properties.rs:682-712 | Which property writes are refused and as what, in numbers; a refused write changes nothing |
| CertificationArray.CountReadsBack | crates/zweidraehte-proto/src/properties.rs:682-712 | A count that was written is read back as the same two octets; the elements up to it are kept and those it adds are zero |
| CertificationArray.DataReadsBack | crates/zweidraehte-proto/src/properties.rs:682-712 | Elements that were written are read back at their index, all others are as before and a gap in front of them is zero |
| CertificationArray.PutRefines | conformance/src/dut/fixture_common.rs:496-503 | Copying into a buffer with a zero tail is overwriting the sequence it stands for, and when it keeps the tail zero |
| CertificationArray.CertificationLongArray.ServeRaw | conformance/src/dut/fixture_common.rs:488-503 | Any list of raw count and range writes takes the buffer and length to the state the value-level run gives |
| CertificationArray.RawStep | conformance/src/dut/fixture_common.rs:488-503 | On a zero tail each raw call does to the sequence shown what the sequence rules say, and keeps the tail zero exactly if it leaves no nonzero octet behind its count |
| CertificationArray.ZeroTailIffFaithful | conformance/src/dut/fixture_common.rs:488-503 | The tail is zero if and only if every raw call from here is answered as the plain sequence would |
| CertificationArray.RawRunRefines | conformance/src/dut/fixture_common.rs:488-503 | A run of raw calls that leaves nothing behind its counts acts as the plain sequence throughout |
| CertificationArray.PromisedRunRefines | crates/zweidraehte-proto/src/properties.rs:671-675 | So does every run whose range writes cover the written end and never lower the count, as the trait promises its backends |
| CertificationArray.LoweringWriteExposesOldOctet | conformance/src/dut/fixture_common.rs:496-503 | Three raw calls, one lowering the count against that promise, after which the array shows 1, 2 and the plain sequence 1, 0 |
| SyncCheck.VerifyUnsolicited | conformance/src/engine.rs:1123-1177 | The probe, inject, probe procedure returns the verdict and the progress defined for it |
| SyncCheck.InjectsOneAbove | conformance/src/engine.rs:1150-1166 | From every pair of counters it stops because one cannot advance or injects values exactly one above both, within 48 bits |
| SyncCheck.AdoptionIsExposed | conformance/src/engine.rs:1123-1177 | If probes leave counters alone, a device that adopts either value fails the check, whatever its counters |
| SyncCheck.PassesIffIgnored | conformance/src/engine.rs:1123-1177 | For a device that answers, the check passes if and only if the key is known, the response is unicast and connectionless, both counters have a successor within 48 bits and the response that carries these left both alone |
| SyncCheck.ReplayFails | conformance/src/engine.rs:1171-1176 | A device that repeats its first answer fails, since the second probe changes the challenge |
| SyncCheck.ResolvesTo | conformance/src/lib.rs:756-766 | A counter resolves to the request's own, that moved by an offset, or a fixed one, exactly if it fits 48 bits |
| DutSelection.SuiteList.SelectDutMode | conformance/src/bin/runner.rs:80-110 | Returns a process exactly when it is the one left once the suites given up for it are gone, and keeps exactly the suites that ask for it, in their order, or for no process with the default |
| DutSelection.SuiteList.RemoveDut | conformance/src/bin/runner.rs:59-63 | Keeps the suites that do not require the process, in order, and counts the others |
| DutSelection.AtMostOneLeft | conformance/src/bin/runner.rs:80-110 | At most one process is left for any list, so the cascade's order decides nothing else |
| DutSelection.LeftIff | conformance/src/bin/runner.rs:80-110 | Read off the list, which process is left: some suite asks for it and each other suite asks for one given up before it is considered |
| DutSelection.TwoProcesses | conformance/src/bin/runner.rs:76-110 | For a list that asks for two processes: the secure micro ones give way, the plain System 7 is kept beside any other, and no two of the remaining three share a run |
| DutSelection.ChoiceIsDrivable | conformance/src/bin/runner.rs:80-110 | What is kept keeps its order, and with the default no suite requires a process |
| DutSelection.UniformListKept | conformance/src/bin/runner.rs:76-83 | A list whose suites all require one process is never shrunk and gets that process |

## Left out

- LinkLayer.IpcLinkLayer.Process: states its results while the link waits for input and up to the end of a given input list; that the loop itself never ends is not stated.
- LinkConservation.WireConservesFrames: assumes successful writes, because a failed write abandons the message and the frames in it are lost in the source too; what holds without the assumption is in LinkFailures.
- LinkConservation.StartupComesFirst: that a RoiComplete stands before every StepComplete needs its write to succeed, because one that was lost is not sent again; what holds for any writes is in LinkFailures.
- LinkBarrier.ReleasedMeansAnnounced: covers one exit handler per process, as the source runs one at a time; two that mark a reason at once are not modelled.
- SuiteRun.RunCase: step lists are kept by their lengths, because what a step does is the oracle's business; template resolution failures count as failed steps.
- BlockMatch.ExpectBlock: unwrapping a secure frame is a pure function here; the source also lets it advance the security context, and counts elapsed time where the model has an event that closes the window.
- Telegram.ParseTelegram: offsets are added without a width and reduced modulo 256 or 65536, which is what wrapping 16- and 32-bit sums give; the overflow panic of a debug build is not modelled.
- PollingDut.Dut.SendUnsolicited: the frame counter wraps at 2^32; a debug build would panic there.
- Partial reads and writes of the socket, framing and serialisation of messages.
- Sockets, shared memory, process spawning and exit, the executor and real timers: a timer is an event that may fire.
- The respawn and discard steps between suites, which only affect what later steps see.
- Cryptography and the conversion of frames between their wire and internal forms.
- The family memory map, the device stack, access policy evaluation and property dispatch: an access that leaves the test regions ends in the outcome `FromFamily`.
- CertificationArray.CertificationLongArray.SetElementCount: takes counts up to the 245 octets of the buffer; a raw call beyond it panics in the source, and property writes refuse it first.
- CertificationArray.CertificationLongArray.WriteElementRange: takes ranges inside the buffer, with the same reason.
- SyncSkeleton.ReadSkeleton: error texts are kept as which field failed and how; what the sync parameters add to the header is not modelled.
- Comment.ParseWaitTime: adds and multiplies real numbers with infinities and not-a-number; the rounding of floating-point sums, their overflow from finite parts, and the rounding of a duration to nanoseconds are not modelled.
- Lower-casing in filters: the match is a parameter.
- Printing, reports, argument parsing, template files, product generators and the configuration client.
