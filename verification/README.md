# FROB gateway: a verified model of its core

The gateway moves framed messages between a serial line and a set of cooperating tasks. This project models,
in Dafny, the parts where a mistake is hard to see from one function alone, and proves what they promise over every
input, every split of the input, and every schedule.

| files | component |
|---|---|
| `Bytes`, `Numerals` | checksum, decimal and hexadecimal text, NUL-padded arrays |
| `Frame`, `FrameSpec`, `Frames` | the frame machine of `fsm/frame.rl`, what a frame is, all frames of a buffer |
| `MainLoop`, `Chopped` | `process_main` of `frob.c`: acknowledgements, counters, restart behind each frame; and over any sequence of reads |
| `Wire`, `Places` | the streaming frame machine of `fsm/wireprotocol.rl`, its agreement with the other one, and the sizes it lends |
| `Ring`, `Scheduler` | the pointer ring of `multitasking/contextring.c`, `sus_runall`, and the wait of a task |
| `Slots`, `Pipeline`, `Tasks`, `Service`, `Ending` | lend and borrow, the three tasks over slots 0 and 1 in all interleavings, the same tasks as code, the tasks in the ring, and how they end |
| `IoSets` | scheduled and active descriptor sets |
| `FirstLevel` | the acknowledgement grammar and its machine |
| `Message`, `Layout`, `Cutting`, `Serialization` | messages, the order of their fields, texts with separators, and `serialize` with its cursor, free space and bail-out |
| `FieldMachine`, `Bodies`, `Header`, `Attributes`, `Parser` | the field machines of `fsm/body.rl`, header, attributes, `parse_message` |
| `Rows`, `Fields`, `Conditions`, `Codec`, `Unread`, `Receipt` | what survives writing and reading, type by type |
| `Languages` | what the reader takes and stores, over all byte strings |
| `Autoresponder` | question in, answer out |

Code that updates state in place is written as methods and classes (`FrameFsm`, `Main`, `WireFormat`, `ContextRing`,
`Rendezvous`, `IoPlane`, `Writer`, `Extractor`, `Responder`); each method is proved equal to a function of its inputs,
and the lemmas are about those functions. Ragel machines are written as step functions. A machine that meets a byte
without a transition stays at that byte, as the generated code does.

## What is proved

* **Frames.** On a fresh state `frob_frame_process` gives exactly what a definition without a machine says
  (`FreshResult`); ENOTRECOVERABLE cannot occur. The list of frames `process_main` finds is the chain of frames of
  that definition; junk, incomplete tails and checksum bytes that equal STX or ETX make no difference
  (`StreamRecovered`); a changed byte turns exactly its own frame bad and moves nothing (`CorruptionIsLocal`).
* **Two machines, one answer.** The streaming machine gives, on every buffer, the verdicts of the restarted one, for
  either signedness of `char` (`SameVerdicts`), and does so however reads cut the bytes (`ChunkIndependence`).
* **Reads.** Over any sequence of reads, exactly which frames of the byte stream `process_main` acknowledges, with which
  verdicts, and which bytes of each it hands to `parse_message` (`ReadsExactly`).
* **Sizes.** For every sequence of reads, what is lent for the k-th frame of the byte stream is Nok, or a range as long
  as the offset of its checksum in one read minus the offset of its payload in another (`LentSizes`).
* **Tasks.** Ownership of the read buffer, exactly-once delivery on both slots and the assertions of lend, borrow and
  return hold in every reachable state. End to end, whatever the schedule, the frontend has been handed one item for
  each frame of the byte stream, with the right verdict (`EveryFrameDelivered`), and each item is known from the bytes
  and the cuts between reads alone (`EveryLendDelivered`). At the end of the input all three tasks end, under every
  schedule and within two laps of the ring (`EndsInTime`). No task starves, and the bound d + (n-1)(n-2)/2 is attained
  (`RunsWithinBound`, `BoundAttained`). In the ring of these tasks and any others, whatever the others do, all items
  lent are back within E * (n + (n-1)(n-2)/2) transfers, or E * n while no task exits, where E is at most 2k + 2 for
  an item that `fsm_exec` lends on k times (`ReturnedInTime`, `ToilBound`).
* **Waits.** Over every round of the ring between two runs of the I/O loop, `select` is given exactly what the tasks
  wait for, if and only if each waiting task that the round misses shares its wait with one that ran
  (`SelectIsExact`); in a round without an exit nobody is missed (`ExactWithoutExit`), otherwise exactly the tasks
  that an exit passes over (`MissedArePassedOver`).
* **Codec.** `serialize` succeeds exactly if the frame fits and otherwise reports the largest item boundary; no frame
  exceeds 612 bytes. For the types that are read in the form they are written in, whatever bytes the texts hold, the
  message comes back exactly if nothing the reader insists on is empty (Filled), no text holds a byte that its field
  cannot hold (Plain) and the rest can be restored (Restorable). It is accepted exactly if Filled and Plain, but for a
  T2 that is read as four other fields and attributes (`RoundTrip`, `TextAsAttribute`). Framing, the receiving loop
  and the reader together restore whole conversations (`Conversation`, `ConversationInReads`). Over all byte strings,
  the reader of a checked body gives 0 exactly on the rows its grammar lets end there (`BodyAccepted`), and what it
  stores is known for every text (`FieldMeans`, `NumberMeans`).

## Where the code does not do what it should

Each point is a theorem below, with the exact condition.

* The assertion at `frob.c:510` (a good frame has positive length) fails exactly when the machine was left inside a
  payload and the next buffer begins with ETX and the byte that closes the checksum (`ProcessMain`, `AbortsExactly`):
  STX and any x, then ETX and their checksum (`AssertionFails`).
* If a read ends between ETX and checksum, `process_main` never acknowledges that frame (`CutBehindEtx`) and stays
  deaf, whatever is read afterwards (`DeafForever`); if a read begins with the ETX of a good frame, that frame is the
  last that is acknowledged. All frames are, exactly if no read begins with the checksum of one, or with the ETX of a
  good one other than the last (`NoneIsLost`; for two reads, `TwoReads`). Of a frame that is resumed, `parse_message`
  is handed only the part in the later read (`ReadsExactly`).
* With a signed `char`, `fsm/wireprotocol.rl` refuses every checksum from 0x80 on.
* A good frame is lent as a count of bytes from the beginning of the buffer. In one read it is the length of STX and
  payload (`LentInOneRead`); those bytes are STX and payload exactly if the first frame of the buffer stands at its
  beginning and its payload begins with the payload of this one (`LentContents`).
* For a frame whose payload begins in an earlier read, at a higher offset than its checksum has in its own, the size is
  negative. The frontend then stops for good, holding slot 0 (`NegativeStops`, `NegativeSizeStops`), and nothing is ever
  read again (`StuckForever`). Without reading more, it comes to that if and only if the bytes read hold such a frame
  (`StopsExactly`): in the ring, under every schedule and within a bound (`StopsInTime`). `RunningBack` is a run of that
  kind from the initial state.
* When a task exits, its successor is passed over once, and its wait for a descriptor is missing from the next
  `select` exactly if no task that did run waits for the same (`SelectIsExact`, `ExitLosesWaits`; `AWaitIsLost` is an
  instance).
* `frob_type_to_string` writes DA as `D:`, which reads as D0 (`TypeRoundTrip`).
* `serialize` asserts that what it has written is a frame (`WrittenIsFrame`: its payload is cut out whole if and only if
  no text holds ETX) and that its payload can be parsed. The payload is never accepted for a P1, A1, I1 or A2
  (`NeverRead`) or a T4 (`T4NeverRead`); for an S2 not exactly if a piece of it is such as its field cannot hold, as a
  payment method that is not a number (`ReceiptsAreShifted`); for the other thirteen not exactly if a required field is
  empty or a text holds a byte its field cannot hold, except that a T2 with an FS and a US in its texts may be accepted
  as another message (`RoundTrip`). Those are all nineteen types it writes.
* An S2 is written without `trx_id`, which its reader expects: what comes back has the amount as its transaction, the
  cashback as its amount, and so on; `Shifted` gives it field by field, with the stale text that fills an empty field.
  An FS in a text is taken for the end of a field. It is the S2 that was sent exactly if all its fields behind the
  terminal show the same forty digits (`SurvivesShift`), or if one of them ends with an FS that makes up for the missing
  field (`SurvivesByFs`, `ReceiptWithFs`).
* The versions of a T4 are separated with US and read up to FS. The reader stops at the first US, where the attribute
  machine copies from a pointer that has not been set; so it does for all attributes that begin with US
  (`UnsetExactly`). No T4 is ever accepted, neither is the answer of the autoresponder to a T3 (`NoVersionArrives`).
* The autoresponder answers T1, T2, T3, T4, D4, B1 and K0; any other message that it accepts fails its assertion
  (`Answered`).
* A T4 with more than twenty versions, or a hexadecimal text longer than its array, is written behind the array
  (`VersionsAreRead`, `OverlongIsUndefined`).
* An empty key name of a D5 or an empty K0 output reads back as the text of the field before it and its separator, and a
  result of 2^32 or more reads back modulo 2^32 (`RoundTrip`: these are the conditions in `Restorable`).

## Model

| member | source | states |
|---|---|---|
| `Bytes.CalculateLrc` | utils.c:21-27 | gives the XOR of exactly the bytes in the range |
| `Bytes.LrcDetectsReplacement` | utils.c:21-27 | replacing any one byte by another changes the checksum |
| `Frame.FrameFsm.Process` | fsm/frame.rl:43-68 | code, start, end, state and checksum after the byte loop, from any state it can be left in |
| `Frame.RunConcat` | fsm/frame.rl:31-33 | state and checksum after two chunks are those after their concatenation |
| `FrameSpec.FreshResult` | fsm/frame.rl:31-68 | from a fresh state: a result other than EAGAIN exactly if there is a complete frame (first STX, no ETX behind it, first later ETX, one more byte), at its bounds, 0 exactly if the checksum holds; the pointers also for incomplete frames |
| `FrameSpec.NeverNotRecoverable` | fsm/frame.rl:63-64 | ENOTRECOVERABLE is never returned, from any state |
| `FrameSpec.FailedForever` | fsm/frame.rl:33-67 | after STX ETX, or past a frame, every later call gives EAGAIN and no end |
| `FrameSpec.Resumption` | fsm/frame.rl:43-68 | reading in two calls reaches the state and checksum of one call; the result code agrees if and only if the first call has not passed the closing ETX (or nothing follows) |
| `FrameSpec.PositiveLength` | fsm/frame.rl:43-68 | a reported frame lies inside the buffer and is not empty, except exactly when a payload is resumed at an ETX |
| `Frames.AllIsTheChain` | frob.c:487-505 | the frames found by restarting two bytes behind each ETX are the only chain of frames, each next behind the other, with none left over |
| `Frames.CorruptionIsLocal` | fsm/frame.rl:14-33 | changing a payload byte to a non-ETX byte, or the checksum byte, of one good frame turns exactly that frame bad and leaves all bounds and other verdicts alone |
| `Frames.StreamRecovered` | frob.c:495-535 | from payloads without ETX, framed with any junk without STX between them, exactly those extents are found, in order, followed by what the tail holds |
| `Frames.ExtentsCut` | frob.c:495-535 | those extents cut out exactly the payloads, good if and only if the checksum sent is theirs |
| `MainLoop.Main.ProcessMain` | frob.c:495-535 | one ACK or NAK for each frame by its checksum; each counter grows, modulo 2^16, by the number of the good frames whose payload was handled, not parsable or not handled, and of the bad ones; buffer emptied, machine left as after the remaining bytes; stops exactly where its assertion fails, after one acknowledgement; terminates |
| `MainLoop.Main.TakeFrame` | frob.c:507-531 | one acknowledgement and one counter for a frame; an unparsable good frame is still acknowledged with ACK |
| `MainLoop.Main.Fnext` | frob.c:487-493 | fresh state two bytes behind the closing ETX |
| `MainLoop.Main.CommissionAck` | frob.c:345-348 | appends NAK for a bad frame, ACK for a good one |
| `MainLoop.TallyCountsFrames` | frob.c:507-531 | the four counters together grow by the number of frames |
| `MainLoop.TallyMeans` | frob.c:507-531 | each of the four counters is the number of frames with that checksum verdict and that fate of the payload |
| `MainLoop.AbortsExactly` | frob.c:509-510 | the positive-length assertion fails if and only if the machine was left in a payload and the buffer begins with ETX and the matching checksum |
| `MainLoop.AssertionFails` | frob.c:509-510 | that state arises from two reads: STX and any byte but ETX, which pass, then ETX and the checksum, which fail |
| `MainLoop.CutBehindEtx` | frob.c:495-535 | a first read that ends behind ETX shows no frame and leaves the machine waiting for a checksum |
| `MainLoop.DeafForever` | frob.c:495-535 | from such a state, or past a frame, or failed, no sequence of later reads shows a frame |
| `MainLoop.FreshStep` | frob.c:495-498 | a loop that starts fresh sees exactly the frames of the buffer |
| `Wire.WireFormat.WriteExec` | fsm/wireprotocol.rl:13-31 | state and lends of the machine over the bytes just read |
| `Wire.WireFormat.FsmWireformat` | fsm/wireprotocol.rl:36-56 | all lends of a sequence of reads up to the end of input, and the return value |
| `Wire.ChunkIndependence` | fsm/wireprotocol.rl:45-49 | verdicts, machine state and checksum depend on the bytes alone, not on how reads cut them |
| `Wire.SameVerdicts` | fsm/wireprotocol.rl:13-31 | on every buffer the verdicts of the streaming machine are those of the restarted one, except that a signed char refuses checksums from 0x80 on |
| `Wire.SameVerdictsResumed` | frob.c:495-535 | the same for a state carried over from an earlier read, unless that read ended between ETX and checksum: then nothing at all is acknowledged; and of a read that begins with the ETX of a good frame only that frame |
| `Wire.TwoReads` | frob.c:495-535 | two reads are acknowledged as one would be if and only if the first does not end between ETX and checksum, and the second does not begin with the ETX of a good frame and hold another |
| `Chopped.ReadsExactly` | frob.c:495-535 | for all sequences of reads: acknowledged and handed on are the frames of the byte stream up to the first whose checksum begins a read, or through the first good one whose ETX does; of each the part in the read of its ETX, with its verdict |
| `Chopped.NoneIsLost` | frob.c:495-535 | all frames of the stream are acknowledged if and only if no read begins with the checksum of one, or with the ETX of a good one that is not the last |
| `Places.LentSizes` | fsm/wireprotocol.rl:19-31 | for all sequences of reads: the k-th lend is that of the k-th frame of the bytes read, Nok or of size (offset of the checksum in its read) minus (offset of the payload in its read) |
| `Places.LentInOneRead` | fsm/wireprotocol.rl:19-31 | each frame of one read is lent with the length of STX and payload, or as Nok |
| `Places.LentContents` | fsm/wireprotocol.rl:19-31 | the bytes lent are STX and payload of the k-th frame if and only if the first frame is at the beginning and its payload begins with this one |
| `Ring.ContextRing.Insert` | multitasking/contextring.c:5-31 | the new node stands behind the cursor and becomes it; the links run round the new cycle |
| `Ring.ContextRing.Shrink` | multitasking/contextring.c:33-43 | the cursor leaves the cycle and moves to the next node; empty ring when it was alone |
| `Ring.ContextRing.Advance` | multitasking/suspendables.c:255 | the cursor moves one link on, the cycle is the same |
| `Ring.ContextRing.LinksMirrored` | multitasking/contextring.c:5-43 | p.next.prev = p and p.prev.next = p for every node |
| `Scheduler.RegistrationOrder` | multitasking/suspendables.c:253-254 | tasks 0 to L-1 run in the order L-1, 0, ..., L-2 |
| `Scheduler.Transfer` | multitasking/suspendables.c:187-192 | the task at the cursor runs; an exit moves the cursor twice |
| `Scheduler.RunAll` | multitasking/suspendables.c:243-262 | the trace of transfers and exits for every behaviour of the tasks; when the loop ends every task has exited exactly once |
| `Scheduler.TasksConserved` | multitasking/suspendables.c:253-256 | exited tasks and tasks still in the ring are together the tasks there were |
| `Scheduler.OneStep` | multitasking/suspendables.c:255-256 | at each transfer (ring size, distance) of a waiting task falls lexicographically |
| `Scheduler.RunsWithinBound` | multitasking/suspendables.c:253-256 | a task d links ahead of the cursor runs after at most the bound of other transfers, whatever the tasks do |
| `Scheduler.WaitClosed` | multitasking/suspendables.c:253-256 | the bound is d + (n-1)(n-2)/2 |
| `Scheduler.BoundAttained` | multitasking/suspendables.c:253-256 | for every ring and distance some behaviour makes the task wait exactly that long |
| `Slots.PhaseDelivers` | multitasking/suspendables.c:131-183 | in each situation of a slot, returned is a prefix of taken, taken of lent, and at most one item is out |
| `Pipeline.StepKeeps` | multitasking/suspendables.c:127-183 | every turn of every task keeps the ownership invariant |
| `Pipeline.Ownership` | fsm/wireprotocol.rl:45-54 | in every reachable state: slot 1 occupied means the frontend stands in its lend with slot 0 borrowed, slot 0 occupied means the wire task stands in its lend; the buffer is never refilled while a pointer into it is held; no assertion of lend, borrow or return has failed |
| `Pipeline.BorrowedInside` | fsm/frontend.rl:40-43 | what the autoresponder holds is a suffix of what the wire task lent |
| `Pipeline.LentFrom` | fsm/frontend.rl:40-43 | what is lent on from an offset are exactly the places of the borrowed range from there on |
| `Pipeline.Delivery` | multitasking/suspendables.c:131-183 | exactly-once, in order, on both slots; a lender past its lend has everything back |
| `Pipeline.LendReturnsLast` | multitasking/suspendables.c:136-145 | a lend returns only after its own item was returned |
| `Pipeline.WireGoneForGood` | multitasking/suspendables.c:127-163 | after the final disable of slot 0 nothing lent is undelivered and every later borrow gives -1 |
| `Pipeline.FrontGoneForGood` | fsm/frontend.rl:87-96 | the same for slot 1 |
| `Pipeline.NegativeSizeStops` | fsm/frontend.rl:87-96 | a negative size ends the frontend with slot 0 borrowed and nothing lent on |
| `Service.NegativeStops` | fsm/frontend.rl:87-96 | whichever negative item is lent, the next turn of the frontend is its last |
| `Service.StopsExactly` | fsm/wireprotocol.rl:36-56 | over all runs from the initial state: the frontend is stopped if and only if it took a negative item; and some continuation without further reads stops it if and only if a good frame of the bytes read has its checksum at a lower offset than its payload; then the wire task never ends |
| `Service.StopsInTime` | multitasking/suspendables.c:253-256 | the same under every schedule of the ring: after enough transfers, without further reads, the frontend is stopped if and only if there is such a frame |
| `Service.RunningBack` | fsm/wireprotocol.rl:45-54 | two reads and two turns after which slot 0 holds an item of size -3, and stays so whatever runs |
| `Service.RunHealthy` | fsm/frontend.rl:83-97 | in every reachable state nothing negative was ever returned, and the frontend has ended only with the wire task or stopped |
| `Service.ReturnedInTime` | multitasking/suspendables.c:131-183 | in any ring with the three tasks, whatever the others do, exits included, and from every reachable state: after a bounded number of transfers the items lent, and those to be lent, are all back in order, or, if one is negative, the frontend has stopped |
| `Service.ToilBound` | multitasking/suspendables.c:131-183 | the turns needed for an item that is lent on at most k times are at most 2k + 2 |
| `Pipeline.StuckForever` | multitasking/suspendables.c:138-141 | and after that, whatever runs, the wire task stays in that lend |
| `Pipeline.RunAccounts` | fsm/wireprotocol.rl:45-49 | over any run, what was lent and is still to be lent are the lends of the bytes read, once each |
| `Pipeline.EveryFrameDelivered` | fsm/wireprotocol.rl:36-56 | when the wire task has ended, under any schedule the frontend has taken and returned one item per frame of the byte stream, in order, a range of the buffer exactly for good frames |
| `Service.EveryLendDelivered` | fsm/wireprotocol.rl:19-31 | over all runs, the k-th item the frontend is handed is, for the k-th frame of the bytes read, the one-byte literal if it is refused, otherwise the read buffer from its beginning, as long as the offset of the checksum minus that of the payload in their reads; when the wire task has ended, all of them were handed on and returned |
| `Service.LendCovers` | fsm/wireprotocol.rl:19-31 | a frame whose payload begins in the read of its checksum is lent with the length of STX and payload, and, if STX begins that read, as exactly those bytes |
| `Ending.EofEnds` | fsm/wireprotocol.rl:45-54 | the end of the input ends the wire task, with slot 0 disabled and everything back |
| `Ending.AllEnd` | fsm/frontend.rl:83-97 | from then on, whatever runs in between, a turn of the frontend and a later one of the autoresponder leave all three tasks ended and both slots empty and disabled |
| `Ending.EndsInTime` | multitasking/suspendables.c:148-171 | so in every ring, under every schedule, within two laps |
| `Ending.EndsFree` | fsm/frontend.rl:87-96 | in every reachable state in which the frontend has ended, slot 0 is free if and only if it is disabled; otherwise it holds a negative item |
| `Ending.EndsBecause` | fsm/frontend.rl:87-96 | the frontend ends in a turn only if slot 0 was disabled or held a negative item, and then disables slot 1 |
| `Tasks.Rendezvous.SusLend` | multitasking/suspendables.c:131-145 | the slot's new content and history, no other slot touched; the source's assertions are its preconditions |
| `Tasks.Rendezvous.SusBorrow` | multitasking/suspendables.c:148-171 | gives the item, -1 or a wait, and marks the slot borrowed in the first case |
| `Tasks.Rendezvous.SusReturn` | multitasking/suspendables.c:173-183 | empties the slot and clears both flags |
| `Tasks.Rendezvous.SusDisable` | multitasking/suspendables.c:127-129 | sets the flag of that slot only |
| `Tasks.Rendezvous.ReadChunk` | fsm/wireprotocol.rl:45-48 | refills the buffer, allowed only while nobody holds a pointer into it |
| `Tasks.Rendezvous.WireTurn` | fsm/wireprotocol.rl:45-54 | one run of the wire task is its step, and never breaks a precondition of the slots |
| `Tasks.Rendezvous.FrontTurn` | fsm/frontend.rl:83-97 | the same for the frontend |
| `Tasks.Rendezvous.RespTurn` | autoresponder.c:73-96 | the same for the autoresponder |
| `IoSets.RoundSchedules` | multitasking/suspendables.c:86-99 | whatever the tasks of a round do, scheduled is afterwards exactly what those that ran now wait for, and the other tasks are as they were |
| `IoSets.SelectIsExact` | multitasking/suspendables.c:202-231 | for every round of the scheduler between two runs of the I/O loop: scheduled is what all suspended tasks wait for if and only if each waiting task that the round missed waits for what some task of the round waits for too |
| `IoSets.ExactWithoutExit` | multitasking/suspendables.c:202-231 | it is so in every round in which no task exits |
| `IoSets.MissedArePassedOver` | multitasking/suspendables.c:187-192 | the tasks a round misses are exactly those that followed an exiting task |
| `IoSets.ExitLosesWaits` | multitasking/suspendables.c:187-192 | if no task of the round attempts what a passed-over task waits for, scheduled is exact if and only if none of those was waiting before the round |
| `IoSets.AWaitIsLost` | multitasking/suspendables.c:187-192 | a round of four tasks with one exit, after which the wait of the passed-over task is not scheduled |
| `Scheduler.RoundWithoutExit` | multitasking/suspendables.c:253-256 | without an exit every other task runs once between two runs of the I/O loop |
| `IoSets.ReportConsumedOnce` | multitasking/suspendables.c:113-125 | one readiness report serves at most one successful read, whatever tasks run |
| `IoSets.TurnUsesUp` | multitasking/suspendables.c:86-125 | a turn makes inactive exactly the descriptors it has read from, those it has written to stay; once I/O is surrendered nothing waits or is scheduled |
| `IoSets.VisitsUseUp` | multitasking/suspendables.c:86-125 | over a round, the descriptors that stay active are exactly those that no task has read from |
| `IoSets.IoPlane.RunTask` | multitasking/suspendables.c:86-125 | sets, reads and suspension after a task's calls of sus_read and sus_write |
| `IoSets.IoPlane.SuspendUntilActive` | multitasking/suspendables.c:86-99 | suspends exactly if the descriptor is not active and I/O is not surrendered, and then schedules it |
| `IoSets.IoPlane.Refresh` | multitasking/suspendables.c:215-231 | select is asked for what was scheduled; its answer becomes active, scheduled becomes empty |
| `FirstLevel.MachineAcceptsTheGrammar` | fsm/first_level.rl:20-32 | the machine comes back to rest exactly on the words of the grammar |
| `FirstLevel.StateKnows` | fsm/first_level.rl:20-32 | what the state of the machine says about frames, acknowledgements and troubles so far |
| `FirstLevel.AcknowledgementsConserved` | fsm/first_level.rl:20-32 | internal frames and acknowledgements are equal in number; in each prefix they differ by at most one and no frame starts while they differ; at most three NAKs and timeouts for an idempotent frame, one NAK and no timeout for another |
| `Numerals.DecRoundTrip` | serialization.c:72-78 | decimal text reads back as the number and consists of digits |
| `Numerals.HexRoundTrip` | fsm/header.rl:119-123 | hexadecimal text reads back as the token |
| `Numerals.DecPlaces` | serialization.c:72-78 | the i-th decimal digit from the right stands for its power of ten |
| `Numerals.HexPlaces` | utils.c:178-185 | the same for hexadecimal digits |
| `Numerals.NoLeadingZero` | serialization.c:72-78 | no number but 0 is printed with a zero in front |
| `Numerals.LowerRoundTrip` | utils.c:30-38 | lower-case hexadecimal text reads back as well |
| `Numerals.CaseIsIgnored` | utils.c:30-38 | texts that differ in the case of their letters read as the same number |
| `Numerals.BytesIgnoreCase` | utils.h:35-42 | and as the same bytes |
| `Numerals.HexLength` | fsm/header.rl:32-32 | a token prints in at most k digits if and only if it is below 16^k |
| `Numerals.BytesRoundTrip` | utils.c:178-185 | hexadecimal byte strings read back, take two digits a byte |
| `Numerals.TextRoundTrip` | utils.h:34-34 | a char array written up to its NUL and copied into a zeroed array is restored if and only if it is padded with NUL |
| `Message.TypeRoundTrip` | utils.c:90-96 | a type survives printing and reading if and only if it is not DA |
| `Message.CodeFacts` | frob.h:29-90 | a type code is channel, class and number; only DA has a number above 9 |
| `Message.TypeNames` | utils.c:71-96 | the names under which the messages are written |
| `Serialization.FitIsLargestBoundary` | serialization.c:30-36 | what is written before the bail-out is the largest item boundary not above the capacity, and all exactly if all fits |
| `Serialization.WrittenWithinCost` | serialization.c:47-90 | the most bytes each kind of item takes |
| `Serialization.Writer.XCopy` | serialization.c:30-36 | cursor plus free space stays the capacity; the item is written whole or the cursor stays |
| `Serialization.Writer.SerializeString` | serialization.c:68-70 | writes the text up to the first NUL and returns its length, NUL behind it up to the width of the array, and nothing more |
| `Serialization.Writer.SnprintHex` | utils.c:178-185 | writes the digits only if one byte more is free, otherwise leaves the buffer alone, but always returns their number |
| `Serialization.Serialize` | serialization.c:92-244 | succeeds exactly if the whole frame fits, with exactly that frame in the buffer, which for a T4 holds between header and ETX every version with US behind it, and one FS; otherwise gives, negated, the largest item boundary that fits, and without byte arrays the buffer holds that prefix of the frame; never more than 612 bytes |
| `Serialization.VersionsAreCut` | serialization.c:119-124 | if no version holds a US, those bytes cut at US are the versions, in order, and the FS; there are as many US as versions |
| `Layout.RowInOrder` | serialization.c:102-220 | which fields stand in the bytes of each body, in which order, with FS behind each |
| `Layout.ParametersInOrder` | serialization.c:128-161 | the same for a D5: numbers, key names with US, a lone FS, codes |
| `Serialization.LimitReachedByB2` | serialization.c:197-205 | exactly which B2 messages take 612 bytes |
| `Header.HeaderFound` | fsm/header.rl:21-32 | the machine finds a header exactly if there is one (1 to 6 hexadecimal digits, FS, type name, FS) and stops behind it |
| `Header.NamesAreTypes` | fsm/header.rl:21-30 | every type name the machine lets through is known to deserialize_type |
| `Header.NamesExactly` | fsm/header.rl:21-30 | the machine lets through the names of all types but I1 and A2, and "DA" |
| `Attributes.AttributesMean` | fsm/attrs.rl:17-19 | the attribute machine accepts exactly nothing, or texts with US behind each and one FS |
| `Attributes.UnsetExactly` | fsm/attrs.rl:8-19 | an action reads the unset pointer if and only if the attributes begin with US |
| `Attributes.UnitsCopied` | fsm/attrs.rl:8-19 | the first nineteen units are copied: each its own text, or the stale text of the last one that was not empty |
| `Languages.WithAttributes` | fsm/attrs.rl:24-38 | behind a T1 or D4 attributes are accepted, and the first nineteen copied with their first three bytes, padded with NUL |
| `Languages.NoAttributesBehind` | utils.c:112-136 | behind a body that has to be read to its end there never are any |
| `FieldMachine.Exec` | fsm/body.rl:473-489 | the byte loop of a body machine over a row of fields |
| `FieldMachine.AcceptsRows` | fsm/body.rl:38-44 | the language of a body machine: it gets through n fields to the end if and only if the bytes are a row of n texts of the right bytes and lengths |
| `FieldMachine.OnlyReading` | fsm/body.rl:38-44 | a row of texts without separators that is read to its end is read as those texts and no others |
| `FieldMachine.RowRead` | fsm/body.rl:38-44 | a row of clean and long enough texts is read to its end, each field capturing its own text, or exactly the stale text since the last mark when it is empty |
| `FieldMachine.RowStuck` | fsm/body.rl:38-44 | a row is read up to the first field that is too short: the cursor stays at its separator, with the captures so far |
| `FieldMachine.RowHalts` | fsm/body.rl:38-44 | or up to the first byte that a field cannot hold, with the captures so far |
| `Parser.Extractor.HeaderExtract` | fsm/header.rl:98-125 | result code, cursor, type and token, also after a failure; its two assertions hold |
| `Parser.HeadMeans` | fsm/header.rl:98-125 | over all byte strings: a header is taken if and only if its type is the predefined one, or none is; type, token and cursor then and otherwise |
| `Parser.TokenIgnoresCase` | fsm/header.rl:119-123 | a token in lower case is the same token |
| `Parser.Extractor.BodyExtract` | fsm/body.rl:632-654 | result code, cursor and body of the machine of that type |
| `Languages.BodyAccepted` | fsm/body.rl:632-654 | over all byte strings and the eleven types whose state is looked at: 0 if and only if the bytes are a row of as many fields as `main` lets it end with (K0 one or two, B2 five to seven, S1 eight or nine, S2 five to nine), and then all is read; the error otherwise |
| `Languages.GivenIsRead` | fsm/body.rl:632-654 | of such a row, if no text is empty or too long, each field is stored from its own text, and the fields left out are zero |
| `Languages.GivenIsAccepted` | utils.c:112-136 | the same for whole messages |
| `Languages.ResultIsEnough` | fsm/body.rl:584-612 | a K0 without output is accepted |
| `Languages.NothingOrFs` | fsm/body.rl:47-96 | T1, D4, T3 and K1 have nothing or one FS in their body |
| `Languages.VersionsAreRead` | fsm/body.rl:99-125 | a T4 with FS behind each version is read, up to twenty of them; with more, bytes behind the array are written |
| `Languages.OverlongIsUndefined` | fsm/body.rl:217-281 | so they are for a hexadecimal text longer than its array |
| `Languages.EmptyIsUndefined` | fsm/body.rl:217-281 | and an empty first field makes its action read the unset pointer |
| `Languages.FieldMeans` | fsm/body.rl:4-8 | what each kind of field stores for every text it can hold |
| `Languages.NumberMeans` | fsm/body.rl:6-6 | strtol on every text: spaces, sign, digits, the rest; saturating |
| `Parser.Extractor.AttributesExtract` | fsm/attrs.rl:24-38 | result code, cursor and copied units, those through the unset pointer marked; accepted means read to the end |
| `Parser.Extractor.ParseMessage` | utils.c:112-136 | accepted, rejected, or undefined where an action reads an unset pointer; when accepted the cursor is at the end, so that the assertion there never fails, and message and attributes are those extracted |
| `Rows.BodyIsRow` | serialization.c:102-220 | the body that is written is, byte by byte, the row of fields that is read, in the same order |
| `Rows.BuildOfValues` | fsm/body.rl:632-654 | a body is rebuilt from the values of its row |
| `Rows.BuildIsInjective` | fsm/body.rl:632-654 | and from no other values |
| `Fields.FieldKept` | fsm/body.rl:10-44 | a field that is read gives back the value that was written, if and only if: a text is padded and not empty (or may be left out), a number fits into 32 bits |
| `Conditions.BodyHolds` | fsm/body.rl:38-44 | which bodies hold only bytes that their fields may hold: Plain |
| `Conditions.BodyPasses` | fsm/body.rl:38-44 | which bodies have no field too short for the reader: Filled |
| `Conditions.BodyKept` | fsm/body.rl:10-44 | which bodies it gives back: Restorable |
| `Codec.FullIsFramed` | serialization.c:102-229 | what is written is STX, payload, ETX and the checksum of payload and ETX |
| `Codec.HeadOutcome` | fsm/header.rl:98-125 | token, type and cursor are read back for every type but I1 and A2, for which there is no header |
| `Codec.WholeIsAccepted` | serialization.c:233-236 | a Filled and Plain message is accepted with its token and type and without attributes, equal if and only if Restorable |
| `Codec.AcceptedWasPlain` | serialization.c:233-236 | whatever bytes its texts hold, separators too, a message that is accepted was Filled and Plain (a T2: that comes back) |
| `Codec.RoundTrip` | serialization.c:233-236 | for T1, T2, T3, T5, D4, D5, S1, B1 to B4, K0 and K1 with any bytes in their texts: accepted if and only if Filled and Plain, or a T2 whose bytes are four fields and attributes; the same token, type and body if and only if Filled, Plain and Restorable: arrays are padded, key names and output not empty, results below 2^32 |
| `Codec.T2Outcome` | fsm/body.rl:62-97 | the exact condition under which a T2 is accepted |
| `Codec.TextAsAttribute` | fsm/attrs.rl:8-19 | a family of T2s that are accepted as other messages: an FS in the last text, and a US at its end |
| `Codec.WrittenIsFrame` | serialization.c:233-234 | for every message of all nineteen types: frob_frame_process cuts out exactly the payload if and only if no text holds ETX, and then gives 0 |
| `Codec.Conversation` | frob.c:495-513 | in any sequence of written messages of all types without ETX in their texts, with junk without STX between them, the k-th frame found is good, and reads back as the k-th message if and only if that is Filled, Plain and Restorable |
| `Codec.ConversationInReads` | frob.c:495-513 | the same line cut into reads anywhere: how many of its messages are acknowledged, which part of the k-th is handed on, and, if that is all of it, that it reads back under the same condition |
| `Unread.NeverRead` | serialization.c:235-236 | P1, A1, I1 and A2 are written but never parsed |
| `Unread.T4NeverRead` | fsm/body.rl:99-125 | no T4 is accepted: the unset pointer is read if and only if the first version, up to a US in it, is printable texts with one FS between them; otherwise it is rejected |
| `Unread.PlainReaches` | fsm/body.rl:99-125 | so it is read for every printable first version |
| `Receipt.ReceiptIsRow` | serialization.c:173-182 | an S2 is written as eight fields of the nine that are read |
| `Receipt.ReceiptsAreShifted` | fsm/body.rl:217-281 | the outcome for every S2, whatever bytes its texts hold: accepted as exactly Shifted if and only if its texts, cut at every FS, are at most nine pieces that the fields can hold, otherwise rejected; it comes back if and only if, besides, SurvivesShift, or with an FS in a text SurvivesByFs |
| `Receipt.ReceiptWithFs` | fsm/body.rl:217-281 | a family of S2s that come back because their amount ends with an FS |
| `Receipt.NothingStale` | fsm/body.rl:217-281 | if no field is empty, which field ends up where |
| `Autoresponder.Responder.Respond` | autoresponder.c:72-94 | whatever is borrowed, an accepted question is answered whole within 1024 bytes, a rejected one ends the task, an undefined read leaves the reply open; nothing is ever skipped for lack of space |
| `Autoresponder.TokenStaysShort` | autoresponder.c:76-82 | a token that was read is short enough to be written |
| `Autoresponder.Exchange` | autoresponder.c:75-88 | for T1, T2, D4, B1 and K0 the answer has the token of the question and the type behind it, and the other side reads exactly the answer that was meant: device information or parameters of the configuration |
| `Autoresponder.Answered` | autoresponder.c:75-88 | over all byte strings that are accepted: which questions are answered, with their token and the type behind theirs |
| `Autoresponder.NoVersionArrives` | autoresponder.c:43-45 | the answer to a T3 holds the four configured versions and sixteen empty ones; the other side never accepts it, and reads the unset pointer under the same condition on the first version |
| `Autoresponder.VersionsAreSent` | autoresponder.c:43-45 | in the frame of that answer, cut at US, stand the configured versions, sixteen empty texts and FS |

## Left out

- System calls, timers, signals, logging, configuration files: `read`, `write` and `select` answer anything; `select`
  answers a subset of what it was asked.
- Coroutine switches and stacks: one step of a task is one run between two suspensions.
- The `visited < 100` guard of `suspend` (multitasking/suspendables.c:55): it ends the process.
- `IoSets.SelectIsExact`: only descriptors 0 to 9 and the read and write sets, as `sus_ioloop` looks at no others with
  `maxfd` 10 and nothing schedules the third set.
- The acknowledgement machine inside `fsm_exec` (fsm/frontend.rl:51-54): it may lend any suffix of the borrowed range
  and write any number of times between borrow and return, in any order.
- Process exit of the autoresponder in the middle of a pipeline run: `Respond` reports it, `Pipeline` goes on without.
- `MainLoop.Main.ProcessMain`: what `commission_response` does with a parsed message is a parameter that answers
  handled, not handled or not parsable.
- Channels, retransmission, ping timers and locking in `frob.c`.
- `Serialization.Serialize`: the buffer has 100 bytes of slack behind the capacity, or 612 bytes in all, because
  `stpncpy` pads whole arrays; tokens are below 2^24, as longer ones overrun the seven-byte text of
  `serialize_token`; the type switch covers the 19 types it accepts, and the magic string is taken as right.
- `Codec.RoundTrip`: of a message that is not accepted and has separators in its texts, whether it is rejected or read
  through an unset pointer is not said.
- `Codec.ConversationInReads`: what the reader makes of the rest of a payload that began in an earlier read is not said.
- `Service.ReturnedInTime`: reads and writes are answered at once, and the three tasks do not exit before they are done.
- `IoSets.MissedArePassedOver`: the I/O loop itself is not passed over in the round.
- `Parser.Extractor.ParseMessage`: where an action of the source reads an unset pointer or writes behind an array
  (empty first fields, overlong hexadecimal fields, more than 20 versions), the result is `Undefined` and nothing more.
- `MainLoop.Main.CommissionAck`: the output channel is a list without a limit.
- `fsm/protocol.rl`: its message codes are not those of `frob.h`, and it is not built.
