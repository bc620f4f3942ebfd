# Verified model of the device tree's protocols and algorithms

This project models, in Dafny, the parts of an Android device tree that are algorithms or
protocols rather than glue, and proves what they promise:

- **NFC firmware download** (`pn54x/dnld`). `CrcRegister`, `CrcTable`, `Crc`: the frame CRC.
  `DnldWrite`: cutting an image of length-prefixed records into frames, and a receiver that joins
  them again. `DnldHandler`: the command handler as a state machine driven by finished transfers,
  replies and one timer. `DnldRuns`, `DnldReads`: whole runs of writes and of segmented reads.
  `DnldBuffers`: writes of any buffer, and which of them stay inside it. `DnldCompletion`: the one
  completion of reads, commands and writes of such buffers, whatever is answered, and what goes
  wrong otherwise. `DnldCommands`: commands byte for byte.
  `DnldContext`: the same handler as a class that updates its context and its one frame buffer in
  place, each method proved to do what the state machine says.
- **Download driver** (`phNxpNciHal_Dnld.c`). `FwDriver`: the handlers, sequences, recovery and
  retry, steered by flags and an 8-bit attempt counter, against arbitrary answers. `FwDownload`:
  the sequence loop and the recursive completion on a context in place. `FwOutcomes`: which versions
  are installed, and how refused writes are recovered. `FwDriverLimits`: runs that show where the
  bound on image writes stops holding.
- **Transport** (`pn54x/tml`). `Tml`: client, writer thread and callback thread over shared records.
  `MessageQueue`: the linked list on the heap, and its semaphore protocol for any number of threads.
- **Sensor multi-HAL** (`sensors`). `SensorQueue`: the ring buffer. `SensorSystem`: writers and the
  poller as interleaved steps. `SensorPoll`: the poller's scan loop.
- **Text formats and an order**. `CameraMap`, `CameraSizes`: camera parameters and sizes as text.
  `PathOrder`: the comparison used to sort file lists.

Chip and callers are played by explicit inputs: replies, transfer results, timer expiries, flags of
the operating system. A lemma about runs quantifies over all sequences of such inputs. `dafny verify
dfyconfig.toml` checks everything.

Seven things the proofs show about the code as it is:

- A reply is read into the buffer the frame was sent from, so after a "memory busy" answer a frame
  can go out again intact only if it is no fragment and starts with the busy code itself
  (`DnldRuns.ResendExactIff`).
- Record lengths are not checked against the end of the buffer. Answered as expected, a write stays
  inside its buffer exactly if that holds whole records, up to a last one that may be cut after full
  fragments (`DnldBuffers.StaysInsideIff`); an odd number of zero bytes, say, can be written for ever
  without a callback (`DnldCompletion.OddZerosRunOn`).
- An OK to the first fragment of a record, which a conforming chip does not give, makes the write
  run past its image (`DnldCompletion.FalseOkOverruns`, `DnldCompletion.FalseOkRunsOn`).
- A read of more than 65531 bytes wraps a 16-bit length and reports 248 bytes (`DnldReads.ReadCompleteIff`).
- The bound of three image writes needs its provisos: with a failed semaphore wait or a wrapped
  attempt counter there are runs with four (`FwDriverLimits`).
- The write callback runs after the busy flag is cleared, so a second caller's request can replace
  whom it calls, and a second outcome what it is told (`Tml.ReportsOwnIff`, `Tml.LateCallGoesToNext`,
  `Tml.LateCallTellsNext`).
- The path comparison is transitive on a set of lines exactly when no slashless line has both a line
  in a proper subdirectory of it and a line that sorts between the two (`PathOrder.OrderIff`).

Where code and comments disagree the code is followed: the CRC starts at 0xffff (the comment at
`pn54x/dnld/phDnldNfc_Utils.c:77` names 0x1d0f), and a failing bus write is tried four
times in download mode (the comment at `pn54x/tml/phTmlNfc.c:448` says five). The build names its chip
by identifiers that are never defined as macros, so every preprocessor comparison of two of them is
true and the first arm is modelled.

## Model

| member | source | states |
|---|---|---|
| CrcTable.TableHoldsEightShifts | pn54x/dnld/phDnldNfc_Utils.c:25-54 | Every one of the 256 table entries is eight shifts of the register for x^16+x^12+x^5+1. |
| Crc.CalcCrc16 | pn54x/dnld/phDnldNfc_Utils.c:68-87 | The table-driven loop over a buffer computes the bit-by-bit CRC of its first `len` bytes, preset 0xffff, and leaves the buffer alone. |
| Crc.CrcIsRemainder | pn54x/dnld/phDnldNfc_Utils.c:68-87 | That CRC is the remainder of polynomial long division of the message, its first sixteen bits inverted and sixteen zeros appended. |
| Crc.ChecksIffCrcBytes | pn54x/dnld/phDnldNfc_Internal.c:656-666 | A frame passes the receiver's check if and only if its last two bytes are the CRC of the rest; an uncorrupted frame always passes. |
| Crc.ChecksIffZero | pn54x/dnld/phDnldNfc_Internal.c:867-892 | Passing the comparison is the same as the register being zero after the whole frame. |
| Crc.BurstDetected | pn54x/dnld/phDnldNfc_Internal.c:867-892 | Two different frames of any length that agree outside some 16 consecutive bits never both pass. |
| Crc.AdjacentBytesDetected | pn54x/dnld/phDnldNfc_Internal.c:867-892 | Any corruption of two adjacent bytes, CRC bytes included, makes the comparison fail. |
| DnldWrite.PlanKeepsPosition | pn54x/dnld/phDnldNfc_Internal.c:691-768 | Building the next frame at a position of the image sets all counters and flags to what that position requires; no 16-bit counter wraps. |
| DnldWrite.AckKeepsPosition | pn54x/dnld/phDnldNfc_Internal.c:1087-1164 | The expected answer moves the counters to the next position; the rest shrinks by exactly what was sent. |
| DnldWrite.SealedReadsBack | pn54x/dnld/phDnldNfc_Internal.c:614-667 | A built frame reads back as its payload, length and continuation bit, passes the CRC and fits 256 bytes. |
| DnldWrite.FrameDelivers | pn54x/dnld/phDnldNfc_Internal.c:691-768 | Receiving the frame built at a position takes a joining receiver exactly to the next position, and its answer is the one the host's flags predict. |
| DnldHandler.StepProgresses | pn54x/dnld/phDnldNfc_Internal.c:219-545 | One reply, transfer result or expiry leaves the request waiting for exactly one thing without a callback, or ends it with exactly one callback and the context at rest. |
| DnldHandler.NeverStuck | pn54x/dnld/phDnldNfc_Internal.c:416-443 | A request in flight always has an outstanding input; a context at rest has none. |
| DnldHandler.SingleCompletion | pn54x/dnld/phDnldNfc_Internal.c:148-204 | Over every run of any request the user callback fires at most once, and then event, state, progress flag and timer are released; how long a run can be is the subject of DnldCompletion.EveryRequestCompletes. |
| DnldHandler.WriteAccepted | pn54x/dnld/phDnldNfc.c:376-452 | A write request on a context at rest is pending and in flight. |
| DnldHandler.ReadAccepted | pn54x/dnld/phDnldNfc.c:312-352 | A read request on a context at rest is pending and in flight. |
| DnldHandler.CommandAccepted | pn54x/dnld/phDnldNfc.c:61-240 | A one-frame command that is reported pending is in flight; it is pending unless a sequence command gets no timer, which is refused for want of resources with nothing sent. |
| DnldRuns.ExpectedReply | pn54x/dnld/phDnldNfc_Internal.c:460-535 | The expected answer sends exactly the next frame and lowers the remaining bytes, or, after the last frame, completes with success. |
| DnldRuns.BusyReply | pn54x/dnld/phDnldNfc_Internal.c:465-477 | "Memory busy" (0x20) keeps every counter, is remembered, and arms the resend timer, or ends the request if the timer cannot start. |
| DnldRuns.CountersAtPosition | pn54x/dnld/phDnldNfc_Internal.c:725-768 | Offset plus rest is the image length, two more only while a first fragment is outstanding; the chunk rest is the unsent part of the record; the frame fits the buffer. |
| DnldRuns.CountersConserved | pn54x/dnld/phDnldNfc_Internal.c:1087-1168 | Over every run, with busy answers, errors, malformed replies, failed transfers and expiries, short of an OK to a first fragment, the counters describe a position of the image while the request lasts and the rest never grows. |
| DnldRuns.BadReply | pn54x/dnld/phDnldNfc_Internal.c:1138-1168 | Every other reply ends the write with one callback: 0x0d as a failed write, 0x21 as rejected, 0x24 as a version error, anything else and every malformed reply as failed; 0x0d and 0x21 are remembered. |
| DnldRuns.ConformingRunDelivers | pn54x/dnld/phDnldNfc_Internal.c:369-545 | From any point of a delivery, every conforming run keeps the chip at a prefix of the image or ends with all of it delivered. |
| DnldRuns.ImageDelivered | pn54x/dnld/phDnldNfc_Internal.c:558-678 | For every image up to 65535 bytes and every conforming run, the receiver that joins fragments ends with exactly the image's records in order, and writing stops exactly there. |
| DnldRuns.ResendExactIff | pn54x/dnld/phDnldNfc_Internal.c:435-439 | Some busy answer lets a frame be resent intact if and only if the frame is not a fragment, has at least five bytes and carries the busy code as its first payload byte. |
| DnldRuns.ResendCorrupts | pn54x/dnld/phDnldNfc_Internal.c:435-439 | A fragment, or a frame whose third byte is not the busy code, is never resent intact, whatever the busy answer. |
| DnldRuns.BusyThenResend | pn54x/dnld/phDnldNfc_Internal.c:1037-1059 | From any frame of a conforming download, a busy answer and the resend timer leave the counters alone and send the frame as the answer has overwritten it. |
| DnldReads.RequestReadsBack | pn54x/dnld/phDnldNfc_Internal.c:769-790 | A read request carries its address and length. |
| DnldReads.FrameAsks | pn54x/dnld/phDnldNfc_Internal.c:614-667 | A read request passes the receiver's CRC check, has the length of its payload in front and 0xa2 as command byte. |
| DnldReads.RequestsCoverOnce | pn54x/dnld/phDnldNfc_Internal.c:769-790 | Every address of the range is asked for by exactly one of the ceil(len/248) requests, and no other address is. |
| DnldReads.ReadReassembled | pn54x/dnld/phDnldNfc_Internal.c:1169-1193 | For lengths 1 to 65531 and a chip that answers only requests with right CRC, length and command byte: every run is bounded and can be answered on, the requests tile the range, and at its end the caller's buffer equals the memory range, with the requested length reported. |
| DnldReads.LongReadTruncated | pn54x/dnld/phDnldNfc_Internal.c:585-599 | For longer reads every answered run is bounded, can be answered on, and ends reporting 248 bytes. |
| DnldReads.LongReadHappens | pn54x/dnld/phDnldNfc_Internal.c:585-599 | Every read of more than 65531 bytes has an answered run that ends with success and 248 bytes. |
| DnldReads.ReadCompleteIff | pn54x/dnld/phDnldNfc_Internal.c:585-599 | Every read can be answered to its end, and then reports the requested length if and only if that length is at most 65531. |
| DnldBuffers.ImageIsSendable | pn54x/dnld/phDnldNfc_Internal.c:691-768 | Every image of whole records is a sendable buffer. |
| DnldBuffers.CutRecordIsSendable | pn54x/dnld/phDnldNfc_Internal.c:691-768 | So is a record cut after full fragments, which no list of records encodes. |
| DnldBuffers.BufferStep | pn54x/dnld/phDnldNfc_Internal.c:1087-1168 | Whatever comes in, short of an OK to a first fragment, the write of a sendable buffer ends, or stays inside the buffer and comes closer to its end, a busy answer costing three steps. |
| DnldBuffers.StaysInsideIff | pn54x/dnld/phDnldNfc_Internal.c:691-768 | For every non-empty buffer under 65536 bytes: in all runs answered as expected every frame stays inside the buffer and the run ends with success when the buffer is used up, if and only if the buffer is sendable. |
| DnldCompletion.EveryRequestCompletes | pn54x/dnld/phDnldNfc_Internal.c:148-545 | For each pending write of a sendable buffer, read of any length or command, and any inputs short of an OK to a first fragment: the run is bounded by the request plus three steps per busy answer, no callback is made while it can go on, and exactly one when it cannot. |
| DnldCompletion.OddZerosRunOn | pn54x/dnld/phDnldNfc_Internal.c:691-768 | A write of an odd number of zero bytes, three or more, is accepted and has legal runs of any length of OK answers without a callback, if the memory behind the buffer reads as zero. |
| DnldCompletion.FalseOkOverruns | pn54x/dnld/phDnldNfc_Internal.c:1088-1112 | An OK to a first fragment drops the rest of the record: the next frame is empty and offset plus rest run four bytes past the image. |
| DnldCompletion.FalseOkRunsOn | pn54x/dnld/phDnldNfc_Internal.c:1088-1112 | After such an OK a write of a 255-byte image can go on for more than 60000 steps of OK answers without a callback, if the memory behind the image reads as zero. |
| DnldCompletion.LeftHangingIff | pn54x/dnld/phDnldNfc_Internal.c:434-443 | A step leaves a request with nothing to wait for and no callback if and only if TML refuses the write it asks for, or the read with no response timer running. |
| DnldCommands.CommandSent | pn54x/dnld/phDnldNfc_Internal.c:791-826 | A pending command has sent one frame, given byte for byte with a CRC that passes, or the caller's bytes for a raw request. |
| DnldCommands.CommandReplied | pn54x/dnld/phDnldNfc_Internal.c:1198-1211 | A command succeeds exactly on a genuine reply with status 0, or any for a raw request; the bytes between status and CRC go to a caller who wants them, and otherwise memory is left alone. |
| DnldCommands.CommandExpires | pn54x/dnld/phDnldNfc_Internal.c:308-319 | A command that is not answered or not sent is timed out, except that a reset has then succeeded. |
| DnldCommands.ReadReplyFails | pn54x/dnld/phDnldNfc_Internal.c:1170-1197 | A reply to a read that is not genuine, has another status or another length ends it as failed and leaves the caller's memory alone. |
| DnldCommands.ReadExpires | pn54x/dnld/phDnldNfc_Internal.c:988-1022 | A read that is not answered or not sent is timed out. |
| DnldContext.DlContext.Seal | pn54x/dnld/phDnldNfc_Internal.c:652-669 | Appends to the frame in the buffer the CRC of its body. |
| DnldContext.DlContext.PlanWriteFrame | pn54x/dnld/phDnldNfc_Internal.c:568-578 | Updates the counters and flags in place as the specified plan of a write frame. |
| DnldContext.DlContext.PlanReadFrame | pn54x/dnld/phDnldNfc_Internal.c:579-600 | Updates the counters in place as the specified plan of a read request. |
| DnldContext.DlContext.BuildFramePkt | pn54x/dnld/phDnldNfc_Internal.c:558-678 | Leaves in the cleared buffer exactly the frame the state machine sends next, or reports invalid input. |
| DnldContext.DlContext.UpdateWrite | pn54x/dnld/phDnldNfc_Internal.c:1087-1168 | Judges the status byte of a write reply and moves the counters as specified. |
| DnldContext.DlContext.UpdateRead | pn54x/dnld/phDnldNfc_Internal.c:1169-1197 | Copies a read answer behind what was read before and moves the counters as specified. |
| DnldContext.DlContext.UpdateResponse | pn54x/dnld/phDnldNfc_Internal.c:1077-1215 | Dispatches a reply by command as specified. |
| DnldContext.DlContext.ProcessReply | pn54x/dnld/phDnldNfc_Internal.c:841-898 | Accepts a reply only if its CRC and its length field, taken in 16 bits as in the code, are right, and then takes it in. |
| DnldContext.DlContext.ProcessRWSeqState | pn54x/dnld/phDnldNfc_Internal.c:369-545 | The read/write handler with its falling through of states does one step of the state machine. |
| DnldContext.DlContext.ProcessSeqState | pn54x/dnld/phDnldNfc_Internal.c:219-354 | The command handler with its falling through of states does one step of the state machine. |
| DnldContext.DlContext.RspTimeOutCb | pn54x/dnld/phDnldNfc_Internal.c:988-1022 | The response timeout does the state machine's step. |
| DnldContext.DlContext.ResendTimeOutCb | pn54x/dnld/phDnldNfc_Internal.c:1037-1059 | The resend timeout does the state machine's step. |
| DnldContext.DlContext.CommandHandler | pn54x/dnld/phDnldNfc_Internal.c:148-204 | Refuses a second request while one is in progress and otherwise starts the state machine. |
| DnldContext.DlContext.WriteImage | pn54x/dnld/phDnldNfc.c:376-452 | A write request fills the context and starts the state machine's write. |
| FwDriver.WriteStaysBounded | pn54x/dnld/phNxpNciHal_Dnld.c:998-1054 | A write step that is allowed keeps the bound, whatever its callback is told. |
| FwDriver.AskingKeeps | pn54x/dnld/phNxpNciHal_Dnld.c:719-751 | Handlers that only ask write nothing, count nothing and request a retry only while attempts are left. |
| FwDriver.CompleteStaysBounded | pn54x/dnld/phNxpNciHal_Dnld.c:1536-1691 | The recursive completion never takes the number of image writes beyond three, from any bounded context and for all answers. |
| FwDriver.AtMostThreeWrites | pn54x/dnld/phNxpNciHal_Dnld.c:1702-1750 | At every point of every download the image has been written at most three times, unless the 8-bit attempt counter wrapped or a semaphore wait failed. |
| FwDownload.Driver.SeqHandler | pn54x/dnld/phNxpNciHal_Dnld.c:1502-1525 | The loop over a handler array runs the handlers in order until one fails, as specified. |
| FwDownload.Driver.CompleteSeq | pn54x/dnld/phNxpNciHal_Dnld.c:1536-1691 | The completion, which calls itself, changes the context as specified and returns its own level's status. |
| FwDownload.Driver.DownloadImage | pn54x/dnld/phNxpNciHal_Dnld.c:1702-1750 | One download does what is specified, of which FwOutcomes says what it comes to, and keeps the bound of three writes under the two provisos. |
| FwOutcomes.SameVersionIsLeft | pn54x/dnld/phNxpNciHal_Dnld.c:606-613 | If the chip has the version at hand, nothing is written and the download succeeds. |
| FwOutcomes.LowerVersionIsRefused | pn54x/dnld/phNxpNciHal_Dnld.c:591-605 | If the chip's major version is higher, or its ROM code 7 meets an image of another major version than 1, nothing is written and the download does not succeed, whatever is answered afterwards. |
| FwOutcomes.NewVersionIsInstalled | pn54x/dnld/phNxpNciHal_Dnld.c:998-1054 | Another version that may replace the chip's is written exactly once; with the version confirmed the download succeeds if and only if the integrity reply has bits 1 to 6 set or is not 31 bytes long. |
| FwOutcomes.LogReadStops | pn54x/dnld/phNxpNciHal_Dnld.c:876-940 | Without log data nothing is written in that pass, be it the first or a retry. |
| FwOutcomes.OpenSessionIsRewritten | pn54x/dnld/phNxpNciHal_Dnld.c:736-756 | A chip with a session left open gets the image whatever its version; a retry then needs no log data; the outcome is that of a new version. |
| FwOutcomes.WrongVersionAfterwards | pn54x/dnld/phNxpNciHal_Dnld.c:617-622 | If the chip reports another version after the write, the download does not succeed and the image is not written again, whatever is answered afterwards. |
| FwOutcomes.PllErrorIsForced | pn54x/dnld/phNxpNciHal_Dnld.c:1541-1549 | A write that fails with a PLL error leads through the force command to a second write; the status of the first is returned even if the second succeeds. |
| FwOutcomes.SignatureErrorIsPatched | pn54x/dnld/phNxpNciHal_Dnld.c:1550-1563 | A rejected write bypasses the force command and leads through the recovery image and an NCI reset to a second write, again with the first status returned. |
| FwOutcomes.FailedRecoveryEnds | pn54x/dnld/phNxpNciHal_Dnld.c:1242-1275 | If the chip does not take the recovery image, or cannot be switched to normal mode for the NCI reset, the download ends at once with the status of the write and no second one. |
| FwOutcomes.DownloadCleans | pn54x/dnld/phNxpNciHal_Dnld.c:1668-1686 | Every download that ends, however it went, leaves counter and flags as a first download finds them. |
| FwOutcomes.NoImageFails | pn54x/dnld/phNxpNciHal_Dnld.c:1702-1750 | If the image cannot be opened nothing is written and the download does not succeed. |
| FwDriverLimits.ThreeWritesHappen | pn54x/dnld/phNxpNciHal_Dnld.c:744-751 | A chip that keeps its session open gets three writes: the bound is sharp. |
| FwDriverLimits.FourthAfterWaitError | pn54x/dnld/phNxpNciHal_Dnld.c:1034-1039 | A semaphore error during the third write lets a fourth through. |
| FwDriverLimits.CounterWraps | pn54x/dnld/phNxpNciHal_Dnld.c:450-478 | Recoveries that fail before sending take the 8-bit counter through its wrap without a write. |
| FwDriverLimits.FourthAfterWrap | pn54x/dnld/phNxpNciHal_Dnld.c:1541-1549 | A wrapped counter lets a fourth write through. |
| Tml.AttemptBounded | pn54x/tml/phTmlNfc.c:448-464 | What the retry rule allows: at most four tries, one outside download mode, all but the last failed, and in download mode a failure only after four. |
| Tml.WriteOut | pn54x/tml/phTmlNfc.c:435-471 | The retry loop makes exactly such an attempt and reports the last answer. |
| Tml.StepKeepsInv | pn54x/tml/phTmlNfc.c:412-506 | Every step of client, writer and callback thread keeps one request on its way and the shared records consistent with it. |
| Tml.ExactlyOnce | pn54x/tml/phTmlNfc.c:647-692 | In every run accepted writes are the reported ones, the one whose call is being prepared and the one under way; the bytes of each successful one went over the bus once, in order; every finished request was tried as the retry rule allows; the writer never wakes for nothing. |
| Tml.RecordsGuardedUntilClear | pn54x/tml/phTmlNfc.c:473-487 | Neither record is refilled while a message is posted or received and the busy flag is set; after the flag is cleared one more request can be accepted before the call ends and no further one, so each value is replaced once at most. |
| Tml.ReportsOwnIff | pn54x/tml/phTmlNfc.c:931-941 | Callback and context of a call are the own request's if and only if the next one's were not stored before they were loaded, or are equal; buffer and status if and only if the next outcome was not recorded before they were read, or is equal. |
| Tml.PatientReportsOwn | pn54x/tml/phTmlNfc.c:931-941 | If no write is asked for between the arrival of a completion and the end of its call, every report is about its own request and outcome. |
| Tml.LateCallGoesToNext | pn54x/tml/phTmlNfc.c:931-941 | A run in which the second request's callback and context are called with the first one's buffer and status. |
| Tml.LateCallTellsNext | pn54x/tml/phTmlNfc.c:472-476 | A run in which the first request's callback is told the second one's buffer and failure although its own write succeeded. |
| MessageQueue.Queue.Link | pn54x/tml/phDal4Nfc_messageQueueLib.c:161-191 | Walking to the tail and linking there appends the message to the represented sequence and keeps the list well formed. |
| MessageQueue.Queue.Unlink | pn54x/tml/phDal4Nfc_messageQueueLib.c:211-234 | Removes and returns the oldest message, or nothing. |
| MessageQueue.StepKeepsInv | pn54x/tml/phDal4Nfc_messageQueueLib.c:161-234 | Every step of any number of senders and receivers keeps list length, semaphore and threads in between in balance. |
| MessageQueue.QueueIsFifo | pn54x/tml/phDal4Nfc_messageQueueLib.c:161-234 | Under every interleaving messages come out in the order they went in, and a receiver past the semaphore finds one. |
| MessageQueue.WaiterIsServed | pn54x/tml/phDal4Nfc_messageQueueLib.c:161-234 | While the list holds a message, a waiting receiver can go on or another thread is about to post or take one. |
| SensorQueue.GrantedIsDisjoint | sensors/SensorEventQueue.cpp:39-59 | Writing into a granted slot leaves the readable events as they are. |
| SensorQueue.DequeueKeepsGrant | sensors/SensorEventQueue.cpp:74-82 | Dequeuing removes the oldest event and the granted region stays free, contiguous and next in order. |
| SensorQueue.MarkAppends | sensors/SensorEventQueue.cpp:61-63 | Marking appends exactly the written events. |
| SensorQueue.SensorEventQueue.GetWritableRegion | sensors/SensorEventQueue.cpp:39-59 | Grants a contiguous free region next in order, as long as asked for or as long as can be. |
| SensorQueue.SensorEventQueue.MarkAsWritten | sensors/SensorEventQueue.cpp:61-63 | Appends the region's events to the contents. |
| SensorQueue.SensorEventQueue.Peek | sensors/SensorEventQueue.cpp:69-72 | Finds the oldest event, or nothing if the queue is empty. |
| SensorQueue.SensorEventQueue.Dequeue | sensors/SensorEventQueue.cpp:74-82 | Drops the oldest event, keeps a granted region granted, and wakes the writer exactly when the ring was full. |
| SensorSystem.StepKeepsInv | sensors/multihal.cpp:143-180 | Every interleaved step of writers and poller keeps rings, grants, sleepers and the merged output consistent. |
| SensorSystem.RingIsFifo | sensors/multihal.cpp:150-177 | Under every interleaving, the events that the device's polls have returned, by an account kept from its own writes and returned counts, are those taken, then those readable in the ring, then those returned and not yet marked; and no ring overflows. |
| SensorSystem.MergeIsLossless | sensors/multihal.cpp:340-402 | Under every interleaving, what goes upstream from a module is what was taken from it, in order: normal events exactly if their sensor is in the handle map, with the mapped handle, and meta-data events with their nested handle mapped or -1, everything else unchanged. |
| SensorSystem.PollBringsEvents | sensors/multihal.cpp:362-402 | Under every interleaving a poll returns with at least one event and no more than it asked for, and goes to sleep exactly when it has handed on none, with all rings empty. |
| SensorSystem.NoLostWakeup | sensors/multihal.cpp:168-176 | An unsignalled sleeping writer has a full ring, an unsignalled sleeping reader only empty ones; they never wait for each other and some thread can always step. |
| SensorPoll.PollContext.Look | sensors/multihal.cpp:370-390 | One turn of the loop looks at the next queue, takes its oldest event if there is one, and advances. |
| SensorPoll.PollContext.Scan | sensors/multihal.cpp:362-402 | One scan terminates, splits every queue into what it took and what is left, hands on exactly that, in order and renumbered as the handle map says, serves queues that stay non-empty equally often up to one, and stops short only if all queues are empty. |
| CameraMap.RoundTrip | libshims/CameraParameters.cpp:189-239 | Flattening a sorted map whose names hold no '=' and whose texts hold no ';' and reading it back gives the same map. |
| CameraMap.AnyHistoryRoundTrips | libshims/CameraParameters.cpp:189-309 | After any sequence of set, remove and unflatten, flattening and reading back loses nothing. |
| CameraMap.SetInIsRead | libshims/CameraParameters.cpp:242-267 | After a set, that name reads as the new text and every other name as before, up to the default "false" for "hdr-need-1x". |
| CameraMap.SetRefused | libshims/CameraParameters.cpp:247-255 | A name or text with '=' or ';' in it is refused and nothing changes. |
| CameraMap.ReadingRule | libshims/CameraParameters.cpp:216-238 | Any text is read entry by entry up to '=' and ';', the last up to its end, and what holds no '=' is left out. |
| CameraMap.LessIff | libshims/CameraParameters.cpp:194-198 | The names are kept in dictionary order. |
| CameraMap.RemoveIsRead | libshims/CameraParameters.cpp:306-309 | After a remove, that name reads as empty and every other name as before. |
| CameraMap.Parameters.FlattenAll | libshims/CameraParameters.cpp:189-207 | The loop builds the flattened text, and that text reads back as the parameters. |
| CameraMap.Parameters.UnflattenText | libshims/CameraParameters.cpp:209-239 | The loop reads any text into the specified map, which is again one that round-trips. |
| CameraMap.Parameters.Set | libshims/CameraParameters.cpp:242-267 | Refuses names and texts with '=' or ';' and otherwise stores the text. |
| CameraMap.Parameters.RemoveKey | libshims/CameraParameters.cpp:306-309 | Removes the name and keeps the map sorted. |
| CameraSizes.ShowIsRead | libshims/CameraParameters.cpp:312-335 | A printed 32-bit number is read back, whatever follows it that is not a digit. |
| CameraSizes.NumberRule | libshims/CameraParameters.cpp:312-335 | A number is read with white space and a sign before it, up to the first character that is no digit, clamped to 64 bits. |
| CameraSizes.SizeRule | libshims/CameraParameters.cpp:312-335 | A number without 'x' right behind it and text that starts with neither a number nor 'x' are no sizes; 'x' alone before a height reads as width 0. |
| CameraSizes.SizeText | libshims/CameraParameters.cpp:362-367 | A size of 640 by 480 is written "640x480". |
| CameraSizes.ShowSizeIsRead | libshims/CameraParameters.cpp:312-335 | A printed size is read back as the pair and the rest of the text. |
| CameraSizes.ParseSizesList | libshims/CameraParameters.cpp:337-360 | The loop appends the sizes at the start of the text, up to its end or the first thing that is not a size. |
| CameraSizes.SizesRoundTrip | libshims/CameraParameters.cpp:337-360 | A comma-separated list of sizes of any length is read back as the same list. |
| CameraSizes.SizesUpToBreak | libshims/CameraParameters.cpp:346-353 | A list that breaks off gives exactly the sizes before the break. |
| CameraSizes.SizeIsGot | libshims/CameraParameters.cpp:362-376 | For all 32-bit widths and heights, get after set returns the pair, and other names keep their texts. |
| CameraSizes.SetSize | libshims/CameraParameters.cpp:362-367 | Stores the size's text, so that the stored size is the one given. |
| CameraSizes.GetSize | libshims/CameraParameters.cpp:369-376 | Returns the stored size, or -1 by -1 if there is none. |
| CameraSizes.SizeMissing | libshims/CameraParameters.cpp:369-376 | A missing or malformed size reads as -1 by -1. |
| PathOrder.KeyLaw | reorder-libs.py:18-49 | On lines that are not circular, the comparison is dictionary order of keys: directory, a sign beyond all others, base name. |
| PathOrder.OrderIff | reorder-libs.py:18-49 | The comparison is a total preorder on a set of lines if and only if no slashless line has both a line in a proper subdirectory of it and a line that sorts between. |
| PathOrder.PathsAreOrdered | reorder-libs.py:18-49 | On lines that are empty or hold a slash it is dictionary order of (directory, infinity, base name) and transitive. |
| PathOrder.DashIsIgnored | reorder-libs.py:23-26 | A leading '-' in either line makes no difference. |
| PathOrder.CircleExample | reorder-libs.py:18-49 | "a/b/c", "a" and "a-b/f" go round in a circle. |

## Left out

- DnldRuns.ImageDelivered: delivery of bytes is stated for runs without "memory busy"; with it the code does not deliver them (DnldRuns.ResendExactIff), and the counters are covered by DnldRuns.CountersConserved.
- DnldCompletion.EveryRequestCompletes: a write is one of a sendable buffer; from any other the code comes to read behind the buffer (DnldBuffers.StaysInsideIff), and what happens then depends on the memory there. That TML takes each transfer is assumed here and is what DnldCompletion.LeftHangingIff shows to be needed.
- DnldCompletion.FalseOkRunsOn: bytes behind a buffer read as zero in the model; the code reads whatever memory is there. The same holds for DnldCompletion.OddZerosRunOn.
- DnldContext.DlContext.ProcessReply: a reply of one byte is taken as failed; the code indexes before its buffer for it.
- Bytes beyond the end of an image are read as zero and bytes beyond the caller's buffer are dropped; the code indexes memory there.
- Null-pointer checks, logging, the chip reset on a timeout, and a failing read abort inside the frame handler.
- Choice of clock bytes, integrity addresses and recovery images by the request functions; their frames are built from the values they pass.
- FwDriver.AtMostThreeWrites: termination of the completion is not stated, because a step that fails before the write leaves its flag set and recurses; the EEPROM log counters are not modelled.
- FwDownload.Driver.CompleteSeq: a callback that arrives after its wait has failed is modelled as arriving before the handler returns or not at all.
- The forced-download option is compiled out; its flag is kept and is never set.
- Tml.ExactlyOnce: the threads' shared context is a value that steps replace, not an object; retransmission, read and write aborts, and clients that test the busy flag at the same instant are not modelled, and of the two loads for the call the callback's is taken to be the first; the fields of the transaction record are stored together and read together.
- MessageQueue.Queue.Unlink: teardown (release and control) is not modelled; the back link of the first node is left open because receiving does not maintain it.
- SensorSystem.NoLostWakeup: assumes one poller, polls of at least one event, a device that returns no more events than the region holds, and that all sub-HALs opened.
- SensorPoll.PollContext.Scan: the queues appear as the sequences that SensorQueue shows the rings to be; the scan does not share ring objects with the writers.
- Sensor numbering, handle-map construction, activation, batching and delays of the multi-HAL.
- CameraMap.Parameters.Set: the map class of the platform is taken as a vector sorted by name in which the last addition wins; text with embedded zero characters is not modelled.
- CameraSizes.ShowIsRead: the number parser saturates at 64 bits before conversion to 32; numbers in other bases and floating-point parameters are not modelled.
- Reading, sorting and rewriting the list files in `reorder-libs.py`; only the comparison is modelled.
- NFC HAL open, core initialisation and extension code, the other libraries, lights, display, touch and init code: scripts and wrappers whose properties are settled by reading one branch.
