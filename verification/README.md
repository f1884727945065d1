# Verification models of selected ESP-IDF components

Dafny 4.11 models of nine pieces of the repository that carry a protocol, a data structure or arithmetic with a
promise, and proofs about them. `dafny verify dfyconfig.toml` checks everything.

| files | source | subject |
|---|---|---|
| `RingBuffer.dfy` | `components/app_trace/app_trace_util.c` | the non-splitting ring buffer of the tracing module |
| `TraceProtocol.dfy`, `TraceFormat.dfy`, `TraceTransport.dfy`, `TraceSession.dfy` | `components/app_trace/app_trace.c` | application tracing: two trace memory blocks, the host, the pending ring, chunk sizes |
| `InitGuards.dfy` | `components/cxx/cxx_guards.cpp` | one-time initialization guards (sections 2.8 and 3.3 of the Itanium C++ ABI) |
| `CanDriver.dfy`, `CanVerdicts.dfy`, `CanKept.dfy` | `components/driver/can.c` | transmit queue, counter, flags and interrupt of the CAN driver; what senders are told |
| `CommandList.dfy`, `CommandOrder.dfy`, `CommandScheduler.dfy` | `tools/idf.py` | the dependency-resolving work list and the order it gives |
| `RmtTransmit.dfy` | `components/driver/rmt.c` | streaming items through the two halves of the RMT memory |
| `OtaSelect.dfy`, `OtaWrite.dfy` | `components/app_update/esp_ota_ops.c`, `components/app_update/otatool.py` | OTA slot selection under power loss, buffered image writing |
| `SplitArgv.dfy`, `SplitLines.dfy` | `components/console/split_argv.c` | the in-place argument splitter, and every line with what it means |
| `Crc7.dfy`, `Crc7Code.dfy` | `components/driver/sdspi_crc.c` | the table-driven CRC-7 (section 4.5 of the SD Physical Layer Simplified Specification) |
| `LedcFade.dfy`, `LedcTimer.dfy` | `components/driver/ledc.c` | segmented fades, dividers and frequencies of the LED PWM |
| `Basics.dfy` | | an option type, bytes and a few facts that several models use |

## How the pieces are modelled

Code that updates an object is a class with the source's fields, and every method states the new state by a
specification function; what the source promises is proved about that function. Concurrent code is a transition
system: one step per critical section, blocking call or interrupt, and runs are arbitrary interleavings. Hardware,
flash and the host are explicit steps or parameters.

*Tracing.* `TraceProtocol` says which user blocks are where and how the steps of the protocol move them.
`TraceTransport.Transport` is the driver on real memory: two block arrays, three rings, markers, the control
register; its `Valid` ties the memory to a reachable state of the protocol. While a block is exposed its bytes are
the exposed user blocks, which every target operation keeps; a switch is refused until the host has cleared the length.
What the host does between two reads of the register is a parameter. `TraceSession.Session` runs any list of writes,
flushes and host moves from start-up, compares what the host has read with what was accepted, and says when a call
must succeed.

*Guards.* Any number of tasks and guards; each task has a program counter. A task may initialize a guard while it
holds others; a nesting is a set of pairs of guards of which the second may be acquired inside the first.

*CAN.* Senders that have put a frame into the queue and have not accounted for it yet are "in the window". `Driver`
is the driver object, `Do` the transition it refines; `Drive` takes a driver object through any run. In `CanVerdicts`
and `CanKept` every sender has a frame of its own, a failed assertion ends a run, and a `Policy` of five flags says what
may happen while a sender is in the window or the bus is off; the theorems hold for every policy.

*Scheduler.* Tasks are a name and an identity; the work list is popped, reordered and extended as in the source.
The reference for the result is a depth-first walk (`CommandOrder.Visit`) that knows no work list.
The loop ends by a measure of three parts: names not yet scheduled, whether the front is already scheduled, and the
front's rank or the length of the list.

*RMT.* Hardware reads item after item and wraps at the end of the memory; it may read up to one half beyond a
threshold that has not been served. That is the timing assumption.

*OTA.* A switch is an erase and a write of one sector, one word after the other, and the power may fail at any of
these points. The CRC is any function of the sequence number.

*CRC.* The shift register, a bit at a time, is the reference for the table; polynomials are sequences of
coefficients.

*LEDC.* The hardware moves the duty by the scale once a step and raises the fade-end interrupt after the configured
number of steps, also after a configuration of no steps. Duties have at most 20 bits (`ledc.c:340`).

## Where the code and its documentation differ

- `cxx_guards.cpp:85-95` says that after a signal all waiting tasks have woken. A waiter whose guard is still pending
  takes a token, finds the guard pending and may take the next token as well. A task can then sleep although its
  guard is ready. Tasks can get stuck this way if and only if some initialization may acquire a guard
  (`CanStickIff`): any one pair of guards is enough, with three tasks (`StuckIsReachable`, `StuckForever`).
- `app_trace.c:316-322` gives the ring of chunk sizes capacity/16384 + 2 cells. `SlotsSufficeInNumbers` says for which
  capacities that is enough; for the others a target whose host does not acknowledge reaches the assertion at
  line 470 (`SlotsRunOut`).
- `can.c`: the assertions hold in all runs if and only if the transmit queue is never emptied while a sender is in
  the window (`AssertionsHoldIff`). A sender that removes "its" frame after a stop or bus-off removes the oldest one.
  So a frame can be sent whose sender was told of a failure, and a frame can be removed whose sender was told that all
  went well. `FailuresAreTrueIff` and `OkIsKeptIff` say exactly when the one and the other cannot happen; emptying the
  queue while a sender is in the window, which `can_clear_transmit_queue` may do at any time, is one of the flags.
- `esp_ota_ops.c`: an active sequence number of 0 can leave the requested slot unselected (`NextSeqSelectsIff`,
  `SequenceZeroFails`); with flash encryption an image shorter than 16 bytes is refused (`WriteImage`); a write that
  failed in a flash write can be repeated if and only if there is no flash encryption, or the buffer held no partial
  unit and the failed call leaves no tail in it (`RepeatAfterFailure`).
- `otatool.py` keeps the `ota_state` of the sector it rewrites, and takes an entry as valid whatever its state, so a
  switch from the host can be without effect; `ToolSwitch` says exactly when it works, `ToolSwitchAfterRollback` shows
  a case.
- `ledc.h:332` calls `max_fade_time_ms` the maximum time of a fade. `WithinTimeIff` says, in milliseconds and for
  every time and frequency, when it is, and `FadeWithTime` concludes it for the fade object. With an allowed step a fade
  takes less than twice the planned cycles (`LessThanTwice`), and nearly that can happen (`TwiceTheTime`); where the step
  is cut to the largest allowed one there is no such bound (`ThousandTimes`). A product of time and frequency above
  32 bits is cut (`ledc.c:733`), which makes a fade faster, never slower than asked for.
- `app_trace_util.c`: an empty ring refuses requests below its capacity unless they are at most half its size
  (`EmptyAcceptsHalf`).

## Model

| member | source | states |
|---|---|---|
| `RingBuffer.PlaceFindsRoom` | `components/app_trace/app_trace_util.c:101-141` | a region handed out is contiguous, in bounds and disjoint from unread bytes; a request is refused only when neither the write position nor the start has room |
| `RingBuffer.EmptyAcceptsHalf` | `components/app_trace/app_trace_util.c:101-141` | an empty ring takes a request wherever its indices stand exactly when it is at most half the size |
| `RingBuffer.PlaceInCells` | `components/app_trace/app_trace.c:468-468` | the ring of 16-bit chunk sizes, counted in bytes, accepts the same requests as one counted in cells |
| `RingBuffer.OneCell` | `components/app_trace/app_trace_util.c:105-112` | an unshrunk ring refuses one cell exactly when all cells but one are taken |
| `RingBuffer.AddNewest` | `components/app_trace/app_trace_util.c:101-141` | producing appends exactly the region handed out to the unread data |
| `RingBuffer.TakeOldest` | `components/app_trace/app_trace_util.c:143-167` | consuming removes exactly the bytes at the returned position, which are the oldest |
| `RingBuffer.Ring.constructor` | `components/app_trace/include/esp_app_trace_util.h:121-127` | an initialized ring is empty and has its full size |
| `RingBuffer.Ring.Produce` | `components/app_trace/app_trace_util.c:101-141` | appends one region to the queue, or changes nothing; the full size is back whenever the data does not wrap |
| `RingBuffer.Ring.Consume` | `components/app_trace/app_trace_util.c:143-167` | takes the oldest elements as one region, exactly when they lie contiguously, or changes nothing; the writer stays, the reader goes to the end of the region or, at the end of the data, to 0 |
| `RingBuffer.PlacesFollow` | `components/app_trace/app_trace_util.c:101-167` | for every position of the indices both calls give the result that writable and unread cells demand, and move reader and writer as the region handed out says |
| `RingBuffer.Ring.ReadSize` | `components/app_trace/app_trace_util.c:169-180` | the largest amount one consume can take; 0 exactly when the ring is empty |
| `RingBuffer.Ring.WriteSize` | `components/app_trace/app_trace_util.c:182-196` | the largest amount that fits at the write position |
| `RingBuffer.Drive` | `components/app_trace/app_trace_util.c:101-167` | any sequence of requests is a byte queue: consumed then unread is what the successful requests put in, in order; the results say where the regions begin, and follow from the regions handed out before: a write gets its place behind the last one if free, otherwise at 0 if free, otherwise none; a read begins where the last one ended, or at 0 behind the end of the data |
| `TraceProtocol.StepKeepsInv` | `components/app_trace/app_trace.c:459-493` | every step keeps the chunks whole, non-empty, at most a block, two neighbours more than a block, and pending data only with a filled input block |
| `TraceProtocol.SwitchPumpsFront` | `components/app_trace/app_trace.c:547-579` | a switch pumps exactly the first chunk of whole user blocks into the new input block |
| `TraceProtocol.Conservation` | `components/app_trace/app_trace.c:497-593` | over every run: delivered, exposed, input block and pending ring are the allocated user blocks in allocation order |
| `TraceProtocol.ChunkAccounting` | `components/app_trace/app_trace.c:459-493` | the sizes of the queued chunks and of the accumulating one add up to the bytes of all pending user blocks |
| `TraceProtocol.SwitchShrinks` | `components/app_trace/app_trace.c:846-853` | a switch with a filled input block makes the backlog smaller |
| `TraceProtocol.DrainEmpties` | `components/app_trace/app_trace.c:837-856` | the flush loop ends with input block and pending ring empty, everything delivered or exposed |
| `TraceProtocol.SlotsSuffice` | `components/app_trace/app_trace.c:464-475` | no run of the driver overflows the chunk-size slots if and only if the capacity is below the fewest bytes of one chunk more |
| `TraceProtocol.SlotsSufficeInNumbers` | `components/app_trace/app_trace.c:316-322` | the capacities for which the slots suffice, as numbers |
| `TraceProtocol.PendingNeedsABlock` | `components/app_trace/app_trace.c:775-784` | over every run there is pending data only while the input block and the first pending user block exceed a trace memory block |
| `TraceFormat.HostParsesWholeBlocks` | `components/app_trace/app_trace.c:683-689` | the host cuts the bytes of whole user blocks into exactly those blocks, with core and data |
| `TraceFormat.EncodedBytes` | `components/app_trace/app_trace.c:683-689` | the four header bytes: twice the length, low byte first, the core in the top bit |
| `TraceTransport.Pump` | `components/app_trace/app_trace.c:554-579` | copies a chunk from the pending ring in pieces: block contents then the rest of the ring are the old ring contents |
| `TraceTransport.DownWrite` | `components/app_trace/app_trace.c:655-681` | puts the beginning of the host's data behind the down ring's contents, and stops early only when nothing fits at the write position |
| `TraceTransport.Transport.constructor` | `components/app_trace/app_trace.c:875-902` | the initialized transport with a connected host holds nothing |
| `TraceTransport.Transport.HostAck` | `components/app_trace/app_trace.c:91-97` | the host reads exactly the exposed user blocks and clears the length |
| `TraceTransport.Transport.TakeChunk` | `components/app_trace/app_trace.c:479-493` | gives the size of the chunk that the switch pumps and removes it from the accounting |
| `TraceTransport.Transport.SwitchBlock` | `components/app_trace/app_trace.c:497-593` | switches exactly when the host has cleared the length, and otherwise changes nothing; the block id goes up by one modulo 128; the host's data reaches the down ring |
| `TraceTransport.Transport.SwitchWait` | `components/app_trace/app_trace.c:595-606` | the wait ends with a switch if and only if nothing was exposed or the host acknowledges in it |
| `TraceTransport.Transport.UpdateChunk` | `components/app_trace/app_trace.c:459-477` | extends the accumulating chunk or closes it; fails only when every slot is taken |
| `TraceTransport.Transport.RingAccounting` | `components/app_trace/app_trace.c:459-493` | the cells of the chunk-size ring and the accumulating size add up to the unread bytes of the pending ring; every size fits a trace memory block; pending data only behind a filled input block |
| `TraceTransport.Transport.WaitThenStore` | `components/app_trace/app_trace.c:691-728` | after a wait the user block is stored once, at the end of the stream, or refused; refused only when the pending ring has no place after the switch, or the host did not allow the switch |
| `TraceTransport.Transport.Store` | `components/app_trace/app_trace.c:730-835` | a user block that fits the input block is stored there; otherwise it is stored once at the end of the stream, refused only without a place in the pending ring and with an unacknowledged block, and the assertion fails exactly without a slot |
| `TraceTransport.Transport.Flush` | `components/app_trace/app_trace.c:837-856` | succeeds if and only if every wait it needs finds nothing exposed or an acknowledgement, and then input block and pending ring are empty |
| `TraceSession.WriteUser` | `components/app_trace/app_trace.c:1029-1062` | a write that returns Ok has appended the encoded data; one of proper size is refused only with no place in the pending ring, and when it and the accepted bytes that the host has not read exceed a trace memory block |
| `TraceSession.HostGetsPrefix` | `components/app_trace/app_trace.c:497-593` | what the host has read cuts into the first accepted user blocks, unchanged |
| `TraceSession.EverythingDelivered` | `components/app_trace/app_trace.c:1199-1221` | with nothing exposed, filled or pending the host has every accepted user block |
| `TraceSession.Session` | `components/app_trace/app_trace.c:497-856` | any session from start-up: the host gets a whole-block prefix in order, all of it after a flush; a write of proper size is refused only when it and what the host has not read by then exceed a trace memory block; a flush succeeds with a host that acknowledges in every wait; a host that reads after a complete flush has read everything; the slot assertion needs a capacity without enough slots |
| `TraceSession.SlotsRunOut` | `components/app_trace/app_trace.c:464-475` | for every capacity without enough slots stores from start-up on end by the assertion |
| `InitGuards.StepKeepsInv` | `components/cxx/cxx_guards.cpp:74-212` | every step of every task keeps mutual exclusion, the waiting count, one owner per pending guard and the token balance |
| `InitGuards.RunKeepsInv` | `components/cxx/cxx_guards.cpp:74-212` | and so does every interleaving |
| `InitGuards.NoLostWakeup` | `components/cxx/cxx_guards.cpp:74-118` | when no waiting task's guard is pending, every sleeper has a token given or about to be given |
| `InitGuards.OneInitializer` | `components/cxx/cxx_guards.cpp:120-212` | at most one initializer per guard, pending exactly while there is one, never ready and pending |
| `InitGuards.ReadyIsForever` | `components/cxx/cxx_guards.cpp:160-186` | ready is never undone |
| `InitGuards.ReadyIffReleased` | `components/cxx/cxx_guards.cpp:176-212` | over any run a guard gets ready exactly by a release; an abort leaves it to the next caller |
| `InitGuards.AfterRelease` | `components/cxx/cxx_guards.cpp:160-193` | after a release nobody initializes again and every acquire returns 0 |
| `InitGuards.AcquireVerdict` | `components/cxx/cxx_guards.cpp:159-173` | a step of acquire decides 1 exactly when the guard is not ready, and then the caller is the only initializer |
| `InitGuards.GrantsBalance` | `components/cxx/cxx_guards.cpp:159-211` | over any run the initializations that begin are those that end and the one under way |
| `InitGuards.ExactlyOneAfterAbort` | `components/cxx/cxx_guards.cpp:148-173` | after an abort, until the next end, exactly one acquirer gets 1 as soon as any decides |
| `InitGuards.FinishFindsPending` | `components/cxx/cxx_guards.cpp:183-211` | the assertions of release and abort hold, and they signal as many times as tasks wait |
| `InitGuards.SleeperCompletes` | `components/cxx/cxx_guards.cpp:82-103` | once no waited-for guard is pending each sleeper can complete by its own steps |
| `InitGuards.FlatRunsNeverStick` | `components/cxx/cxx_guards.cpp:82-118` | without nested initialization no run gets stuck before all tasks are done: some step is possible |
| `InitGuards.StepLeavesLess` | `components/cxx/cxx_guards.cpp:74-212` | every step but a new call of acquire, nested or not, makes a number of remaining steps smaller |
| `InitGuards.FlatRunsFinish` | `components/cxx/cxx_guards.cpp:74-212` | without nested initialization and without new calls every run is at most that long, and where it cannot go on all tasks are done |
| `InitGuards.StuckIsReachable` | `components/cxx/cxx_guards.cpp:85-101` | for any two guards, if one may be acquired inside the other: a run to sleepers without tokens, one of them on a ready guard |
| `InitGuards.StuckForever` | `components/cxx/cxx_guards.cpp:85-101` | and no continuation wakes them |
| `InitGuards.CanStickIff` | `components/cxx/cxx_guards.cpp:74-212` | tasks can get stuck if and only if some initialization may acquire a guard |
| `CanDriver.StepKeepsInv` | `components/driver/can.c:232-260` | every step outside a reset in a window keeps the accounting and fails no assertion |
| `CanDriver.Accounting` | `components/driver/can.c:577-635` | over every clean run: counter plus senders in the window is queue length plus the occupied buffer, never negative, no assertion fails |
| `CanDriver.NothingStranded` | `components/driver/can.c:615-627` | with an idle buffer each queued frame belongs to a sender that will still account for it |
| `CanDriver.ResetKeepsInvIff` | `components/driver/can.c:746-759` | a reset keeps the accounting if and only if no sender is in the window |
| `CanDriver.ResetInWindowFails` | `components/driver/can.c:746-759` | from any running state with a sender in the window, clearing the queue leads to a failing assertion: of the interrupt handler when a frame is under transmission, of the sender itself otherwise |
| `CanDriver.FrameConservation` | `components/driver/can.c:232-260` | over every run: first in, first out, and each frame is loaded once, dropped once or still queued |
| `CanDriver.Drive` | `components/driver/can.c:232-759` | a driver object taken through any run: each call is told what the results and bus events before it demand, and no assertion fails in a clean run |
| `CanDriver.RunIsTold` | `components/driver/can.c:532-759` | over every run a transmission is told of a wrong state exactly when the driver is stopped or the bus is off, outside listen-only mode, and then changes nothing; in those modes no call of a sender sends a frame or begins to wait; the results of start, stop, recovery and clear; emptied queues are dropped |
| `CanDriver.BeginsWhenIdle` | `components/driver/can.c:592-606` | in clean runs a transmission on a running driver is sent at once exactly when none is under way, and otherwise waits for the queue, or fails without one |
| `CanVerdicts.FailuresAreTrueIff` | `components/driver/can.c:577-635` | over all runs a sender told of a wrong state after queueing its frame never has it sent if and only if nobody can queue a frame, or the queue is not emptied while a sender is in the window and either it holds at most one frame, or the driver is not started in the window and, if senders account in bus-off, the bus does not go off in the window and no transmit interrupt comes in bus-off |
| `CanVerdicts.ResetInWindow` | `components/driver/can.c:746-759` | a run from installation for any queue: after a clear and a stop while a sender is in the window it is told of a failure although its frame was sent |
| `CanVerdicts.StartInWindow` | `components/driver/can.c:610-622` | a run from installation in which the verdicts of two senders are swapped: one is told of a failure and its frame is sent, the other is told that all went well and its frame was removed |
| `CanVerdicts.BusOffInWindow` | `components/driver/can.c:610-614` | a run from installation in which a frame has been sent when its sender is told of a failure |
| `CanVerdicts.TxInBusOff` | `components/driver/can.c:247-254` | a run from installation in which a frame is sent in bus-off after its sender was told of a failure |
| `CanKept.OkIsKeptIff` | `components/driver/can.c:577-635` | over all runs a frame whose sender was told that all went well is never removed by a failing sender if and only if nobody can queue a frame, or the driver is not started in a window and no sender accounts in bus-off, or the queue holds at most one frame and is not emptied in a window, or in it neither start nor bus-off happens |
| `CanKept.SentAnother` | `components/driver/can.c:610-622` | a run from installation for any queue in which a sender is told that all went well for a frame that another removed |
| `CanVerdicts.AssertionsHoldIff` | `components/driver/can.c:242-254` | over all runs no assertion fails if and only if the queue is not emptied while a sender is in the window, or nobody can get there |
| `CanDriver.Driver.TransmitBegin` | `components/driver/can.c:584-606` | the first critical section of a transmission is the transition Begin, which `RunIsTold` judges |
| `CanDriver.Driver.QueueSend` | `components/driver/can.c:607-632` | putting a frame into the queue, or giving up |
| `CanDriver.Driver.TransmitAccount` | `components/driver/can.c:609-628` | the second critical section is the transition Account |
| `CanDriver.Driver.HandleTxBufferFrame` | `components/driver/can.c:232-260` | the transmit interrupt is the transition TxFree |
| `CanDriver.Driver.HandleBusOff` | `components/driver/can.c:138-147` | the bus-off interrupt |
| `CanDriver.Driver.HandleRecoveryComplete` | `components/driver/can.c:149-161` | the end of recovery |
| `CanDriver.Driver.CanStart` | `components/driver/can.c:532-551` | starting |
| `CanDriver.Driver.CanStop` | `components/driver/can.c:553-575` | stopping empties the queue and the counter |
| `CanDriver.Driver.CanInitiateRecovery` | `components/driver/can.c:693-715` | recovery empties the queue and the counter |
| `CanDriver.Driver.CanClearTransmitQueue` | `components/driver/can.c:746-759` | clearing keeps one count for a frame under transmission |
| `CommandList.BringDependencies` | `tools/idf.py:576-599` | the list is unchanged exactly when all dependencies are scheduled; otherwise its front is an unscheduled dependency and nothing is lost |
| `CommandList.BringOrderDependencies` | `tools/idf.py:601-605` | the same for order-only dependencies that are in the list, and nothing is added |
| `CommandList.Round` | `tools/idf.py:572-613` | one iteration schedules the front when it is ready, or moves something it waits for to the front |
| `CommandScheduler.Schedule` | `tools/idf.py:570-613` | the loop ends for acyclic commands; no repeats, every requested command, dependencies and requested order-only dependencies first, nothing unneeded; the result is the depth-first order, the request itself exactly when that needs no reordering |
| `CommandOrder.PopKeepsOrder` | `tools/idf.py:607-613` | scheduling a ready front task leaves the depth-first order of the rest as it was |
| `CommandOrder.MoveKeepsOrder` | `tools/idf.py:576-605` | so does bringing what the front task waits for to the front, whether new or taken from its place |
| `CommandOrder.RunAsGivenIff` | `tools/idf.py:570-613` | a request is run as given, up to repetitions, if and only if every command is requested behind what it waits for |
| `CommandOrder.OnlyNeededOvertakes` | `tools/idf.py:570-613` | before a requested command runs only what it, or one requested earlier, waits for directly or not |
| `CommandList.CircularNeverEnds` | `tools/idf.py:570-613` | with circular dependencies and one of their commands in the list no number of iterations empties it |
| `CommandList.RankedIffNotCircular` | `tools/idf.py:570-613` | without order-only dependencies the condition of `Schedule` holds if and only if that of `CircularNeverEnds` fails for every set: the loop ends exactly for requests that reach no circle |
| `CommandList.CircularOrderNeverEnds` | `tools/idf.py:601-605` | the same for circles with order-only dependencies once all their commands are in the list |
| `RmtTransmit.Channel.Fill` | `components/driver/rmt.c:514-522` | copies items into the memory at an offset and nothing else |
| `RmtTransmit.Channel.WriteItems` | `components/driver/rmt.c:816-859` | starts with the first items, up to both halves, in memory, and a stop item when they fit |
| `RmtTransmit.Channel.ThresholdIsr` | `components/driver/rmt.c:620-640` | refills one half with the next items or the stop item, and turns to the other |
| `RmtTransmit.Channel.Transmit` | `components/driver/rmt.c:596-643` | for every schedule of interrupts hardware sends exactly the list and then meets the stop item |
| `RmtTransmit.TransmitAll` | `components/driver/rmt.c:816-859` | any number of lists of any length on any number of memory blocks, one after the other |
| `OtaSelect.NextSeqSelects` | `components/app_update/esp_ota_ops.c:359-374` | the number found is the least from the active one on that selects the slot |
| `OtaSelect.NextSeqOnDevice` | `components/app_update/esp_ota_ops.c:361-368` | the device's search ends with that number |
| `OtaSelect.NextSeqInTool` | `components/app_update/otatool.py:162-175` | the host tool's search ends with that number |
| `OtaSelect.SameOnBothSides` | `components/app_update/otatool.py:162-175` | both compute the same number |
| `OtaSelect.DecisionBesideActive` | `components/app_update/esp_ota_ops.c:448-475` | beside a valid entry the other sector decides exactly when it is valid and newer |
| `OtaSelect.OtaData.RewriteOtaData` | `components/app_update/esp_ota_ops.c:304-375` | a power cut at any point leaves the old or the requested slot; after completion it is the requested one if and only if the number found is not 0 again, the active entry is as it was and the other one has the next number for the slot |
| `OtaSelect.ActiveIsNewer` | `components/bootloader_support/src/bootloader_common.c:194-229` | the active entry is the valid one with the greater number, where states 3 and 4 make an entry invalid |
| `OtaSelect.NextSeqSelectsIff` | `components/app_update/esp_ota_ops.c:359-374` | the number found selects the slot if and only if the active number is not 0, the slot is not the last, or the number of slots divides 2^32 |
| `OtaSelect.SequenceZeroFails` | `components/app_update/esp_ota_ops.c:467-467` | three slots and sequence number 0: after a completed switch to the last slot the first one boots |
| `OtaSelect.ToolSwitch` | `components/app_update/otatool.py:142-197` | for every pair of sectors the tool accepts or rejects: the device boots the requested slot if and only if the written sector's kept state may boot and the number selects the slot, or the base alone gives it; the newer valid sector is never written |
| `OtaSelect.ToolBaseIsNewer` | `components/app_update/otatool.py:142-158` | the tool goes by the valid entry with the greater number, whatever its state |
| `OtaSelect.ToolWritesAsDevice` | `components/app_update/otatool.py:142-185` | where every state may boot, tool and device rewrite the same sector with the same number and CRC |
| `OtaSelect.ToolSwitchAfterRollback` | `components/app_update/otatool.py:107-110` | two states that do not boot: the switch leaves the device with its default |
| `OtaWrite.OtaOp.Write` | `components/app_update/esp_ota_ops.c:187-251` | flash prefix and partial buffer are the data accepted so far, at multiples of 16 under encryption; each outcome exactly when, and what a failed flash write leaves behind |
| `OtaWrite.LeftoverEmptyIff` | `components/app_update/esp_ota_ops.c:213-237` | when a failed write leaves nothing in the entry |
| `OtaWrite.OtaOp.End` | `components/app_update/esp_ota_ops.c:253-285` | the tail is written, and flash begins with exactly the accepted data |
| `OtaWrite.WriteImage` | `components/app_update/esp_ota_ops.c:187-285` | for every way of cutting an image: accepted if and only if it starts with the magic byte, fits and has at least one unit, and then flash begins with it |
| `OtaWrite.RepeatAfterFailure` | `components/app_update/esp_ota_ops.c:208-244` | repeating a write that failed in either flash write gives the data once if and only if there is no encryption, or no partial unit before and no tail kept |
| `SplitArgv.SplitOfLine` | `components/console/split_argv.c:41-120` | quoting and escaping any list of arguments, then splitting, gives the list back |
| `SplitLines.SplitOfWritten` | `components/console/split_argv.c:41-120` | however a line is written, with or without quotes and escapes, ended or not, it is split into what is meant: behind 0x5C a character stands for itself if it is 0x5C, 0x22 or 0x20, and any other vanishes |
| `SplitLines.EveryLineIsWritten` | `components/console/split_argv.c:41-120` | every line is written so, so that the splitting of all lines is stated in character codes |
| `SplitArgv.TokensNoNul` | `components/console/split_argv.c:41-120` | arguments of a C string are C strings |
| `SplitArgv.StepYields` | `components/console/split_argv.c:57-103` | one round of the automaton yields exactly the argument it ends |
| `SplitArgv.Switch` | `components/console/split_argv.c:57-103` | the switch statement computes that round |
| `SplitArgv.Round` | `components/console/split_argv.c:50-109` | the loop body keeps what is written behind what is read, and the finished arguments intact |
| `SplitArgv.SplitInPlace` | `components/console/split_argv.c:41-120` | argv points at C strings inside the buffer that are the first arguments of the line, and ends with NULL |
| `Crc7.TableIsEightSteps` | `components/driver/sdspi_crc.c:19-37` | all 256 entries are eight steps of the shift register |
| `Crc7.LookupFeedsByte` | `components/driver/sdspi_crc.c:44-44` | one lookup feeds the register the eight bits of a byte |
| `Crc7.Crc7OfMessage` | `components/driver/sdspi_crc.c:40-47` | for every message the result is the register after all its bits |
| `Crc7Code.RegisterIsRemainder` | `components/driver/sdspi_crc.c:39-47` | the register holds the remainder of the message times x^7 modulo x^7+x^3+1, and no other |
| `Crc7Code.FeedIsLinear` | `components/driver/sdspi_crc.c:40-47` | the CRC is xor-linear on messages of equal length |
| `Crc7Code.CheckByte` | `components/driver/sdspi_transaction.c:30-50` | a message and seven bits above a zero give 0 if and only if the bits are its CRC |
| `Crc7Code.BurstShows` | `components/driver/sdspi_crc.c:40-47` | changes within seven consecutive bits, so any single flip, change the CRC |
| `Crc7Code.TwoFlipsShowIff` | `components/driver/sdspi_crc.c:40-47` | two flipped bits go unnoticed if and only if they are a multiple of 127 apart |
| `LedcFade.SegmentsCounted` | `components/driver/ledc.c:601-620` | a distance takes one segment for every 1023 whole steps or part of them, and one for the rest |
| `LedcFade.GlidesTowards` | `components/driver/ledc.c:590-620` | of two duties on the way the later is nearer the target, on the same side |
| `LedcFade.Fade.SetFadeWithStep` | `components/driver/ledc.c:681-719` | starts from the lowered full duty, in the right direction, with the first segment not passing the target |
| `LedcFade.Fade.FadeIsr` | `components/driver/ledc.c:585-620` | gives the semaphore exactly on the target, otherwise configures the next segment |
| `LedcFade.Fade.FadeWithStep` | `components/driver/ledc.c:585-719` | a fade ends exactly on the target after the counted interrupts, never turns back, passes it or moves by more than the scale |
| `LedcFade.Fade.SetFadeWithTime` | `components/driver/ledc.c:721-754` | scale and cycles for a time, with the product of time and frequency in 32 bits; what they come to is in `FadeWithTime` |
| `LedcFade.Fade.FadeWithTime` | `components/driver/ledc.c:721-754` | reaches the target in a closed form of cycles; with more cycles than duties it takes more than all but one step of the whole cycles there are a step; it takes no more than the milliseconds asked for exactly when `KeepsTime` says so of distance, time and frequency |
| `LedcFade.FadeCyclesCounted` | `components/driver/ledc.c:585-620` | the cycles of any fade: those of its whole steps, one for the rest, and one for a step left alone by the segments before |
| `LedcFade.ShortFadeLasts` | `components/driver/ledc.c:739-744` | with more cycles than duties a fade takes more than (duties - 1) times the quotient, cut at 1023 |
| `LedcFade.LongFadeLasts` | `components/driver/ledc.c:745-753` | otherwise it takes no fewer cycles than planned, but for the duty not covered from the full duty |
| `LedcFade.AlmostTheTime` | `components/driver/ledc.c:733-753` | in milliseconds: a fade falls short of the time asked for only by what the quotient cuts off, one step and that duty, unless quotient or product are cut |
| `LedcFade.WithinTimeIff` | `components/driver/ledc.c:728-753` | a fade lasts no longer than `max_fade_time_ms` if and only if it is a jump, or the product of time and frequency exceeds 32 bits, or there are more cycles than duties, or the cycles divide the distance into allowed steps; from the full duty one duty less counts |
| `LedcFade.LongFadeWithinIff` | `components/driver/ledc.c:745-753` | a fade in steps takes no more than the planned cycles if and only if these cover the duties to pass, with the step cut to the largest allowed one |
| `LedcFade.LessThanTwice` | `components/driver/ledc.c:745-753` | with an allowed step a fade takes less than twice the planned cycles |
| `LedcFade.TwiceTheTime` | `components/driver/include/driver/ledc.h:332-332` | 1999 duties in at most 1000 cycles take 1999 |
| `LedcFade.ThousandTimes` | `components/driver/ledc.c:748-752` | with a step that is cut, 1048575 duties in one cycle take 1025 |
| `LedcTimer.SettingReadsBack` | `components/driver/ledc.c:277-323` | every accepted setting reads back no lower and less than 1/256 higher |
| `LedcTimer.ReadBack` | `components/driver/ledc.c:535-551` | f <= g and g*d < f*(d+1) for the nested floor quotients |
| `LedcTimer.NoTruncatedSetting` | `components/driver/ledc.c:294-308` | for the clocks there are, no accepted divider is a truncated 64-bit quotient |
| `LedcTimer.AutoAcceptsIff` | `components/driver/ledc.c:292-312` | the automatic clock choice accepts exactly the products of frequency and precision from 977 to 80000000, on the faster clock from 78126 |
| `LedcTimer.NamedAcceptsIff` | `components/driver/ledc.c:305-312` | a named clock is taken exactly for products of frequency and precision up to its own frequency and above a 1024th of it |
| `LedcTimer.NamedClocksAccept` | `components/driver/ledc.c:305-312` | in numbers: 78126 to 80000000 for the APB clock, 977 to 1000000 for the reference tick |

## Left out

- RingBuffer.Ring.Produce: the 32-bit wrap of write position plus size is not modelled; callers ask for less than the
  size of the buffer plus its position.
- TraceTransport.Transport.Store: getting, filling and putting a user block is one step; a task that is preempted in
  between can expose an unfilled block, as `app_trace.c:102-106` says.
- TraceTransport.Transport.SwitchBlock: one CPU's control register; the instruction label, the memory multiplexer and
  the status register are left out.
- Tracing in post-mortem mode, where unread blocks are overwritten by design, and configurations without a pending
  ring or with one no larger than a trace block.
- TraceSession.WriteUser: the header of 4 bytes; the SystemView configuration has a header of 2 bytes and at most 255
  bytes of user data.
- Timeouts, the spin lock, and the wait loop for data from the host: a wait is a finite list of host moves.
- InitGuards.RunKeepsInv: the primitives exist and the scheduler runs; the maximum count of the semaphore is left out.
- CanDriver.Accounting: supposes that no reset falls into a sender's window; `ResetKeepsInvIff` and
  `AssertionsHoldIff` are the exact border.
  Receiving, alerts, error counters and event decoding are left out, and the transmit interrupt comes only while the
  buffer is occupied.
- CommandScheduler.Schedule: supposes that hard and order-only dependencies among all that is needed have no circle;
  with a circle of order-only dependencies some lists still end, depending on the order in which commands enter the
  list. Which of several tasks with one name is executed, aliases, option propagation and callbacks are left out.
- RmtTransmit.Channel.Transmit: items have nonzero durations; the translator, loop mode and receiving are left out.
- OtaSelect.OtaData.RewriteOtaData: an interrupted erase reads as one arbitrary invalid entry, words are written whole;
  sequence numbers so near 2^32 that the search would wrap are excluded.
- OtaWrite.OtaOp.End: the list of handles and the verification of the image are left out; a flash write that fails
  changes nothing in flash.
- SplitArgv.SplitInPlace: an argv of size 0, for which the source computes a huge limit.
- Crc7.Crc7OfMessage: the 16-bit CRC beside it is a ROM call.
- LedcFade.Fade.SetFadeWithTime: a negative time, which the source takes as a large unsigned one.
- LedcFade.Fade.RunSegment: the registers behind the hardware layer and the fractional part of the duty; the
  meaning of a segment is taken from the driver.
- LedcTimer.SettingReadsBack: the calibration of the 8 MHz clock; its frequency is a parameter below 2^24.
- Other drivers, network stacks, build tools and documentation scripts.
