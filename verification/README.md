# Verified models of the VCML core

VCML is a modelling library on top of SystemC. These Dafny modules model the parts of it that hold state machines and
byte arithmetic, and prove what they promise.

- **Registers and peripherals.** `Register.dfy` is a register: an array of cells with a size and a stride, a byte
  order, access rules and one bank of values for each processor. `RegisterBank.dfy` is the map from offsets to registers
  that takes bus transactions apart, and `Peripheral.dfy` the transport call with streaming and byte enables. Their
  methods are proved against `BankSpec.dfy` and `TransportSpec.dfy`, which say without scans and loops what an access
  means. On top of that, `SparseMemory.dfy` and `BankRuns.dfy` show that a bank is a sparse byte memory for every
  processor, over any sequence of transactions of any processors, `TransportMeans.dfy` says who answers an access and
  how a transport ends that finds no register, and `TransportForm.dfy` says byte by byte of the data stream what a
  transport does. `ByteOrder.dfy` and `Layout.dfy` hold the arithmetic of words, cells and gaps.
- **Asynchronous workers.** `AsyncWorker.dfy` is the protocol between a simulation thread, a host thread that runs ahead
  of it and threads that suspend it, as one step per atomic access or locked section. The theorems are about all
  interleavings.
- **Asynchronous timers.** `Timers.dfy` is the heap of events that point back at timers, with callbacks that may change
  any timer while a batch fires.
- **Suspend manager.** `Suspender.dfy` has the locked sections as methods of a class and the threads around them as a
  step relation.
- **Remote serial protocol.** `Rsp.dfy`: escaping, checksum and framing of section "Overview" of the GDB Remote Serial
  Protocol, the retrying sender and the byte-driven receiver.
- **Debug target.** `DebugTarget.dfy`: breakpoints and watchpoints against a model that may refuse or release resources.
  `VirtualMemory.dfy`: the page loops of debug accesses.
- **Smaller cores.** `Peers.dfy` (windows of socket indices), `Peq.dfy` (the payload event queue) and `Loops.dfy` (nested
  loops of a configuration file). `Wrappers.dfy`, `Sequences.dfy` and `Events.dfy` hold what several of them use.

An error that the source raises (`VCML_ERROR`, `VCML_ERROR_ON`) is a result of the method, or a precondition where it
states what the caller has to bring. `sc_event` keeps only the earliest pending notification (section 5.10 of IEEE Std
1666-2011). `wait(t)` advances simulation time by `t`.

## Results worth knowing

- A suspend of an asynchronous worker whose request was resumed before it returned does not hold the worker
  (`EarlyResumeVoidsSuspend`). In every reachable state in which suspend may return, a live worker is held exactly if the
  request is still set, or if it is about to leave its task because the simulation stopped (`HeldIffStillRequested`).
- A suspender that rejects the suspension point stays queued but is never looked at again by itself: a run from the start
  reaches that (`StrandedRun`), a look at the queue causes it exactly if somebody rejects and no other run of the handler
  is scheduled (`RejectionStrands`), and it stays so (`StrandedForever`).
- A thread that looked at the quitting flag of the suspend manager before the quit still queues its suspender after it
  (`QueuesAfterQuit`). The queues stay empty after a quit exactly if no thread, the simulation thread included, was between
  that look and the lock (`QuitEmptiesIff`).
- Strings with a NUL are delivered exactly if the bytes of the escaped string from the NUL on sum up to zero or the sum
  before it is zero (`DeliveredIffAcceptable`): the sender's checksum stops at the NUL, the receiver's does not.
- The stored id of a watchpoint half is not cleared when its resource is released, so a model that gives out ids again
  can lose another watchpoint's resource (`ReusedIdTakesResourceAway`). Over any run, with any ids, every subscriber is
  backed exactly if no step gives a resource back by an id under which one with subscribers is held (`RunBackedIff`).
- A payload event queue whose event fires while its consumer is busy may lose the notification of the next entry
  (`BusyConsumerMissesEntry`). Some way to go on leaves an entry overdue exactly if the first entry is scheduled for later
  than now (`LosesIffLaterEntry`, `FirstHarmLoses`); if no notification is like that, nothing is lost (`NothingIsLost`).
- A debug read of virtual memory fills the start of the buffer for an unmapped page, not the current position there, so
  bytes that were read before are hidden (`VirtualMemory.Read`, `HiddenByte`).
- The iterator of a loop line loses the character before the last colon: it is right exactly if that is a blank
  (`LoopLineParts`, `IteratorNeedsBlank`).
- The window of a peer array is as long as the peer has sockets, so with a peer offset its end has no socket to bind to
  (`PeerIndex`).
- The innermost loop of a configuration file varies slowest.

## Where documentation and code differ

- `doc/peripherals.md:60` says that aligned accesses are checked against the access size. The code
  (`src/vcml/core/register.cpp:119`) checks the address of the whole transaction against the minimum access size, and
  only if there is one. The model does what the code does.
- Natural accesses are documented by the size of the register; the code compares with the size of a cell
  (`include/vcml/core/register.h:146-156`). The model does what the code does.

## Model

| member | source | states |
|---|---|---|
| `ByteOrder.WordRoundTrip` | include/vcml/core/register.h:661-663 | the byte image of a word, in either byte order, is made up of bytes that give the word back |
| `ByteOrder.BytesRoundTrip` | include/vcml/core/register.h:661-663 | storing bytes into a word and looking at the image of the word gives the bytes back, in either byte order |
| `ByteOrder.DigitsOfWord` | include/vcml/core/register.h:661-663 | byte k of the little image of a word is its digit k to the base of 256, and the big image has the digits the other way round |
| `ByteOrder.SwapTwice` | include/vcml/core/register.h:674-683 | swapping the bytes of a word twice gives the word back |
| `ByteOrder.BusImageIsDeviceImage` | include/vcml/core/register.h:661-663 | a word copied as the host stores it, after a swap when host and device differ, is the image of the word in device byte order on every host |
| `ByteOrder.MergedImage` | include/vcml/core/register.h:672-688 | a read-modify-write of part of a word changes exactly those bytes of its device image and yields a word in range |
| `Layout.OverlapsRange` | src/vcml/core/register.cpp:360-376 | a strided register overlaps an address range exactly if one of its cell bytes lies in the range, gaps do not count |
| `Layout.OverlapsRegister` | src/vcml/core/register.cpp:378-395 | two strided registers overlap exactly if they share a cell byte; the relation is symmetric |
| `Layout.CellOf` | src/vcml/core/register.cpp:82-90 | a byte of a cell is a hit of its register exactly if the cell exists |
| `Layout.CellIndexInBounds` | include/vcml/core/register.h:641-642 | an offset inside of the register, hit or gap, leads to an existing cell, and a hit to a byte of that cell |
| `Registers.Register.DoRead` | include/vcml/core/register.h:639-664 | reading part of a cell copies the bytes of its device image to the buffer and changes neither cells nor other banks; the index and length checks cannot fail |
| `Registers.Register.DoWrite` | include/vcml/core/register.h:667-689 | writing part of a cell changes exactly those bytes of the image of the current bank |
| `Registers.Register.DoReceive` | src/vcml/core/register.cpp:76-103 | a clipped access moves exactly the covered bytes of its window, cell by cell over the gaps, counts them, and sets an incomplete response to ok if there were any |
| `Registers.Register.Receive` | src/vcml/core/register.cpp:131-166 | an access that begins in the register is cut at its end; one behind it moves nothing; length and streaming width are restored |
| `Registers.Register.Load` | include/vcml/core/register.h:528-556 | a processor sees its own bank of a banked register, with initial values where it never touched it; reading creates the bank without changing what any processor sees |
| `Registers.Register.Store` | include/vcml/core/register.h:538-556 | storing a cell changes one value of one bank |
| `Registers.Register.InitBank` | include/vcml/core/register.h:911-920 | a new bank holds the initial values; an existing one is left alone |
| `Registers.Register.Reset` | include/vcml/core/register.h:617-625 | after a reset every bank shows the initial values |
| `Registers.Register.SetAccessSize` | src/vcml/core/register.cpp:20-25 | a size range is taken exactly if it is ordered and fits a cell |
| `Registers.Register.NaturalAccessesOnly` | include/vcml/core/register.h:146-156 | natural-only accesses are aligned and exactly as long as a cell; switching them off lifts all size limits |
| `Registers.CellStep` | src/vcml/core/register.cpp:82-97 | one turn of the cell loop passes exactly the hits of one cell |
| `BankSpec.Clipped` | src/vcml/core/register.cpp:318-319 | the interval that is forwarded to a register holds exactly the window bytes of that register and is not empty |
| `BankSpec.ScanStart` | src/vcml/core/register.cpp:308-311 | no register at or behind the lower bound of the window's end can take part in the access |
| `BankSpec.ScanFull` | src/vcml/core/register.cpp:338-339 | once all bytes of the window were counted, the registers further down could not contribute |
| `BankSpec.ScanEnded` | src/vcml/core/register.cpp:333-334 | after a natural-only register took the access, the meaning of the access gives nothing to the registers further down |
| `BankSpec.NaturalGrantsCells` | include/vcml/core/register.h:146-156 | a natural-only register grants only aligned accesses to one whole cell, debug accesses aside |
| `RegisterBanks.RegisterBank.Insert` | src/vcml/core/register.cpp:270-288 | a register that is not in the map is refused exactly if it shares a byte with another one; otherwise it is added at a free offset and takes over the alignment and sizes that the bank imposes, sizes over natural accesses over alignment, and keeps all other rules; the bank stays cell-disjoint; a refused access size leaves the register in the map |
| `RegisterBanks.RegisterBank.Remove` | src/vcml/core/register.cpp:290-295 | exactly the register is taken out; the bank stays cell-disjoint |
| `RegisterBanks.RegisterBank.FindOverlap` | src/vcml/core/register.cpp:271-281 | the scan of the map finds an overlap exactly if some register shares a byte with the new one |
| `RegisterBanks.RegisterBank.CheckAccess` | src/vcml/core/register.cpp:106-129 | a register takes part exactly if its bytes touch the window, nothing failed before, and the access is for debugging or meets all its rules: readable for a read, writeable for a write, a length within the sizes, an aligned address, enough privilege, security; a register that is touched and refuses makes it a command error |
| `RegisterBanks.RegisterBank.ServeEntry` | src/vcml/core/register.cpp:315-331 | one register moves exactly its share of the window; address, length, width and data pointer are as before |
| `RegisterBanks.RegisterBank.Receive` | src/vcml/core/register.cpp:297-342 | a transaction that comes incomplete ends with a command error exactly if some touched register refuses it with no touched natural-only one above, otherwise with ok if any register is touched, otherwise incomplete; a byte moves exactly if its register and all touched ones above admit the access and none above is natural-only; every other byte of memory and buffer stays, the count is the number of moved bytes; address, length, width, data pointer, configuration and other banks are restored or untouched |
| `RegisterBanks.RegisterBank.UnbankedBytesAreShared` | include/vcml/core/register.h:548-556 | all processors see the same bytes of an unbanked register |
| `RegisterBanks.RegisterBank.BankedBytesAreSeparate` | include/vcml/core/register.h:528-556 | an access of one processor does not change what another processor sees in a banked register |
| `RegisterBanks.RegisterBank.SeenByOther` | include/vcml/core/register.h:528-556 | after an access of one processor another one sees the new byte where the register has no banks, and its own old byte everywhere else |
| `SparseMemory.PermittedServesCovered` | src/vcml/core/register.cpp:297-342 | with all checks passed and no natural-only register in the window, exactly the covered bytes of the window are served, and the response is ok exactly if there are any |
| `SparseMemory.RefusedServesAbove` | src/vcml/core/register.cpp:311-339 | bytes served by an access that a register refuses lie above the refusing register |
| `SparseMemory.RunHoldsLastWritten` | src/vcml/core/register.cpp:297-342 | after any sequence of transactions of any processors, a processor sees at each covered address the last byte written there by itself or, where the register has no banks, by any processor, or the initial one |
| `SparseMemory.ReadYieldsLastWritten` | src/vcml/core/register.cpp:297-342 | after any sequence of transactions of any processors, a permitted read gives for each covered address the last byte that its processor, or for a register without banks any processor, wrote there, and leaves the other bytes of its buffer alone |
| `SparseMemory.LayoutDoesNotMatter` | src/vcml/core/register.cpp:76-103 | banks that cover the same addresses, and share the same of them between processors, serve the same bytes with the same count and status, and hold the same memory after any sequence of permitted transactions, however the bytes are divided into registers, cells and strides |
| `SparseMemory.LayoutIsInvisible` | src/vcml/core/register.cpp:76-103 | after any such sequence a permitted read is answered alike by both banks |
| `BankRuns.Access` | src/vcml/core/register.cpp:297-342 | one transaction of one processor is one operation of the sparse memory for every processor, with the count and status that the declarative meaning gives, and a read returns the bytes of that memory |
| `BankRuns.OtherPerforms` | include/vcml/core/register.h:528-556 | what another processor sees of a transaction is what its own sparse memory does with it |
| `BankRuns.Replay` | src/vcml/core/register.cpp:297-342 | after any sequence of transactions of any processors, every processor sees what its sparse memory holds after the sequence, and every read was answered from the memory that its processor saw at that point |
| `Peripherals.Peripheral.ForwardToRegs` | src/vcml/core/peripheral.cpp:72-87 | the registers of the address space are asked first, the global ones only if none took the access; other address spaces, the configuration of all registers and the banks of other processors are untouched |
| `Peripherals.Peripheral.Receive` | src/vcml/core/peripheral.cpp:277-309 | streaming and byte enables are errors of a plain access; otherwise the local registers answer if any is in the window, else the global ones if any is, with the status and the bytes that their rules give; else it is an address error with no byte, or ok with all of them when it neither reads nor writes, and nothing changes; other address spaces and the banks of other processors are untouched |
| `Peripherals.Peripheral.EnabledPulse` | src/vcml/core/peripheral.cpp:243-255 | one access for each enabled byte of the pulse until one fails, with the enable index running on over the pulses; the banks of other processors are untouched |
| `Peripherals.Peripheral.Transport` | src/vcml/core/peripheral.cpp:203-275 | the call ends in the state that the list of its accesses gives; all payload fields are restored, a zero streaming width becomes the length; no access at all is the reported error, exactly for a width beyond the length or no enabled byte; a stray byte enable length is a byte enable error; a read or write whose first access finds no register stops there with an address error and no byte; one that neither reads nor writes and finds none is ok; other address spaces, the configuration and the banks of other processors are untouched |
| `TransportSpec.StepsStopped` | src/vcml/core/peripheral.cpp:228-243 | once an access failed, the rest of the transport changes nothing |
| `TransportSpec.PlainPulse` | src/vcml/core/peripheral.cpp:236-241 | one more pulse without byte enables is one more access; a stray byte enable length makes the first one fail |
| `TransportMeans.StepMeans` | src/vcml/core/peripheral.cpp:277-309 | one access is answered by the local space if that has registers in the window, else by the global one if that has, with the status and the bytes that their rules give, else by the peripheral itself |
| `TransportMeans.FirstByteFails` | src/vcml/core/peripheral.cpp:243-255 | a transport with byte enables whose first enabled byte has no register stops there with an address error, whatever comes behind |
| `TransportMeans.TransportEnds` | src/vcml/core/peripheral.cpp:203-275 | how a transport ends that makes no access, has a stray byte enable length, or finds no register at its first access |
| `TransportForm.PlainStep` | src/vcml/core/peripheral.cpp:277-292 | a granted access to bytes that are covered in the local space, or in the global one where the local space has none of them, moves all of them and nothing else and counts them |
| `TransportForm.NothingLocal` | src/vcml/core/peripheral.cpp:72-87 | a space without registers in the window leaves the access, its buffer and its status alone |
| `TransportForm.TransportMovesStream` | src/vcml/core/peripheral.cpp:203-275 | a transport over granted bytes that are covered by the local space, or by the global one alone, moves exactly the enabled bytes of its stream: byte b of a pulse goes to the address plus b, the last enabled one wins, every other byte of memory and buffer stays, the count is the number of enabled positions and the status is ok if there are any; a read fills exactly the enabled positions |
| `AsyncWorker.MutualExclusion` | src/vcml/core/systemc.cpp:663-693 | in every reachable state, a thread whose suspend returned with no resume since it asked finds a live worker outside of task code |
| `AsyncWorker.HeldUntilResume` | src/vcml/core/systemc.cpp:663-688 | if the request is still set when the worker is blocked, no interleaving without a resume lets a live worker run task code |
| `AsyncWorker.HeldIffStillRequested` | src/vcml/core/systemc.cpp:680-688 | in every reachable state with the worker blocked, a live worker is held until the next resume exactly if the request is still set or it is about to leave its task because the simulation stopped |
| `AsyncWorker.EarlyResumeVoidsSuspend` | src/vcml/core/systemc.cpp:663-678 | a resume between the request and the return of suspend voids it: a run in which the worker runs task code although nobody resumed it after suspend returned |
| `AsyncWorker.ProgressIsConserved` | src/vcml/core/systemc.cpp:742-783 | when a task has returned, the time waited for progress is the sum of the amounts that its code decided to report, nothing is pending, and simulation time advanced by that sum and by the time of its sync jobs; all sums are taken over the steps of the run |
| `AsyncWorker.StampStep` | src/vcml/core/systemc.cpp:758-770 | a step moves the worker's time stamp by exactly the amount of the report that it delivers, which is the one that task code decided on; a refresh only adds what the stored position was behind |
| `AsyncWorker.StampIsMonotone` | src/vcml/core/systemc.cpp:798-801 | within a task the time stamp never decreases; it gains the sum of the amounts that task code decided to report, but for one still to be delivered, what the position was behind at the start and what sync jobs took |
| `AsyncWorker.JobsRunOnceAndOnTime` | src/vcml/core/systemc.cpp:764-776 | no sync job runs twice; one whose run_sync returns normally has run; a job starts at the worker's time stamp with no progress pending |
| `AsyncWorker.NobodyTerminates` | src/vcml/core/systemc.cpp:785-796 | while the simulation runs and nobody kills the worker, run_sync never leaves by the exception |
| `AsyncWorker.StoppedSyncTerminates` | src/vcml/core/systemc.cpp:785-796 | once the simulation has stopped for good, a worker in run_sync leaves it by the exception within four of its own steps |
| `AsyncWorker.KilledWorkerExits` | src/vcml/core/systemc.cpp:680-733 | a killed worker whose task returns ends after nine of its own steps, whatever suspends it and even while it waits for a sync job |
| `Suspenders.SuspendManager.RequestPause` | src/vcml/debugging/suspender.cpp:62-78 | after the locked part of a pause request the suspender is in exactly one queue: among the active ones if it was, or if it is willing to join a held simulation; everybody else stays, and the handler is scheduled exactly for the first that has to wait |
| `Suspenders.SuspendManager.RequestResume` | src/vcml/debugging/suspender.cpp:86-95 | the suspender leaves both queues, waiting or active; everybody else stays, in order; flags and scheduled runs stay; the simulation thread is notified exactly if it was active and nobody else was |
| `Suspenders.ResumedStaysOut` | src/vcml/debugging/suspender.cpp:55-95 | over any run after a resume the suspender is in no queue until a pause request for it takes the lock again |
| `Suspenders.SuspendManager.Quit` | src/vcml/debugging/suspender.cpp:132-141 | nobody waits, nobody is active, and a simulation thread that is held may leave; what was scheduled stays scheduled |
| `Suspenders.QuitIsFinal` | src/vcml/debugging/suspender.cpp:55-213 | over any run after a quit, no further thread, the simulation thread included, gets past the look at the quitting flag, the simulation thread is out of the handler within four turns there and stays out, and unless it was about to look at the queue nobody becomes active |
| `Suspenders.QueuesAfterQuit` | src/vcml/debugging/suspender.cpp:55-78 | a run in which a thread that looked at the flag before the quit queues its suspender after it |
| `Suspenders.EmptyForGoodIff` | src/vcml/debugging/suspender.cpp:55-213 | a manager that quits with empty queues keeps them empty on every run exactly if no thread is between its look at the flag and the lock |
| `Suspenders.QuitEmptiesIff` | src/vcml/debugging/suspender.cpp:132-141 | a quit in any state empties both queues for good exactly if no thread was between its look at the flag and the lock |
| `Suspenders.SuspendManager.Collect` | src/vcml/debugging/suspender.cpp:177-188 | waiting suspenders that accept the suspension point become active, behind those that are, the others stay waiting, both in their order; the simulation is marked suspended exactly if it was or any is active |
| `Suspenders.QueuesKept` | src/vcml/debugging/suspender.cpp:55-213 | every step of every thread keeps both queues free of duplicates and disjoint |
| `Suspenders.ReachableIsSafe` | src/vcml/debugging/suspender.cpp:55-213 | in every reachable state the queues are duplicate-free and disjoint, unless quitting an active suspender means a suspended simulation whose thread stands in the handler, and a sleeping handler that may leave was notified |
| `Suspenders.YieldHoldsSimulation` | src/vcml/debugging/suspender.cpp:97-113 | a yield that returns before the manager quits saw a held simulation, and it stays held in every run until that suspender resumes or the manager quits |
| `Suspenders.EmptyStaysEmpty` | src/vcml/debugging/suspender.cpp:198-209 | once no suspender is active while the simulation thread is in the handler, none becomes active before that thread has left it |
| `Suspenders.PendingAlways` | src/vcml/debugging/suspender.cpp:71-78 | over any run in which every look at the queue finds all suspenders willing, a waiting suspender always has a run of the handler ahead |
| `Suspenders.RejectionStrands` | src/vcml/debugging/suspender.cpp:177-184 | a look at the queue leaves a run of the handler ahead for everybody who waits exactly if another run is scheduled or all of them accept |
| `Suspenders.StrandedRun` | src/vcml/debugging/suspender.cpp:55-188 | a run from the start in which a suspender rejects and is left behind, queued, without a run of the handler ahead |
| `Suspenders.StrandedForever` | src/vcml/debugging/suspender.cpp:71-78 | a suspender left behind stays queued, and no later pause request schedules the handler again |
| `Timers.InvKept` | src/vcml/core/systemc.cpp:352-399 | every reset, cancellation, destruction, update, pop and trigger keeps timers and events linked one to one, each event in one place or freed once, the books balanced and no event overdue |
| `Timers.TimersAreConserved` | src/vcml/core/systemc.cpp:587-616 | in every reachable state resets are triggers plus cancellations plus one if armed, and an armed timer has exactly one live event that points back, queued and not overdue |
| `Timers.TriggersOnTime` | src/vcml/core/systemc.cpp:384-391 | a firing event triggers exactly the timer armed with it, exactly when its timeout is now |
| `Timers.OperationMeans` | src/vcml/core/systemc.cpp:601-616 | a reset at a time arms the timer for that time plus the delay with a new queued event that points back; a cancelled or new timer is not armed, a destroyed one is gone; other timers stay |
| `Timers.CalledAtTimeout` | src/vcml/core/systemc.cpp:384-399 | over any run after a reset that does not reset, cancel or destroy the timer, it waits and time does not pass the time of the reset plus the delay, or it was called once; it is called only at that time |
| `Timers.BatchIsComplete` | src/vcml/core/systemc.cpp:352-367 | when the helper begins to fire, its batch holds every event whose time has come, all of them for now |
| `Timers.DisownedNeverTriggers` | src/vcml/core/systemc.cpp:601-616 | an event whose timer was cancelled, reset or destroyed never triggers, whatever callbacks do while its batch fires |
| `Timers.UpdateKeeps` | src/vcml/core/systemc.cpp:369-382 | after an update the pending notification is not later than any event, although an earlier one is kept |
| `Timers.UpdateMeans` | src/vcml/core/systemc.cpp:369-382 | an update leaves a notification for the earliest event, or for now if that is overdue, keeps an earlier one, and leaves none without events |
| `Rsp.EscapeRoundTrip` | src/vcml/debugging/rspserver.cpp:17-33 | an escaped string ends no packet, starts none, and unescapes to the string |
| `Rsp.EscapeMeans` | src/vcml/debugging/rspserver.cpp:13-33 | the dollar sign, the hash sign, the closing brace and the asterisk are sent as a brace and the character with bit 5 changed, every other character as it is; none of the first two nor the asterisk is left |
| `Rsp.FrameFormat` | src/vcml/debugging/rspserver.cpp:78-87 | a frame is a dollar sign, the escaped string, a hash sign and two lower case hexadecimal digits for the sum of the bytes before the first NUL |
| `Rsp.ReceiveFrame` | src/vcml/debugging/rspserver.cpp:85-90 | a received frame is the packet that was sent if its checksum is zero or misses nothing, and is rejected otherwise, from every state of the receiver |
| `Rsp.ReceiveAfterNoise` | src/vcml/debugging/rspserver.cpp:117-123 | bytes before a packet that end none and leave no escape open have no influence |
| `Rsp.ReceiveDamaged` | src/vcml/debugging/rspserver.cpp:125-142 | every transmission with a wrong non-zero checksum is rejected once and leaves nothing behind |
| `Rsp.PacketIsDelivered` | src/vcml/debugging/rspserver.cpp:78-167 | after noise and fewer than ten damaged transmissions the receiver returns exactly the string, and the sender stops with one more transmission |
| `Rsp.NulFreeIsAcceptable` | src/vcml/debugging/rspserver.cpp:35-40 | every string without NUL is delivered |
| `Rsp.DeliveredIffAcceptable` | src/vcml/debugging/rspserver.cpp:78-108 | on a line without errors a string is delivered at once exactly if its checksum is zero or the bytes of the escaped string from its first NUL on sum up to zero; otherwise the sender gives up after ten transmissions |
| `Rsp.NulBreaksDelivery` | src/vcml/debugging/rspserver.cpp:35-40 | a string with a NUL that can never be delivered |
| `Rsp.ChecksumMisses` | src/vcml/debugging/rspserver.cpp:35-40 | the sender's sum is the receiver's sum without what follows the first NUL |
| `Rsp.DeliverAfterRejections` | src/vcml/debugging/rspserver.cpp:94-107 | each rejection costs one of the attempts and changes nothing else |
| `Rsp.AckAfterNoise` | src/vcml/debugging/rspserver.cpp:100-107 | whatever stands before an acknowledge is skipped |
| `Rsp.Channel.RecvPacket` | src/vcml/debugging/rspserver.cpp:110-167 | the receiver loop returns the packet, the acknowledges and the rest of the input that its recursive meaning gives |
| `Rsp.Channel.SendPacket` | src/vcml/debugging/rspserver.cpp:78-108 | the sender loop transmits the frame as often as its meaning says, at most ten times, and ends with the answer |
| `DebugTarget.Target.InsertBreakpoint` | src/vcml/debugging/target.cpp:723-739 | the loop finds the address if it is known; the new list, the addresses held by the model and the result are those that InsertBreakMeans characterises |
| `DebugTarget.Target.RemoveBreakpoint` | src/vcml/debugging/target.cpp:763-784 | the loop finds the address if it is known; the new list, the addresses held by the model and the result are those that RemoveBreakMeans characterises |
| `DebugTarget.InsertBreakMeans` | src/vcml/debugging/target.cpp:723-739 | an insertion succeeds exactly if the address is known or the model grants it; it adds one subscriber at one address; a refused one changes nothing; breakpoints and model go on to match, whatever id is given |
| `DebugTarget.RemoveBreakMeans` | src/vcml/debugging/target.cpp:763-784 | a removal takes one subscriber away in any case; it fails exactly if he was none or the model refuses to release the last one's breakpoint; the breakpoint goes with its last subscriber; breakpoints and model go on to match exactly if no other breakpoint has the id of the released one |
| `DebugTarget.BreaksMatchIff` | src/vcml/debugging/target.cpp:723-784 | breakpoint addresses are unique and exactly those that the model holds all along a run, refusals and any ids included, exactly if no step releases a breakpoint by an id that another one has |
| `DebugTarget.BreakpointsMatchModel` | src/vcml/debugging/target.cpp:723-784 | over any run, refusals included, in which the model gives no id that is still held, breakpoint addresses are unique and are exactly those that the model holds |
| `DebugTarget.Target.InsertWatchpoint` | src/vcml/debugging/target.cpp:786-844 | a new or known range asks for the halves that have no subscriber yet, gives a granted read half back when the write half is refused, and subscribes only if all were granted |
| `DebugTarget.Target.RemoveWatchpoint` | src/vcml/debugging/target.cpp:877-907 | each half loses the subscriber and, after its last one, its resource; a refused release returns early, with the other half untouched and the watchpoint kept |
| `DebugTarget.InsertWatchMeans` | src/vcml/debugging/target.cpp:786-844 | an insertion succeeds exactly if every half that is asked for has a subscriber already or is granted; it then adds the subscriber to exactly these halves of this range; a failed one changes nobody's subscription |
| `DebugTarget.RemoveWatchMeans` | src/vcml/debugging/target.cpp:877-907 | a removal takes the subscriber from the halves that are asked for, the read half first; it fails exactly if the range is unknown or a resource without subscribers is not released, and a refusal for the read half leaves the write half alone |
| `DebugTarget.SubscribersAreBacked` | src/vcml/debugging/target.cpp:786-907 | over any run, refusals included, with a model that gives no id twice, ranges are unique, every read or write subscriber is backed by a resource, and a half with subscribers stores the id of its resource unless that has none |
| `DebugTarget.StepKeepsBackedIff` | src/vcml/debugging/target.cpp:786-907 | an insertion or removal, granted, refused or undone and with any ids, keeps every subscriber backed exactly if it gives no resource back by an id under which a half that keeps subscribers is held |
| `DebugTarget.RunBackedIff` | src/vcml/debugging/target.cpp:786-907 | ranges are unique and every read or write subscriber is backed by a resource all along a run, refusals and any ids included, exactly if every step is harmless in that sense |
| `DebugTarget.InsertIsHarmless` | src/vcml/debugging/target.cpp:786-844 | an insertion keeps every subscriber backed whenever the id that the read half stores is not in use, whatever the model grants |
| `DebugTarget.RemovalIsHarmless` | src/vcml/debugging/target.cpp:877-907 | a removal keeps every subscriber backed whenever the stored ids of the halves that lose their last subscriber are in use for no other half |
| `DebugTarget.EmptiedIsReleased` | src/vcml/debugging/target.cpp:887-901 | a half that a removal leaves without subscribers loses its resource, if the model releases it by the id under which it holds it |
| `DebugTarget.UndoneIsReleased` | src/vcml/debugging/target.cpp:821-835 | a read half that was granted is given back when the write half is refused, unless the model gave no id and an old one is stored |
| `DebugTarget.UndoneIsForgotten` | src/vcml/debugging/target.cpp:828-835 | a known watchpoint then forgets the id of its read half, whether the model took the resource back or not |
| `DebugTarget.ReusedIdTakesResourceAway` | src/vcml/debugging/target.cpp:855-867 | a run with an id given out again after its release, in which a removal takes another watchpoint's resource away |
| `VirtualMemories.ChunkIsLinear` | src/vcml/debugging/target.cpp:565-566 | the bytes of one turn of the page loop lie in one page and are translated together |
| `VirtualMemories.VirtualMemory.Write` | src/vcml/debugging/target.cpp:577-598 | the page loop stores each byte at the translation of its own address, skips unmapped pages and counts the bytes that had memory |
| `VirtualMemories.ReachableIsCount` | src/vcml/debugging/target.cpp:554-598 | the counted bytes are those whose address is translated to existing memory |
| `VirtualMemories.VirtualMemory.Read` | src/vcml/debugging/target.cpp:554-575 | the page loop counts the bytes that have memory; a byte of the buffer is the fill byte if some unmapped chunk of the range has more bytes than stand before that byte in the buffer, otherwise the byte at its translated address where that has memory, otherwise what it was |
| `VirtualMemories.HiddenByte` | src/vcml/debugging/target.cpp:554-575 | an input whose first four bytes have memory and are read as fill bytes, because the page behind them is not mapped |
| `VirtualMemories.PresentIsRead` | src/vcml/debugging/target.cpp:554-575 | of a range that has memory throughout every byte is read |
| `VirtualMemories.StoredAt` | src/vcml/debugging/target.cpp:577-598 | where addresses have memory of their own it holds the byte written to the address |
| `VirtualMemories.StoredElsewhere` | src/vcml/debugging/target.cpp:577-598 | memory that no address of the range is translated to stays as it is |
| `VirtualMemories.WriteThenRead` | src/vcml/debugging/target.cpp:554-598 | what was written to mapped, injectively translated memory is read back, for every page size and translation |
| `Peers.SocketArray.FindPeer` | include/vcml/protocols/base.h:355-369 | one step back from the upper bound finds the last window that meets the interval, and none exactly if a scan of all windows finds none |
| `Peers.SocketArray.AddPeer` | include/vcml/protocols/base.h:371-383 | a window is accepted exactly if its start and the peer's are in range and it meets no other window; it never replaces one and windows stay disjoint |
| `Peers.WindowEndsAtLast` | include/vcml/protocols/base.h:347-353 | the saturating end bounds exactly the existing indices of the window |
| `Peers.WindowsAreDisjoint` | include/vcml/protocols/base.h:371-383 | no index belongs to two windows |
| `Peers.SocketArray.PeerIndex` | include/vcml/protocols/base.h:248-255 | a new socket is bound to the peer of its window, if any; the peer's index is in range exactly if it is not beyond the sockets left behind the peer offset |
| `Peq.Queue.NotifyAfter` | include/vcml/core/peq.h:63-72 | a payload that is not yet scheduled for the current time plus the delay is put behind all entries that are not later, and the event is pending no later than the first entry; otherwise nothing happens |
| `Peq.Queue.Cancel` | include/vcml/core/peq.h:75-81 | exactly the entries of the payload go; unless there were no entries at all, the event is pending afterwards exactly if some are left, and no later than the first of them |
| `Peq.CancelledMeans` | include/vcml/core/peq.h:75-81 | a cancellation keeps the order of what is left, delivers nothing, and what was scheduled is left or counted as cancelled |
| `Peq.Queue.TryTake` | include/vcml/core/peq.h:84-94 | the consumer gets the payload of the first entry of the current time, which is taken out and counted as delivered, and the event follows the first entry left; or there is none, and nothing changes |
| `Peq.Queue.WakeUp` | include/vcml/core/peq.h:86-94 | after the event the same, and the notification for the first entry is scheduled before |
| `Peq.InvKept` | include/vcml/core/peq.h:40-94 | unless the event is notified while the consumer is busy and the first entry is later, each step keeps the schedule sorted, unique and not overdue, with an event in time for its first entry or a busy consumer that will find it |
| `Peq.NothingIsLost` | include/vcml/core/peq.h:40-94 | over any run without such a notification no entry is overdue, no payload is scheduled twice for a time, and every accepted entry was delivered, was cancelled or is scheduled, each once |
| `Peq.LosesIffLaterEntry` | include/vcml/core/peq.h:84-94 | where a notification meets a busy consumer, some way to go on without another harmful notification leaves an entry overdue exactly if the first entry is scheduled for later than now |
| `Peq.FirstHarmLoses` | include/vcml/core/peq.h:40-94 | over any run up to its first harmful notification nothing is overdue; from that notification on, some run without another one leaves an entry overdue; after a harmless one none does |
| `Peq.DeliversOnTime` | include/vcml/core/peq.h:84-94 | a delivery takes a scheduled entry whose time is now |
| `Peq.BusyConsumerMissesEntry` | include/vcml/core/peq.h:84-94 | a run in which the event is notified while the consumer is busy, so that time passes the next entry |
| `Loops.TuplesAreCrossProduct` | src/vcml/properties/broker_file.cpp:154-170 | the combinations are exactly the tuples of the cross product, each once, as many as the product of the loop lengths |
| `Loops.FirstLoopVariesSlowest` | src/vcml/properties/broker_file.cpp:154-170 | the position of a combination: one value of the first loop with all combinations of the others comes before the next value |
| `Loops.ResolvedEnumerates` | src/vcml/properties/broker_file.cpp:154-170 | a line inside of loops is made once for each combination, in order, with all iterators bound to it; names that neither the loops nor the line define are untouched |
| `Loops.LineDefines` | src/vcml/properties/broker_file.cpp:154-170 | each time the line is made it gives its key its value, and the last time counts, for the times that follow and in the end |
| `Loops.BrokerFile.Resolve` | src/vcml/properties/broker_file.cpp:154-170 | the recursion makes the line as its meaning says and puts the loop stack back |
| `Loops.BrokerFile.ParseLoop` | src/vcml/properties/broker_file.cpp:113-143 | a line opens one loop over the distinct decimals below its expanded bound, innermost and with the iterator that stands before the colon, or counts an error if the colon or the closing keyword is missing or they come in the wrong order |
| `Loops.LoopLineParts` | src/vcml/properties/broker_file.cpp:117-135 | of a line of the documented form the bounds are read whole, the iterator without the character before the colon |
| `Loops.IteratorNeedsBlank` | src/vcml/properties/broker_file.cpp:130-131 | the iterator has its whole name exactly if there is a blank before the colon |
| `Loops.TrimMeans` | src/vcml/properties/broker_file.cpp:131-134 | trimming takes exactly the blanks at both ends away |
| `Loops.DecimalMeans` | src/vcml/properties/broker_file.cpp:137-138 | loop values are decimal numbers without leading zeros |
| `Loops.BrokerFile.ParseDone` | src/vcml/properties/broker_file.cpp:145-152 | a closing line pops the innermost loop, or counts an error |

## Left out

- Register callbacks, write-back of callback results, tracing, logging, latency, `sync()` before an access and the quantum
  check: registers are free of callbacks and these calls change no register.
- 64-bit wrap-around of an address plus a length, of progress and of simulation time, and the 32-bit byte counters: these
  are natural numbers here.
- Natural-only registers under debug access: checks are bypassed but the scan still ends at the first hit, so full
  coverage is claimed for permitted accesses without natural-only registers in the window only.
- RegisterBanks.RegisterBank.Insert: the register must not be in the map yet, because the only caller is the constructor
  of the register (`src/vcml/core/register.cpp:68`) and a register under two offsets would be one storage at two places.
- Setting the access rules of all registers of a bank at once, looking up registers by name, and `reset` of a whole bank.
- Byte swapping, hexadecimal digits, removal from vectors, trimming of blanks and number formatting come from a library whose source is not
  part of this model: they are specified here (a character that is no hexadecimal digit counts as zero).
- Asynchronous workers and timers are values with step functions, so that other threads and callbacks can come in between any two
  steps: update in place and aliasing are not modelled there.
- The mutexes of the asynchronous worker: a locked section is one step. The only unlocked access that could fall into a
  section, adding progress while the simulation thread takes it, commutes with it.
- Thread affinity, and termination of threads that spin or wait: the results about workers and suspenders are about safety.
  In particular a suspend before the first task of a worker spins until that task has begun.
- The time stamp of a worker between tasks: the final wait of a task does not update the stored position, so the stamp of
  the next task may begin below the last one.
- Timers: the mutex around the heap, resets from threads outside of the simulation, and the order of events with equal
  timeouts; the heap is a set from which an earliest event is taken, and the loop that fires a batch is a sequence of
  steps so that callbacks can come in between.
- `notify_suspend` and `notify_resume` call into modules; they are the phases in which the simulation thread stands still.
- Suspend requests while the simulation does not run are errors of the caller and change nothing.
- The packet handlers, the command dispatch and the connections of the remote serial server; a lost connection is the end
  of the input.
- Breakpoint and watchpoint objects are values in the lists of the target: handles held by clients, hit counters, symbols
  and notification of subscribers are not modelled; removal by object is removal by its address.
- DebugTarget.SubscribersAreBacked: states one direction only, because refused removals leave resources without
  subscribers.
- A model that refuses a breakpoint or a watchpoint leaves the id that it was passed alone.
- Creation and binding of sockets; `PeerIndex` is the choice of the peer socket.
- The other lines of configuration files and the lookup of names in other brokers; what a text expands to and what number
  it is are functions that the caller gives.
- DMI, exclusive monitors, memories, virtio, displays, audio, CAN, scripting and the command line: input and output, user
  interfaces, or members with little to prove.
