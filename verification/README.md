# GUSI core: buffers, wakeups, synchronisation

GUSI puts a POSIX interface on top of a cooperative thread manager whose I/O completions arrive at
interrupt level. This project models the parts where that combination is delicate and proves what they
promise, over every run.

| file | content |
|---|---|
| `Rings.dfy` | one ring buffer as a value: the stated invariant, its strengthening, the byte stream in it |
| `Chains.dfy` | the chain of replacement buffers, its stream, and the memory blocks it owns |
| `Streams.dfy` | runs of a producer, a consumer, buffer switches and purges, with bytes and blocks recorded |
| `Peeking.dfy` | reading ahead |
| `RingBuffer.dfy` | the buffer objects themselves, linked and updated in place, proved to compute the above |
| `Pump.dfy` | the asynchronous output pump of TCP, files and PPC against completion interrupts |
| `InputPump.dfy` | the input pump of the same three, against the reader |
| `Wakeup.dfy` | sleeping and waking threads step by step, and the thread counters |
| `ProcessSleep.dfy` | sleeping and waking the process |
| `Contexts.dfy` | contexts and the process as objects, tied to the two machines above |
| `Sync.dfy` | mutexes and condition variables as queues of contexts |
| `ContextQueue.dfy` | the linked queue of contexts |
| `Allocator.dfy` | the block allocator for queue elements |
| `Decimal.dfy` | fast decimal conversion |
| `FullPath.dfy` | path names built backwards in a growing scratch area |
| `Descriptors.dfy` | the reference-counted descriptor table |

## How to read it

Pointers into a buffer are offsets from `fBuffer`; a memory block is a number, and the heap maps live
blocks to their bytes. `RingBuffer.dfy` gives every chain operation as a method on linked objects whose
postcondition is the chain function of the same name; the statements about bytes and blocks are lemmas
about those functions, and runs (`Streams.Exec`) are sequences of two-phase calls.

Protocols (`Pump`, `InputPump`, `Wakeup`, `ProcessSleep`, `Sync`) are state machines. In all but the last a
routine is cut wherever an interrupt can arrive; an interrupt runs in one step. In `Sync` an event is everything a
cooperative thread does between two yields.

Assumptions: buffers hold at least one byte (two for the pumps, four for reading files; `Pump.RequestProgress`
and `InputPump.RequestNeverEmpty` show that this is exact); one production and one consumption are
outstanding at a time, each within what was granted or shown; threads switch only in `Yield`; mutexes are not locked recursively; contexts are not nil; `NewPtr`
succeeds except in `FullPath.dfy`; `WakeUpProcess` is remembered until the next `WaitNextEvent`;
`SetThreadReadyGivenTaskRef` affects stopped threads only.

## Where the code does not do what one would expect

- A send on a socket looks at `fWriteShutdown` on entry; while it waits for room, it stops only if there still
  is none (original_nw/src/GUSIMTTcp.nw:904-923). If another thread calls `shutdown` meanwhile and the buffer
  drains, the connection is closed, and the rest of the send is accepted and never sent. `Pump.StuckRun` gives
  the run, `Pump.LateExactly` says exactly when it can happen.
- `GUSIMFRead` looks at `fReadShutdown` only when there is too little room, so a read can start after the
  shutdown of a file, against the comment at original_nw/src/GUSIMacFile.nw:1171. `InputPump.ReadAtRelease` and
  `InputPump.FileReadsExactly` say exactly when.
- `ObsoleteBuffer` overwrites the successor's `fOldBuffer` (src/GUSIBuffer.cpp:174). Blocks on that list are
  never disposed. `Streams.NoLeak` proves that nothing is lost while every `ValidBuffer` length is positive,
  `Streams.LeakRun` is a run from the constructor on that loses a block, `Streams.ZeroLengthCommit` says exactly
  when a list that can get lost comes into being, and `Streams.LeakExactly` which runs lose one.
- A file's input buffer of fewer than four bytes is read into when it is full, with requests of length zero
  (`InputPump.RequestNeverEmpty`).
- `Peek` compares with `fConsume` and not with the end of the data (src/GUSIBuffer.cpp:466).
  `Peeking.PeekExactly` says exactly when its result is right for one ring, `Peeking.PeekChainExactly` for a chain.
- `Produce` on a chained buffer tests the top's `fFree` while the bytes go to the last buffer; with the last
  buffer full a round does nothing (`Chains.ProduceRoundStalls`). `Chains.ProduceEndsExactly` says exactly when
  the loop ends by itself, and `RingBuffer.Produce` is proved for all those cases; in the others it goes on until
  a completion interrupt has emptied the top buffer.
- A second `pthread_cond_signal` before the first waiter ran wakes nobody (`Sync.SignalWakesAnother`,
  `Sync.TwoSignalsOneWaiter`).
- Disposing an allocator block unlists every block in front of it, because the predecessor pointer is never
  advanced (`Allocators.DisposalUnlists`).

## Model

| member | source | states |
|---|---|---|
| Rings.WellFormedIsStated | src/GUSIBuffer.cpp:124-142 | the working invariant is the asserted one plus: a skipped tail exists only while the data wraps and ends before it |
| Rings.EmptyHasNoTail | src/GUSIBuffer.cpp:208-215 | an empty ring has no skipped tail, so resetting it gives up nothing |
| Rings.ReserveKeepsStream | src/GUSIBuffer.cpp:208-239 | opening a production keeps the invariant, the stream and what a consumer was shown; it grants something whenever there is room and demand |
| Rings.ReserveGrants | src/GUSIBuffer.cpp:208-239 | what is granted: all of the demand or all the room in one piece; the tail is given up if and only if the demand does not fit there and more than half of what is free lies at the base |
| Rings.RegionsDisjoint | src/GUSIBuffer.cpp:192-308 | no byte still to be consumed lies in the producer's region |
| Rings.WriteKeepsPending | src/GUSIBuffer.cpp:319-321 | whatever the producer writes into its region leaves the stream alone |
| Rings.CommitAppends | src/GUSIBuffer.cpp:271-278 | closing a production appends exactly the written bytes and leaves a shown region in place |
| Rings.ReleaseDrops | src/GUSIBuffer.cpp:288-300 | freeing removes exactly the oldest bytes, across the wrap and the skipped tail, and leaves a production in place |
| Rings.RunIsFront | src/GUSIBuffer.cpp:249-257 | the shown region holds the oldest bytes and is empty only if the ring is |
| Rings.ChunkFills | src/GUSIBuffer.cpp:310-328 | after one chunk all is copied, or the ring is full, or the next chunk takes all there is |
| Rings.FilledBounds | src/GUSIBuffer.cpp:310-328 | at least half of the free space and at most all of it is used |
| Chains.ObsoleteOwned | src/GUSIBuffer.cpp:163-179 | obsoleting keeps every block except those the successor had obsoleted itself |
| Chains.ProduceGoesLast | src/GUSIBuffer.cpp:192-206 | with no production open, a production is opened in the last buffer of the chain |
| Chains.ProduceKeepsStream | src/GUSIBuffer.cpp:192-239 | opening a production in a chain keeps stream, blocks and the chain invariant |
| Chains.ProduceRoundStalls | src/GUSIBuffer.cpp:310-328 | a round of Produce on a chain accepts nothing exactly if the last buffer is full, and then changes nothing |
| Chains.ProduceEndsExactly | src/GUSIBuffer.cpp:310-328 | with nothing consumed meanwhile, the loop of Produce ends if and only if there is no replacement buffer, or the top buffer is full, or the bytes fit in what the last buffer has room for |
| Chains.RoundIsFilling | src/GUSIBuffer.cpp:317-324 | a round of Produce on a chain fills the last buffer and nothing else, and leaves no production open |
| Chains.ValidClosedForm | src/GUSIBuffer.cpp:262-286 | closing a production changes the owning buffer only, except for adopting the successor after an empty commit |
| Chains.AdoptionAtEnd | src/GUSIBuffer.cpp:262-286 | a production is always open in the last or last but one buffer |
| Chains.WriteKeepsStream | src/GUSIBuffer.cpp:319-321 | writing into the granted region disturbs no buffer of the chain |
| Chains.ValidAppends | src/GUSIBuffer.cpp:262-286 | closing a production appends the bytes at the end of the whole chain's stream |
| Chains.ValidOwned | src/GUSIBuffer.cpp:262-286 | no block is gained, and lost ones are those named by LostByValid |
| Chains.ValidKeepsSound | src/GUSIBuffer.cpp:262-286 | the chain invariant survives and a shown region stays where it was |
| Chains.ConsumeShowsFront | src/GUSIBuffer.cpp:241-260 | the shown region is the front of the chain's stream, empty only if the stream or the demand is; it is all that was asked for, or all the top buffer has, or reaches the end of the buffer or its skipped tail |
| Chains.EmptyTopEmptyChain | src/GUSIBuffer.cpp:330-346 | an empty top buffer means an empty chain, so Consume may stop there |
| Chains.FreeDrops | src/GUSIBuffer.cpp:288-308 | freeing removes exactly the oldest bytes of the chain's stream |
| Chains.FreeOwned | src/GUSIBuffer.cpp:288-308 | the only blocks freeing can lose are those on an adopted successor's list |
| Chains.FreeKeepsSound | src/GUSIBuffer.cpp:288-308 | the chain invariant and an open production survive |
| Chains.SwitchKeepsStream | src/GUSIBuffer.cpp:409-436 | switching the buffer leaves the stream unchanged |
| Chains.SwitchResizes | src/GUSIBuffer.cpp:409-436 | afterwards the last buffer has the requested size, in place of the old one if that was empty and unused and behind it otherwise; the others keep their rings |
| Chains.SwitchOwned | src/GUSIBuffer.cpp:409-436 | every block is kept, newly allocated or disposed |
| Chains.SwitchFrees | src/GUSIBuffer.cpp:409-436 | disposed blocks were owned, are no longer owned, and are disposed once |
| Chains.SwitchKeepsSound | src/GUSIBuffer.cpp:409-436 | switching keeps the invariant even while a production is open |
| Chains.PurgeKeepsSound | src/GUSIBuffer.cpp:437-445 | purging touches neither stream nor invariant and disposes exactly the top's list |
| Chains.ProducedAppends | src/GUSIBuffer.cpp:317-324 | one round of Produce appends its bytes to the stream |
| Chains.ConsumedDrops | src/GUSIBuffer.cpp:337-346 | one round of Consume yields the oldest bytes and makes progress while there is data |
| Streams.StepInv | src/GUSIBuffer.cpp:163-308 | every two-phase call, switch or purge keeps stream, shown region and block ledger right |
| Streams.StepExactly | src/GUSIBuffer.cpp:192-308 | what each call accepts, shows, delivers, adds and purges, whenever its caller may make it |
| Streams.ChainIsFifo | src/GUSIBuffer.cpp:192-367 | over every run: accepted bytes are the delivered ones followed by the pending stream, whose length is Valid() |
| Streams.DisposalsSafe | src/GUSIBuffer.cpp:409-445 | no block is disposed twice, when not live, or while a buffer uses it |
| Streams.DestroyLeavesLost | src/GUSIBuffer.cpp:181-190 | after any run, destroying the top buffer leaves exactly the lost blocks allocated |
| Streams.NoLeak | src/GUSIBuffer.cpp:181-190 | if every ValidBuffer length is positive, nothing stays allocated |
| Streams.LeakExactly | src/GUSIBuffer.cpp:163-190 | over every run: something stays allocated if and only if some FreeBuffer emptied the top buffer while its successor had a list of its own |
| Streams.ZeroLengthCommit | src/GUSIBuffer.cpp:262-286 | a list that may get lost appears exactly on an empty commit in an empty buffer that is neither first nor last |
| Streams.LeakRun | src/GUSIBuffer.cpp:163-179 | with an empty commit NoLeak is false: a run of eight calls from a new buffer on, after which a block stays allocated for good |
| RingBuffers.RingBuffer.constructor | src/GUSIBuffer.cpp:144-161 | a new buffer is an empty ring in a block of its own, with an empty stream and ready for every other operation |
| RingBuffers.RingBuffer.ObsoleteBuffer | src/GUSIBuffer.cpp:163-179 | on linked objects: the top takes over its successor and keeps the old block for purging |
| RingBuffers.RingBuffer.ProduceBuffer | src/GUSIBuffer.cpp:192-239 | the loop and the delegation compute the chain operation |
| RingBuffers.RingBuffer.ConsumeBuffer | src/GUSIBuffer.cpp:241-260 | the method computes the chain operation, and so shows as much as Chains.ConsumeShowsFront says |
| RingBuffers.RingBuffer.ValidBuffer | src/GUSIBuffer.cpp:262-286 | the buffer that owns the pointer is found and the chain operation computed |
| RingBuffers.RingBuffer.FreeBuffer | src/GUSIBuffer.cpp:288-308 | the method computes the chain operation |
| RingBuffers.RingBuffer.Produce | src/GUSIBuffer.cpp:310-328 | on every chain on which the loop ends by itself: the accepted bytes are appended in order; in a chain all of them or, with a full top, none; on a single buffer exactly as many as there is room for, in at most two chunks, between half of the free space and all of it, the shortfall being the new skipped tail |
| RingBuffers.RingBuffer.Consume | src/GUSIBuffer.cpp:330-351 | across the chain: exactly the oldest min(len, Valid()) bytes, delivered only if there is a destination |
| RingBuffers.RingBuffer.Free | src/GUSIBuffer.cpp:353-359 | the free space of the last buffer |
| RingBuffers.RingBuffer.Valid | src/GUSIBuffer.cpp:361-367 | the length of the chain's stream |
| RingBuffers.RingBuffer.Peek | src/GUSIBuffer.cpp:369-382 | the loop yields Peeking.Peek and changes nothing |
| RingBuffers.RingBuffer.SwitchBuffer | src/GUSIBuffer.cpp:409-436 | on objects and heap: the chain operation, with only live blocks disposed and only live blocks owned afterwards |
| RingBuffers.RingBuffer.SwitchBetween | src/GUSIBuffer.cpp:409-436 | the stream and the chain invariant survive it, also with a production open |
| RingBuffers.RingBuffer.PurgeBuffers | src/GUSIBuffer.cpp:437-445 | exactly the listed blocks are disposed, each while live |
| RingBuffers.RingBuffer.Destroy | src/GUSIBuffer.cpp:181-190 | exactly the blocks the chain owns are disposed, each while live |
| RingBuffers.RoundTrip | src/GUSIBuffer.cpp:310-351 | an empty buffer accepts as much as its size, and what it accepts comes out again unchanged, consumed in two pieces of any size and with the buffer resized in between |
| Peeking.PeekAgreesWithConsume | src/GUSIBuffer.cpp:447-475 | up to the top buffer's data, Peek yields what Consume would |
| Peeking.PeekExactly | src/GUSIBuffer.cpp:447-475 | for every length on a single ring: Peek is right if and only if the length fits, or the ring is full or empty |
| Peeking.PeekChainExactly | src/GUSIBuffer.cpp:447-475 | for every length and chain, over all contents of memory: Peek is right if and only if every buffer with data that it has to leave is full |
| Pump.RequestProgress | src/GUSIMacFile.cpp:147-160 | with data waiting, each driver requests a non-empty part of the shown data, if and only if the buffer has two bytes or more |
| Pump.RequestBounds | src/GUSIMacFile.cpp:147-160 | how much a request takes: the shown data up to half the buffer, for sockets up to 65535 bytes; for files up to the end of a block, or whole blocks |
| Pump.StartInv | src/GUSIMTTcp.cpp:107-127 | a pump that starts on an empty buffer with its send routine armed meets the invariant |
| Pump.CompleteInv | src/GUSIMTTcp.cpp:85-105 | a completion interrupt at any point keeps the pump's invariant, deferred or not |
| Pump.CallbackInv | src/GUSIBuffer.h:207-217 | so does every step of a callback run by Release |
| Pump.StepInv | src/GUSIMTTcp.cpp:85-150 | so does every step of the writer, a send that goes on after a shutdown included, every shutdown, and every Lock and Release the writer puts around its calls (original_nw/src/GUSIMacFile.nw:1362-1365), however nested |
| Pump.CallsEnd | src/GUSIMTTcp.cpp:85-150 | every library call of the writer, undisturbed, comes to its end in at most eight steps, callbacks included |
| Pump.WholeCall | src/GUSIMTTcp.cpp:85-150 | so from between calls: a write ends with a production open, a commit and a Release end outside, with the send and the Locks as before |
| Pump.PumpNeverStalls | src/GUSIMTTcp.cpp:85-150 | whenever the buffer is unlocked: data waits exactly if one request is in flight, which leaves no callback armed; an idle pump is armed; sent followed by buffered is accepted; outside library calls only the writer's own Locks keep it locked |
| Pump.SentIsPrefix | src/GUSIPPC.cpp:97-118 | at every step at most one request is in flight and the device got a prefix of what was accepted |
| Pump.ShutdownDrains | src/GUSIMTTcp.cpp:107-127 | after a shutdown (the `shutdown` members lock and release the buffer for this), with the buffer unlocked between calls: a request is in flight, or nothing is armed, exactly one close was requested (none for a file; for PPC the change to Closing), and what is left is what was accepted after that; so all accepted bytes are sent if and only if none was accepted late |
| Pump.NoSendUnderWay | src/GUSIMTTcp.cpp:107-127 | if no send is under way at the shutdown, or on a file, nothing more is accepted and everything accepted is sent |
| Pump.StuckRun | src/GUSIMTTcp.cpp:107-127 | from every quiet state with a send under way on a socket: a run in which the connection is shut down and closed, and then a byte of that send is accepted and never sent |
| Pump.LateExactly | src/GUSIMTTcp.cpp:85-127 | bytes can be accepted and never sent if and only if the shutdown comes while a send is under way on a socket |
| InputPump.RequestNeverEmpty | src/GUSIMacFile.cpp:190-217 | no driver issues an empty read, over all states of its buffer, if and only if the buffer has two bytes, or four for a file |
| InputPump.DemandExactly | src/GUSIMacFile.cpp:202-210 | how much is asked for: the free space up to half the buffer, for sockets up to 65535 bytes; for files up to the end of a block, or whole blocks |
| InputPump.StartInv | src/GUSIMTTcp.cpp:182-202 | a pump whose receive routine was called on an empty buffer has one read in flight and meets the invariant |
| InputPump.CompleteInv | src/GUSIMTTcp.cpp:152-180 | a completed read at any point, with or without error, keeps the input pump's invariant, deferred or not |
| InputPump.CompletionStores | src/GUSIMacFile.cpp:168-188 | what a completion brings and stores: the bytes that were read, on a file also with an error, on a socket without one only |
| InputPump.CompletionGoesOn | src/GUSIMTTcp.cpp:152-180 | an undeferred completion asks for more if and only if there was no error, a file is not shut down, and there is room; an error shuts reading down |
| InputPump.DeferredGoesOn | src/GUSIBuffer.h:207-217 | the same for a deferred one, when the reader's Release gets to it |
| InputPump.CompletionStopsFile | src/GUSIMacFile.cpp:168-188 | on a file that is shut down a completed read starts no other |
| InputPump.FreeInv | src/GUSIBuffer.cpp:288-308 | the reader gets what it was shown, in order, although completions stored and requested more meanwhile |
| InputPump.CallbackInv | src/GUSIBuffer.h:207-217 | every step of a callback run by the reader's Release keeps the invariant |
| InputPump.StepInv | src/GUSIPPC.cpp:120-143 | so does every step of reader, device and notifier, and every Lock and Release the reader puts around its calls (original_nw/src/GUSIMacFile.nw:1268-1271) |
| InputPump.CallsEnd | src/GUSIMTTcp.cpp:152-202 | every library call of the reader, undisturbed, comes to its end in at most eight steps, callbacks included |
| InputPump.WholeCall | src/GUSIMTTcp.cpp:152-202 | so from between calls: a read ends with bytes to look at, the others end outside, with the Locks as before |
| InputPump.InputNeverStalls | src/GUSIMTTcp.cpp:182-202 | whenever the buffer is unlocked: a read is in flight if there is room for one or nothing to read, else the receive routine is armed; arrived is taken followed by buffered; outside library calls only the reader's own Locks keep it locked |
| InputPump.TakenIsPrefix | src/GUSIMacFile.cpp:169-217 | at every step at most one read is in flight and the reader got a prefix of what arrived |
| InputPump.ReadAtRelease | src/GUSIMacFile.cpp:190-217 | a Release starts a read on a file that is shut down if and only if it unlocks the buffer, the receive routine is armed, and a quarter of the buffer is free; with less than that it is disarmed for good |
| InputPump.FileReadsExactly | src/GUSIMacFile.cpp:168-217 | a file that is shut down with no read in flight can start one again, over all runs, if and only if the shutdown found the receive routine armed |
| Wakeup.StepInv | original_nw/src/GUSIContext.nw:984-1043 | every step of yielding, switching, ending and waking keeps the thread and counter invariant |
| Wakeup.UnwokenSleeps | original_nw/src/GUSIContext.nw:1103-1133 | over every run, a thread switched out in a blocking Yield and not woken is stopped, asleep and not schedulable |
| Wakeup.ReturnsOnlyWoken | original_nw/src/GUSIContext.nw:1103-1112 | over every run without a wakeup of it or a signal, a thread stays in its blocking Yield |
| Wakeup.WokenReturns | original_nw/src/GUSIContext.nw:1103-1112 | a woken or signalled thread that runs gets to the end of Yield with its flag clear |
| Wakeup.BlockRun | original_nw/src/GUSIContext.nw:1025-1043 | a blocking Yield, undisturbed, gives the processor up with the thread stopped and no longer counted as ready, or ready if it was woken before |
| Wakeup.ReturnRun | original_nw/src/GUSIContext.nw:984-1003 | a woken thread that is scheduled gets out of Yield, running, counted, its flag clear |
| Wakeup.PollRun | original_nw/src/GUSIContext.nw:1025-1043 | a Yield that does not block leaves the thread ready and counted |
| Wakeup.SpawnReady | original_nw/src/GUSIContext.nw:638-669 | a new thread is ready, unwoken, outside Yield, and counted twice over |
| Wakeup.FirstRun | original_nw/src/GUSIContext.nw:984-1003 | a new thread that is scheduled runs |
| Wakeup.WakeReaches | original_nw/src/GUSIContext.nw:766-777 | a wakeup sets the flag of every thread that has not ended and leaves a switched-out one ready; a second one does nothing |
| Wakeup.Ends | original_nw/src/GUSIContext.nw:1055-1070 | every thread but the first can end, running or switched out, and is counted no more |
| Wakeup.NoLostWakeup | original_nw/src/GUSIContext.nw:1006-1043 | whatever is interrupted where, a switched-out thread with fWakeup set is not stopped (one without it is, see Wakeup.UnwokenSleeps) |
| Wakeup.WakeupSticks | original_nw/src/GUSIContext.nw:1103-1112 | only the thread itself, leaving Yield, clears its flag |
| Wakeup.WokenUntilCleared | original_nw/src/GUSIContext.nw:766-777 | after a wakeup a thread is never left stopped until it clears the flag itself |
| Wakeup.CountersExact | original_nw/src/GUSIContext.nw:650-669 | both counters equal the numbers of threads they stand for at every switch and never go negative |
| Wakeup.SwitchedOut | original_nw/src/GUSIContext.nw:1025-1043 | the steps, uninterrupted, are SwitchOut |
| Wakeup.SwitchedIn | original_nw/src/GUSIContext.nw:984-1003 | the steps, uninterrupted, are SwitchIn |
| ProcessSleep.StepInv | src/GUSIContext.cpp:407-447 | every step of the two Yield routines and every wakeup keeps the invariant |
| ProcessSleep.BlocksToSleep | src/GUSIContext.cpp:407-447 | a blocking Yield that nothing interrupts sleeps in WaitNextEvent if and only if fDontSleep is clear, and skips sleep only once |
| ProcessSleep.PollsForEvents | src/GUSIContext.cpp:407-447 | the other modes never sleep; polling always looks for events, yielding after its time slice |
| ProcessSleep.ReturnsOnlyWoken | src/GUSIContext.cpp:549-577 | over every run without wakeup or signal the main thread stays in its blocking Yield |
| ProcessSleep.WokenReturns | src/GUSIContext.cpp:549-577 | woken in WaitNextEvent, it gets out of Yield with all flags clear |
| ProcessSleep.SignalReturns | src/GUSIContext.cpp:549-577 | a signal found on the way ends Yield, woken or not |
| ProcessSleep.WakesOnce | src/GUSIContext.cpp:164-201 | a first wakeup sets the flag and makes the process skip its next sleep, or calls WakeUpProcess if it is on its way to sleep; a further one does nothing |
| ProcessSleep.NeverSleepsThroughWakeup | src/GUSIContext.cpp:549-577 | the main thread never sleeps in WaitNextEvent with fWakeup set and no WakeUpProcess issued |
| ProcessSleep.NeverSleepsAgainstFlag | src/GUSIContext.cpp:407-447 | it sleeps only announced, and never with fDontSleep set and no WakeUpProcess issued |
| Contexts.Process.Wakeup | src/GUSIContext.cpp:180-201 | the object does what the process machine's wakeup does |
| Contexts.Context.constructor | original_nw/src/GUSIContext.nw:638-669 | a new context is a ready, unwoken thread and is counted twice over |
| Contexts.Context.Wakeup | src/GUSIContext.cpp:164-178 | the object does what the thread machine's wakeup does; a duplicate touches neither thread nor process |
| Contexts.Context.SwitchOut | src/GUSIContext.cpp:313-334 | the object runs the machine's steps to their end, counter included |
| Contexts.Context.SwitchIn | original_nw/src/GUSIContext.nw:984-1003 | the same for switching in; only a sleeper's return clears fDontSleep |
| Contexts.Context.Terminate | original_nw/src/GUSIContext.nw:1055-1070 | both counters lose the thread once; a joining context is woken unless the thread is detached, and is then left alone |
| Sync.StepInv | src/GUSIPThread.cpp:140-280 | every stretch between yields keeps queues, wake flags and the order of ownership consistent |
| Sync.LockExactly | src/GUSIPThread.cpp:140-151 | lock queues its caller at the end, which owns the mutex at once if and only if it was free |
| Sync.TryLockExactly | src/GUSIPThread.cpp:152-172 | trylock succeeds if and only if the mutex is free; a failure leaves the queue alone |
| Sync.UnlockExactly | src/GUSIPThread.cpp:173-187 | unlock by the owner takes it out of the queue and wakes the next, by anybody else it does nothing |
| Sync.YieldsReturn | src/GUSIPThread.cpp:152-187 | the Yields that end a failed trylock and an unlock touch neither queue |
| Sync.FrontGetsMutex | src/GUSIPThread.cpp:140-151 | a blocked locker's Yield returns if and only if it is woken or signalled; it owns the mutex then if and only if it has become the front, and a front is woken |
| Sync.CondReturnExactly | src/GUSIPThread.cpp:213-228 | a waiter returns from Yield if and only if it is woken or signalled; it leaves the condition's queue and joins the mutex's, owning it at once if and only if it is free |
| Sync.MutualExclusion | src/GUSIPThread.cpp:140-187 | over every run at most one context is past the lock, and it is the queue's front |
| Sync.ArrivalOrder | src/GUSIPThread.cpp:140-187 | ownership is granted in arrival order, never before the owner ahead released |
| Sync.FrontWillRun | src/GUSIPThread.cpp:173-187 | a front still blocked in Yield has fWakeup set |
| Sync.WaiterAlwaysQueued | src/GUSIPThread.cpp:213-228 | from then on until it wakes the waiter is on the queue |
| Sync.NextOwnerFindsWaiter | src/GUSIPThread.cpp:213-228 | pthread_cond_wait releases atomically: its caller is out of the mutex and on the condition's queue at once, and over every run whoever owns the mutex before it returns is another context and finds it queued |
| Sync.WaiterReturnsAsOwner | src/GUSIPThread.cpp:223-228 | over every run: a context once blocked on the condition is still inside the call or was granted the mutex since |
| Sync.BroadcastReachesAll | src/GUSIPThread.cpp:272-280 | broadcast sets the flags of the queued waiters and no others, and over every run from there it stays set until that waiter returns |
| Sync.WaiterStaysWoken | src/GUSIPThread.cpp:213-228 | over every run a woken waiter stays queued and woken until it returns |
| Sync.SignalWakesAnother | src/GUSIPThread.cpp:263-271 | signal wakes the first in the queue and nobody else, and so a further waiter if and only if that one is not woken yet |
| Sync.TwoSignalsOneWaiter | src/GUSIPThread.cpp:263-271 | two waiters and two signals of which one is lost |
| Lists.RemoveFirstAt | src/GUSIContextQueue.cpp:80-100 | exactly the first occurrence goes, the rest keeps its order |
| Lists.RemoveAbsent | src/GUSIContextQueue.cpp:80-100 | removing an absent context changes nothing |
| Lists.RemoveFirstCounts | src/GUSIContextQueue.cpp:80-100 | one occurrence fewer, nothing else |
| ContextQueues.ContextQueue.Empty | src/GUSIContextQueue.h:93-96 | the first pointer is nil exactly if nothing is queued |
| ContextQueues.ContextQueue.Front | src/GUSIContextQueue.h:98-101 | the oldest context, or nil |
| ContextQueues.ContextQueue.Back | src/GUSIContextQueue.h:103-106 | the newest context, or nil |
| ContextQueues.ContextQueue.PushFront | src/GUSIContextQueue.h:108-113 | the list stays acyclic with its true end, the context first |
| ContextQueues.ContextQueue.PushBack | src/GUSIContextQueue.cpp:102-112 | the same, the context last |
| ContextQueues.ContextQueue.PopFront | src/GUSIContextQueue.h:115-123 | the first context goes; both ends are nil when none is left |
| ContextQueues.ContextQueue.Remove | src/GUSIContextQueue.cpp:80-100 | the loop removes the first occurrence and repairs the end pointer |
| ContextQueues.ContextQueue.Wakeup | src/GUSIContextQueue.cpp:114-119 | every queued context is woken as by one Wakeup, however often it is queued, and no other |
| Allocators.Allocator.New | src/GUSIContextQueue.cpp:14-41 | the first free slot of the first block with one, or of a new block of 64 slots or twice the latest; the element was not live, over any sequence of calls, also not in a block the list has lost; every other slot is untouched; all headers stay right |
| Allocators.Allocator.FirstEmpty | src/GUSIContextQueue.cpp:35-37 | a positive free count keeps the scan inside the block |
| Allocators.Allocator.AddBlock | src/GUSIContextQueue.cpp:22-33 | the added block is all free and its header right |
| Allocators.Allocator.Delete | src/GUSIContextQueue.cpp:43-72 | only that slot is emptied; a block is disposed exactly if it holds nothing and the others have more than 32 free slots, and then no live element is in it |
| Allocators.Allocator.MoreThan32 | src/GUSIContextQueue.cpp:55-58 | the loop that stops early decides about the full sum |
| Allocators.DisposalUnlists | src/GUSIContextQueue.cpp:60-63 | all other blocks stay listed if and only if the disposed one is the first |
| Decimals.LeadingDigit | include/sfhdr.h:1157-1211 | the comparison tree is division and remainder |
| Decimals.PeelFour | include/sfhdr.h:1214-1224 | the four digits of a chunk are the last four of the numeral |
| Decimals.WriteHead | include/sfhdr.h:1225-1256 | the last one to four digits are written without leading zeros |
| Decimals.Convert | include/sfhdr.h:1212-1257 | the conversion writes the naive decimal numeral right before its end pointer and touches nothing else |
| Decimals.DecimalCanonical | include/sfhdr.h:1156-1257 | that numeral has no leading zeros and denotes the value |
| Decimals.CanonicalUnique | include/sfhdr.h:1156-1257 | it is the only such numeral |
| Paths.Scratch.CScratch | original_nw/src/GUSIFileSpec.nw:566-583 | an extension keeps the old area at the end and costs 64 bytes; failure changes nothing |
| Paths.Scratch.PrependPathComponent | original_nw/src/GUSIFileSpec.nw:1102-1114 | component and colon end up in front of the text, never below the area, with at most one extension and room left for the next colon; it fails if and only if an extension is needed and memory for it is missing |
| Paths.Scratch.FullPath | src/GUSIFileSpec.cpp:384-405 | the terminated path text, if and only if the way up reaches a root and the memory at hand is enough for a text of that length; nothing otherwise |
| Paths.TextIsJoined | src/GUSIFileSpec.cpp:384-405 | that text is the names from root to leaf joined by colons, empty ones below the volume left out, with a final colon exactly for a directory |
| Descriptors.InstallIsLeast | src/GUSIDescriptor.cpp:34-57 | the least free descriptor from the start on, or EMFILE and no change exactly if there is none |
| Descriptors.InstallRefuses | src/GUSIDescriptor.cpp:36-37 | EINVAL if and only if the start lies outside the table |
| Descriptors.RemoveExactly | src/GUSIDescriptor.cpp:59-71 | removing succeeds if and only if the slot is occupied, and empties it and no other |
| Descriptors.RemoveUndoesInstall | src/GUSIDescriptor.cpp:34-71 | round trip: what was installed can be removed again, and the table then holds what it held before |
| Descriptors.StepExactly | src/GUSIDescriptor.cpp:34-103 | a step does to its table what the call does to a table, and nothing to the others |
| Descriptors.DescriptorTable.InstallSocket | src/GUSIDescriptor.cpp:34-57 | the loops compute that installation on the array and count one reference |
| Descriptors.DescriptorTable.RemoveSocket | src/GUSIDescriptor.cpp:59-71 | succeeds if and only if the slot is occupied: it is emptied, one reference fewer, closed exactly at zero; EBADF and no change otherwise |
| Descriptors.DescriptorTable.Copy | src/GUSIDescriptor.cpp:94-103 | the copy shares the slots, and each socket is counted once per slot |
| Descriptors.StepCounted | src/GUSISocket.h:134-143 | installing, removing and copying keep every reference count equal to the number of slots |
| Descriptors.RefCountsExact | src/GUSIDescriptor.cpp:34-103 | so over every run and any number of tables |
| Descriptors.ClosedWithLastSlot | src/GUSISocket.h:139-143 | close() is called by a step exactly if it empties the socket's last slot |

## Left out

- The Gatherer and Scatterer forms of Produce, Consume and Peek: the body of `IterateIOVec` is not part of this model.
- The lock count and SwitchBuffer: the path without a size change returns without Release and the in-place path zeroes `fLocked` before Release (src/GUSIBuffer.cpp:415-435), so the count is not kept. SwitchBuffer is modelled for its effect on contents and blocks, and the pumps run on one ring that is never switched.
- Lock, Release and Defer as methods: the library's own pairs and those of its users appear as steps of the pumps' state machines, where the callback they run is a step as well.
- Byte memory as machine addresses: blocks are numbered and have bounds; the test whether a pointer lies in a buffer compares blocks. Copying a run of bytes (`BlockMoveData`, `memcpy`) is one assignment.
- Obsolete buffer objects: `fOldBuffer` is kept as the list of the blocks those objects hold.
- RingBuffers.RingBuffer.Produce: the runs in which its loop does not end by itself have no postcondition; Chains.ProduceEndsExactly says which they are.
- A TCPTerminate notification, which sets `fWriteShutdown` and the state at interrupt level; the shutdowns of the output machine are calls of a thread.
- Output errors, which free more than was shown in one call, and the commandTimeout of a TCP receive, which opens a production again without closing the last.
- The connect and listen phases of the sockets: the pumps start when the send or receive routine was called on an empty buffer.
- Process sleep with several threads: `fDontSleep` is cleared by any sleeper's SwitchIn; the claim is for one thread.
- Signals: a signal is an event that makes Yield return early; masks, handlers, SigWait and SigSuspend are not modelled.
- Sync models one mutex and one condition variable; other waits of a context appear as wakeups and yields at any time. Recursive locking, pthread_cond_timedwait and destruction are not modelled. The calls contain Yield and are therefore events of a state machine rather than methods.
- Liquidation of contexts and the user's switch and termination hooks; the saving of errno.
- Widths of machine integers: counts and values are unbounded, except for the allocator, whose block size is kept within a short. Decimals.Convert takes the value as the unsigned number the macro casts it to.
- FullPath on a cyclic directory graph: the way up is a finite sequence. RelativePath and EncodedPath are left out.
- GUSIDescriptorTable's destructor, dup2 and console setup.
- Toolbox calls, devices other than the pumps' drivers, name lookup, aliases and configuration.
