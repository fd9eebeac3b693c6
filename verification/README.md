# Verification of ipc-interface

This project models the parts of ipc-interface (a C++ library that carries messages between processes over POSIX
shared memory) where many threads and processes meet, and proves what they promise over whole runs:

- **The broadcast ring** of `StreamShmCreator`: lock-free senders, up to eight readers with a head each, messages cut
  into slots and put together again, the stall timer, the semaphores, uint32 counters. `Ring` is a transition system
  with one shared-memory access per step and any number of calls; `RingInv` and `RingSteps` hold its invariant,
  `RingTheorems` the results over runs, `RingSends` how send calls end, `RingDebt` what timeouts cost a reader, `RingWrap` the refinement from uint32
  counters to counters that never wrap, `RingStamps` how old a stamp can get, `RingRuns` runs into the states the ring
  should not get into, `WrapTheorems` what the uint32 ring promises and for which slot counts, `Stall` the bound on the
  stall timer, `Slicing` the cutting and reassembling. `StreamShm` is the sequential code as
  classes over arrays; a ghost state of the transition system goes along with every call (`SendRuns`, `RecvRuns`,
  `ReaderSlots`).
- **The event queue**: `LockFreeQueue` between many posting threads and the one thread in `EpollControl::wait`, with
  eventfd and edge-triggered epoll (`EventQueue`, `EventQueueTheorems`, `EventQueuePosts`; the code run by one thread
  is `LockFreeQueue`).
- **The daemon's registry** of channels against the reader bits of each ring (`PidNameInfos`, `Registry`,
  `RegistryTheorems`; the handlers as code are `ShmManager`).
- **The process supervisor** with its two message queues, timers, records and pidfds (`Supervisor`, `SupervisorInv`,
  `SupervisorSteps`, `SupervisorTheorems`, `SupervisorCrashes`; the code is `ProcessManager`).
- **The copy-on-write maps** (`CasMap`) and the **control messages** (`ControlMessages`).

`dafny verify dfyconfig.toml` checks everything.

## How the models are to be read

- Atomic accesses are sequentially consistent steps. A slot's contents are published by the store to `m_seq`, a node's
  by the store to `m_committed`. A weak exchange may fail for no reason (`spurious`).
- In the ring's transition system a sender may leave its unstamped slot in any state of bytes, count and id between two
  steps (`Scribble`), and die there. The reader's copy is one step; nobody writes the slot meanwhile
  (`RingTheorems.WriterOwnsItsSlot`). Both bits of `m_flag` stay set there; the classes check them.
- `Unbounded` counters are the reference for the ring; `Wrap32` counters are the source's. Two comparisons can go wrong
  in uint32: the exchange on the tail, and the stamp test. `RingWrap.ExchangeAgrees` and `RingWrap.StampTestAgrees` say
  exactly when each is right in one state, and `RingWrap.Unmistaken` is the two conditions for one step. Over whole runs
  the exchange is right if no send call sees 2^32 slots being reserved between its load of the tail and its exchange
  (`WrapTheorems.Prompt`). The stamp test is then right in every run, whoever dies and whatever times out, exactly if
  the ring has at most 65536 slots (`WrapTheorems.CountersSufficeExactlyTo65536`); the source's default is 1024. In any
  larger ring a run leads to a reader that accepts a slot nobody published (`WrapTheorems.LargeRingIsMistaken`).
- That bound is about a ring with a fixed reader set and nothing but `send` posting its semaphores. A token that
  `free_reader_slot` leaves behind, a stop post or an interrupted wait lets a recv through that no message paid for,
  and each such recv may time out once more.
- A recv that times out uses up the token of a later message (`RingDebt.TimeoutsAreDebt`), so a reader leaves a dead
  sender's slots only as long as it gets tokens. If senders go on dying, a ring can come to a dead end, full and
  without a token, that nothing leads out of (`RingDebt.DeadEndIsForever`, `RingRuns.DeathsLockTheRing`).
- A send is refused on the heads it loaded, not on the ring as it is: if the reader has passed the tail that the call
  loaded, the uint32 backlog is huge and the call is refused whatever room there is. `RingSends.DecisionIsExact` says
  exactly when, `RingRuns.RefusedOnEmptyRing` is a run where the ring is empty. The event queue has the same weakness
  (`EventQueuePosts.RefusedOnlyIfFull`, `EventQueuePosts.RefusedOnEmptyQueue`).
- The reader set of a ring is fixed while sends are in flight: a sender does not look at the mask again at the exchange
  (`src/mul_process/StreamShmCreator.h:391`). Joining and leaving a quiet ring is modelled in `ReaderSlots`; one thread
  at a time hands out reader slots. One thread reads for each reader index.
- A message is sendable if it is not empty and `6 + size + slot_size - 1` fits a uint32; `Slicing.NeedU32Exact` shows
  that the slot count is right exactly then.
- The stall timer of a run skips slots of dead senders only: that is the guard of `Ring.TimeoutStep`. The source has no
  such guard (`Ring.SkipStep`), and with a live sender that is merely slow it loses that sender's message;
  `Stall.SkippingIsHarmlessExactlyForTheDead` and `Stall.SkippedIsLost` say exactly when and which.
- The clock of `recv_impl` advances from one reading to the next. The source reads a steady clock in microseconds, which
  may show the same value twice; that only adds passes that change nothing.
- The event queue has one consumer, which is how `EpollControl::wait` uses it. Its size_t counters are unbounded, the
  fullness test is the source's modulo 2^64.
- Registry results are about dynamic names, that is, names outside `kProcesses`. Whether shared memory could be created
  is a parameter; created memory is fresh.
- In the supervisor, posting to a queue succeeds, fork and pidfd_open have nondeterministic results, no process id is
  given to two slots, and an ONLINE names the slot its process belongs to. Slots stand for channel names, the process
  table is a parameter.
- The bitmask `m_reader_flag` is a set of indices, the two bits of `m_flag` are booleans.
- `tail_last` starts as 2^32 - 1 in `recv_impl`. If the first scan ends exactly there, the code compares the clock with
  the start time 0 instead of starting the timer; the model does the same.

Where code and documentation differ the model follows the code: the repository's README says a ring has one receiver,
the code has eight readers; its crash section clears a fixed channel's flags, the code only drops the reader.

## Model

| member | source | states |
|---|---|---|
| Slicing.LoopRunsNeedTimes | src/mul_process/StreamShmCreator.h:408-437 | the write loop goes on exactly while fewer than ceil((6+len)/slot_size) slices are written, and then everything is copied |
| Slicing.NeedU32Exact | src/mul_process/StreamShmCreator.h:379-385 | the uint32 slot count is the true one if and only if its sum does not wrap |
| Slicing.SliceIsChunk | src/mul_process/StreamShmCreator.h:410-430 | slice k is the k-th slot-sized piece of the stream header + payload |
| Slicing.SlicesMakeStream | src/mul_process/StreamShmCreator.h:405-438 | the slices put end to end are the stream: nothing lost, repeated or reordered |
| Slicing.FirstSlotLayout | src/mul_process/StreamShmCreator.h:413-424 | the first slot begins with the payload length (2 + size) and the message id, byte by byte little-endian, and then the first payload bytes |
| Slicing.HeaderDecodes | src/mul_process/StreamShmCreator.h:488-501 | the first slot of any sendable message yields its length, id and first bytes and is not refused as a start |
| Slicing.AbsorbNext | src/mul_process/StreamShmCreator.h:513-519 | a following slice extends the front of the message already in the buffer |
| Slicing.TakesInOrderOnly | src/mul_process/StreamShmCreator.h:482-519 | whatever a slot holds, it is taken exactly if it starts a message or is the next slice of the one being read; otherwise nothing read so far is kept, and no copy leaves the buffer |
| Slicing.ReassembleUndoesSlice | src/mul_process/StreamShmCreator.h:482-523 | reading the slots of a message gives back data, id and length, whatever the slots held before |
| Bytes.U16RoundTrip | src/standard/api.cpp:14-30 | a little-endian u16 decodes to the value that was encoded, whatever follows it |
| Bytes.U32RoundTrip | src/standard/api.cpp:38-60 | a little-endian u32 decodes to the value that was encoded, whatever follows it |
| RingSteps.LoadTailKeeps | src/mul_process/StreamShmCreator.h:391-395 | loading mask and tail keeps the ring invariant |
| RingSteps.LoadHeadKeeps | src/mul_process/StreamShmCreator.h:346-357 | every single head load of slowest_head keeps the invariant: the largest backlog found bounds the heads seen so far if the tail is still current |
| RingSteps.DecideKeeps | src/mul_process/StreamShmCreator.h:396-399 | the capacity test on possibly stale heads keeps the invariant |
| RingSteps.TryCasKeeps | src/mul_process/StreamShmCreator.h:400-403 | the exchange on the tail, successful or not, keeps the invariant: reservations tile the sequence numbers (what it does to the call is RingSends.ExchangeIsExact) |
| RingSteps.ScribbleKeeps | src/mul_process/StreamShmCreator.h:410-431 | whatever a half-written, unstamped slot holds, the invariant stays: no published slot and no other sender is harmed |
| RingSteps.FillSlotKeeps | src/mul_process/StreamShmCreator.h:410-431 | completing bytes, count and id of a slot keeps the invariant |
| RingSteps.StampSlotKeeps | src/mul_process/StreamShmCreator.h:432-437 | stamping a slot keeps the invariant: it publishes a slice that the slot really holds |
| RingSteps.PostSemKeeps | src/mul_process/StreamShmCreator.h:443-456 | posting the readers' semaphores keeps the invariant with its token count |
| RingSteps.WaitKeeps | src/mul_process/StreamShmCreator.h:465-467 | passing sem_wait keeps the invariant with its token count |
| RingSteps.LookOk | src/mul_process/StreamShmCreator.h:474-478 | a reader that finds head == tail is between two messages, so ending the recv drops nothing |
| RingSteps.CopySlotKeeps | src/mul_process/StreamShmCreator.h:482-520 | copying a slot keeps the invariant: the buffer holds the front of the message that owns the slot |
| RingSteps.PublishHeadKeeps | src/mul_process/StreamShmCreator.h:520-523 | publishing the head, and handing over a finished message, keeps the invariant |
| RingSteps.TimeoutKeeps | src/mul_process/StreamShmCreator.h:540-551 | leaving a dead sender's slots keeps the invariant: nothing published is skipped, the partial message is dropped |
| RingSteps.KillKeeps | src/mul_process/StreamShmCreator.h:405-438 | the invariant survives the death of a sender between any two accesses, a half-written slot included |
| RingSteps.NextKeeps | src/mul_process/StreamShmCreator.h:361-571 | every step of every sender and reader keeps the invariant |
| RingSteps.WritersApart | src/mul_process/StreamShmCreator.h:411 | two senders never write the same physical slot |
| RingSteps.CopyMeetsItsSlice | src/mul_process/StreamShmCreator.h:480-510 | a reader that sees the right stamp finds the slice it expects, carrying its message's bytes |
| RingTheorems.LogIsReservationOrder | src/mul_process/StreamShmCreator.h:400-402 | the log of reservations is the order of the successful tail exchanges of the run |
| RingTheorems.DeliversReservationPrefix | src/mul_process/StreamShmCreator.h:361-571 | in every run without deaths and timeouts each reader's deliveries are a prefix of the reservation order, each message with its exact bytes and id, once |
| RingTheorems.DeliversPublishedPrefix | src/mul_process/StreamShmCreator.h:480-568 | with dying senders and timeouts the deliveries are a prefix of the fully published messages: no partial message surfaces |
| RingTheorems.NothingPublishedIsLost | src/mul_process/StreamShmCreator.h:525-557 | what a live sender, or a dead one that had finished, sent is delivered once the head is past it |
| RingTheorems.ResyncUnreachable | src/mul_process/StreamShmCreator.h:489-512 | the bad-start and slice-mismatch branches are never taken, in any run |
| RingTheorems.SeesExactlyPublished | src/mul_process/StreamShmCreator.h:479-480 | in every state a reader's look at m_seq succeeds exactly if the slot at its head has been published |
| RingTheorems.CapacityHolds | src/mul_process/StreamShmCreator.h:389-403 | tail - head <= slot_count - 1 for every active reader in every state |
| RingTheorems.WriterOwnsItsSlot | src/mul_process/StreamShmCreator.h:411-433 | the slot being written is no other sender's, holds nothing a reader still needs and is not being copied |
| RingTheorems.TokensAreConserved | src/mul_process/StreamShmCreator.h:439-456 | for each reader, tokens plus completed waits are the posts made, in every state |
| RingTheorems.KthRecvReturnsKthMessage | src/mul_process/StreamShmCreator.h:465-478 | in runs without deaths and timeouts the k-th recv to pass sem_wait never meets an empty ring and returns the k-th reserved message |
| RingTheorems.BlockedMeansDrained | src/mul_process/StreamShmCreator.h:443-467 | in runs without deaths and timeouts, when all sends returned and a reader is blocked, it has delivered every reservation |
| RingSends.DecisionIsExact | src/mul_process/StreamShmCreator.h:389-399 | an attempt looks at every active reader after loading the tail, and is refused if and only if one of the heads it loaded leaves no room in uint32 terms |
| RingSends.NoRoomMeans | src/mul_process/StreamShmCreator.h:396-398 | that is, if the true backlog of that head is too large or the head had passed the loaded tail |
| RingSends.RefusedOnlyForRoom | src/mul_process/StreamShmCreator.h:385-403 | over every run a call is refused only for needing more than 255 slots, for want of readers, or by such a decision; never by a failed exchange |
| RingSends.HowCallsEnd | src/mul_process/StreamShmCreator.h:361-441 | a call is refused, returns, dies or starts again at no other access than these |
| RingSends.ExchangeIsExact | src/mul_process/StreamShmCreator.h:400-403 | an exchange reserves the message's slots at the loaded tail, or, if it fails, sends the call back to loading the tail |
| RingSends.FailureMeansProgress | src/mul_process/StreamShmCreator.h:400-403 | an exchange that fails for a reason has another call's reservation behind it, made since the tail was loaded |
| RingSends.CallsNeverWait | src/mul_process/StreamShmCreator.h:361-456 | a send that has not ended can always take its next step, whatever other calls and readers do |
| RingSends.ReadersWaitOnlyForTokens | src/mul_process/StreamShmCreator.h:465-557 | a reader can always take its next step, except in sem_wait without a token |
| RingRuns.RefusedOnEmptyRing | src/mul_process/StreamShmCreator.h:351-398 | a run in which a one-slot message is refused although the ring is empty |
| RingDebt.RecvNeverMeetsEmptyRing | src/mul_process/StreamShmCreator.h:465-478 | in every run, with deaths and timeouts, a recv that passed sem_wait has a slot in front of it |
| RingDebt.TimeoutsAreDebt | src/mul_process/StreamShmCreator.h:465-557 | in every run a reader between two recvs has delivered as many messages as it took tokens, less its timeouts; each timeout leaves it one complete message further behind for good |
| RingDebt.TimeoutsAreBounded | src/mul_process/StreamShmCreator.h:545-556 | a reader times out at most slot_count - 1 times in the whole life of a ring, never more often than it has slots in front of it |
| RingDebt.BlockedLacks | src/mul_process/StreamShmCreator.h:443-467 | when no send is under way, a blocked reader lacks exactly one complete message for each of its timeouts and one for each sender that died between stamping and posting it |
| RingDebt.DeadEndIsForever | src/mul_process/StreamShmCreator.h:389-399 | a full ring whose reader waits without a token, with no send under way, stays so whatever is done: no send is admitted, nothing more delivered |
| RingDebt.StuckExactlyWithoutToken | src/mul_process/StreamShmCreator.h:465-557 | at rest the head of a full ring's reader never moves again if and only if its semaphore holds no token |
| RingRuns.DeathsLockTheRing | src/mul_process/StreamShmCreator.h:361-571 | if every d-th sender dies right after its exchange, a ring of up to 65536 slots comes to that dead end with message d * (slot_count - 1), for every d |
| RingWrap.StepWraps | src/mul_process/StreamShmCreator.h:351-570 | a step whose uint32 comparisons are not mistaken is enabled exactly when the unbounded ring's is and lands on its image |
| RingWrap.StepStrays | src/mul_process/StreamShmCreator.h:351-570 | ... and exactly then: a step that mistakes a value differs from the image of the unbounded one |
| RingWrap.TameIsUnmistaken | src/mul_process/StreamShmCreator.h:394-400 | punctual senders and stamps less than one turn old are enough for no step to mistake a value |
| RingWrap.WrapIndex | src/mul_process/StreamShmCreator.h:411 | seq % slot_count is continuous across 2^32 for power-of-two counts |
| RingWrap.WrapSub | src/mul_process/StreamShmCreator.h:351 | wrapped backlogs equal true backlogs within one turn of the counter |
| RingWrap.StampTestAgrees | src/mul_process/StreamShmCreator.h:480 | the uint32 test m_seq == head + 1 accepts a slot for what it is if and only if its stamp is the right one or does not differ from it by whole turns of the counter |
| RingWrap.ZeroedSlotIsMistaken | src/mul_process/StreamShmCreator.h:480 | where it fails: at sequence number 2^32 - 1 the test accepts a slot that was never stamped; WrapTheorems.LargeRingIsMistaken is a run that gets there |
| RingWrap.ExchangeAgrees | src/mul_process/StreamShmCreator.h:400 | the uint32 exchange decides as the unbounded one if and only if the tail has not run a multiple of 2^32 ahead of the loaded one |
| RingWrap.RunWraps | src/mul_process/StreamShmCreator.h:361-571 | an unbounded run none of whose steps mistakes a uint32 value maps to a uint32 run |
| RingWrap.RunUnwraps | src/mul_process/StreamShmCreator.h:361-571 | a uint32 run whose actions never mistake a value (stated of the same actions with unbounded counters) is the image of an unbounded run |
| RingWrap.TwinExactlyIfUnmistaken | src/mul_process/StreamShmCreator.h:361-571 | ... and of no unbounded run otherwise |
| RingWrap.HealthyIsFresh | src/mul_process/StreamShmCreator.h:432 | in runs without deaths and timeouts every stamp stays less than one turn of the counter old |
| RingStamps.StampsLagByTimeouts | src/mul_process/StreamShmCreator.h:432-556 | in every run, behind a reader's head no sequence number is more laps ahead of the stamp in its slot than the reader timed out |
| RingStamps.StampsStayFresh | src/mul_process/StreamShmCreator.h:432-556 | in rings of less than 65536 slots every stamp stays less than one turn of the counter old, in every run |
| RingStamps.StampsAlwaysTell | src/mul_process/StreamShmCreator.h:480-538 | in rings of up to 65536 slots the uint32 stamp test is right at the reader's head and everything it scans, in every state of every run with deaths and timeouts |
| WrapTheorems.PromptIsNeverMistaken | src/mul_process/StreamShmCreator.h:361-571 | a uint32 run whose senders are in time mistakes no value if the ring has at most 65536 slots, or if nobody dies and nothing times out |
| WrapTheorems.WrappedRingDelivers | src/mul_process/StreamShmCreator.h:361-571 | without deaths and timeouts and with senders in time the uint32 ring, of any size, delivers a prefix of its reservation order |
| WrapTheorems.WrappedRunKeepsItsPromises | src/mul_process/StreamShmCreator.h:361-571 | every uint32 run of a ring of up to 65536 slots with senders in time, with deaths and timeouts: deliveries are a prefix of the published messages, the uint32 backlog is at most slot_count - 1, tokens plus waits are the posts, each timeout costs a message |
| WrapTheorems.WrappedWriterOwnsItsSlot | src/mul_process/StreamShmCreator.h:411-433 | in every such run the slot being written is no other sender's, in no reader's uint32 backlog and not being copied |
| WrapTheorems.LargeRingIsMistaken | src/mul_process/StreamShmCreator.h:480 | in every ring size above 65536 a uint32 run with senders in time ends with a reader about to copy a slot that nobody published |
| WrapTheorems.CountersSufficeExactlyTo65536 | src/mul_process/StreamShmCreator.h:361-571 | no run of a ring of this many slots with senders in time ever mistakes a uint32 value, whoever dies, if and only if there are at most 65536 slots |
| Stall.ResultMoves | src/mul_process/StreamShmCreator.h:525-539 | until a stamp is seen the scan result only grows, at most 255 past the head; afterwards it only shrinks |
| Stall.ResultsRiseThenFall | src/mul_process/StreamShmCreator.h:525-544 | over any sequence of scans the results rise to one peak and fall from there |
| Stall.RestartsBounded | src/mul_process/StreamShmCreator.h:540-544 | while the head stays put the timer is restarted at most 509 times |
| Stall.ScanIsResult | src/mul_process/StreamShmCreator.h:527-538 | the code's scan of stamps is the first published slot of the abstract scan |
| Stall.ScansOfAStuckReader | src/mul_process/StreamShmCreator.h:525-557 | the scans a stuck reader makes in any run satisfy these bounds |
| Stall.TimeoutLeaves | src/mul_process/StreamShmCreator.h:545-556 | when the timer fires the reader leaves, by 1 to 255 slots, to the scan's result, whoever owns them: the first published slot, the tail it had loaded, or 255 slots on |
| Stall.SkippedIsLost | src/mul_process/StreamShmCreator.h:545-556 | no slot left behind was published, and none of their messages was or is handed over |
| Stall.SkippingIsHarmlessExactlyForTheDead | src/mul_process/StreamShmCreator.h:545-556 | giving up keeps the ring's invariant if and only if every slot left behind belongs to a dead sender |
| ReaderSlots.JoinKeeps | src/mul_process/StreamShmCreator.cpp:297-319 | a reader whose head starts at the tail of a quiet ring keeps the invariant, whatever tokens it finds, and changes nothing for the others |
| ReaderSlots.JoinerInStep | src/mul_process/StreamShmCreator.cpp:313-326 | on a live ring its waits count its messages if and only if the semaphore holds no token when it joins |
| ReaderSlots.LeftTokensMeetAnEmptyRing | src/mul_process/StreamShmCreator.cpp:321-331 | a token left by the slot's earlier holder lets its first recv through to an empty ring, and it returns nothing |
| ReaderSlots.LeaveKeeps | src/mul_process/StreamShmCreator.cpp:321-336 | a reader that leaves a quiet ring changes nothing for the others |
| RecvRuns.SentIsReady | src/mul_process/StreamShmCreator.h:361-441 | a message just sent is what a drained reader receives next |
| RecvRuns.LiveIsReadable | src/mul_process/StreamShmCreator.h:480 | on a quiet ring without deaths the uint32 stamp test is right for everything a reader has ahead, however far the counters have run |
| RecvRuns.StallPassStays | src/mul_process/StreamShmCreator.h:525-560 | a pass over an unpublished slot that does not give up changes nothing in the ring |
| RecvRuns.CopyRun | src/mul_process/StreamShmCreator.h:480-524 | within one recv the slots copied belong to one message, and the last one completes it |
| RecvRuns.TimeoutRun | src/mul_process/StreamShmCreator.h:545-568 | on a quiet ring only abandoned slots time out and the recv then returns nothing |
| StreamShm.RingHeader.constructor | src/mul_process/StreamShmCreator.cpp:88-96 | a created ring is empty, enabled both ways and without readers |
| StreamShm.RingHeader.SlowestHead | src/mul_process/StreamShmCreator.h:341-359 | the result is a head with the largest backlog of the masked readers, or the tail if none lags |
| StreamShm.TrueBacklog | src/mul_process/StreamShmCreator.h:351 | on the ring's memory the uint32 difference is the true backlog, below slot_count |
| StreamShm.RingHeader.IsEmpty | src/mul_process/StreamShmCreator.cpp:240-248 | true exactly if every active reader stands at the tail |
| StreamShm.RingHeader.IsFull | src/mul_process/StreamShmCreator.cpp:250-260 | true exactly if there is no reader, no usable slot, or one with a backlog of at least slot_count - 1 |
| StreamShm.EmptyMeansDrained | src/mul_process/StreamShmCreator.cpp:240-248 | is_empty is equivalent to no active reader having a true backlog |
| StreamShm.FullMeansNoRoom | src/mul_process/StreamShmCreator.cpp:250-260 | is_full is equivalent to refusing a one-slot message |
| StreamShm.SlowestDecides | src/mul_process/StreamShmCreator.h:396-399 | the uint32 capacity test passes exactly if every true backlog leaves room |
| StreamShm.RingHeader.AllocReaderSlot | src/mul_process/StreamShmCreator.cpp:297-319 | the lowest clear bit is set and its head starts at the tail, 0xFF when all eight are taken; a quiet ring stays one |
| StreamShm.RingHeader.FreeReaderSlot | src/mul_process/StreamShmCreator.cpp:321-336 | exactly this bit is cleared and one token posted; on a quiet ring the invariant goes over |
| StreamShm.StreamShmCreator.SetReaderIndex | src/mul_process/StreamShmCreator.cpp:338-345 | the local head starts where the published head of the index is |
| StreamShm.StreamShmCreator.Reserve | src/mul_process/StreamShmCreator.h:389-403 | a quiet ring grants the range exactly if there is a reader and room for it, however often the exchange fails first |
| StreamShm.StreamShmCreator.WriteSlot | src/mul_process/StreamShmCreator.h:411-434 | one slot gets bytes, count, id and stamp; its tail bytes and all other slots stay |
| StreamShm.StreamShmCreator.WriteSlots | src/mul_process/StreamShmCreator.h:405-438 | the loop writes and stamps exactly the reserved slots |
| StreamShm.StreamShmCreator.PostReaderSems | src/mul_process/StreamShmCreator.h:443-456 | one token for every reader of the mask and for nobody else |
| StreamShm.StreamShmCreator.Send | src/mul_process/StreamShmCreator.h:361-441 | on a quiet ring send succeeds exactly if sending is enabled, the message is not empty, needs at most 255 slots, and backlog + need <= slot_count - 1; then one more message is fully published, otherwise nothing changed |
| StreamShm.StreamShmCreator.TakeSlot | src/mul_process/StreamShmCreator.h:482-519 | the code's branches on a published slot are the reassembly step |
| StreamShm.StreamShmCreator.ScanUncommitted | src/mul_process/StreamShmCreator.h:527-538 | the inner loop ends at the first slot with its own stamp, at most 255 ahead, in uint32 arithmetic |
| StreamShm.StreamShmCreator.StallPass | src/mul_process/StreamShmCreator.h:540-557 | the timer restarts, at this reading of the clock, exactly if the scan result moved; the reader gives up exactly if it did not and more than the timeout has passed, and then stands at the scan result |
| StreamShm.StreamShmCreator.Recv | src/mul_process/StreamShmCreator.h:458-571 | on a quiet ring recv always returns, with the message at the reader's head exactly if it is fully published, and publishes the new head |
| StreamShm.SendThenRecv | src/mul_process/StreamShmCreator.h:361-571 | on any quiet ring without deaths, for any drained reader and any admitted message, recv returns byte for byte what send took, and the reader is drained again |
| StreamShm.Relay | src/mul_process/StreamShmCreator.h:361-571 | on a channel with one reader any sequence of messages comes through whole and in order |
| StreamShm.WholeStreamArrives | src/mul_process/StreamShmCreator.h:361-571 | the same from the creation of the channel on |
| EventQueue.NextKeeps | src/model/LockFreeQueue.inl:69-117 | every step of producers and worker keeps the queue invariant: a slot's flag is that of the oldest position it stands for |
| EventQueue.FreeSlotIsInWindow | src/model/LockFreeQueue.inl:18-26 | a producer passes waitSlotWritable only when the worker is done with the slot's previous item |
| EventQueue.FullMeans | src/model/LockFreeQueue.inl:77-79 | the masked test is the true fullness test, except that a head past the loaded tail reads as full |
| EventQueueTheorems.LogIsReservationOrder | src/model/LockFreeQueue.inl:80-83 | the log of positions is the order of the successful tail exchanges |
| EventQueueTheorems.RunsReservationPrefix | src/model/LockFreeQueue.inl:69-117 | the tasks run are the accepted ones, once each, in reservation order |
| EventQueueTheorems.OccupancyBounded | src/model/LockFreeQueue.inl:72-83 | never more than capacity tasks, although heads may be stale |
| EventQueueTheorems.WriterOwnsItsSlot | src/model/LockFreeQueue.inl:86-116 | a slot is never written while the consumer is emptying it or another producer writes it |
| EventQueueTheorems.RefusalIsExact | src/model/LockFreeQueue.inl:76-79 | a push is refused exactly if the queue is full or the consumer overtook the loaded tail |
| EventQueueTheorems.WaitsForThePreviousLap | src/model/LockFreeQueue.inl:18-26 | a producer waits for its slot exactly while the worker is moving out the item one lap before |
| EventQueueTheorems.PopsExactlyCommitted | src/model/LockFreeQueue.inl:99-113 | the worker goes on from the oldest position exactly if its producer has committed it |
| EventQueueTheorems.NoLostWakeup | src/model/EpollControl.cpp:34-44 | a queued task whose producer has woken finds the worker draining, or an edge with a non-zero counter waiting for it |
| EventQueueTheorems.AsleepMeansDone | src/model/EpollControl.cpp:98-118 | when every post returned and the worker sleeps with no event due, every accepted task has run |
| EventQueuePosts.RefusedOnlyIfFull | src/model/LockFreeQueue.inl:69-83 | over every run a post is refused only when the queue is full at that moment, or the worker has passed the tail the post had loaded; never by a failed exchange |
| EventQueuePosts.HowPostsEnd | src/model/LockFreeQueue.inl:69-91 | a post is refused, reloads the tail, reserves and returns at no other access than these |
| EventQueuePosts.FailureMeansProgress | src/model/LockFreeQueue.inl:80-83 | an exchange that fails for a reason reloads the current tail, and another post took a position in between |
| EventQueuePosts.WhoWaits | src/model/LockFreeQueue.inl:18-26 | a post waits for nothing but its slot, the worker for nothing but an edge |
| EventQueuePosts.SleepsExactlyIfDrained | src/model/LockFreeQueue.inl:99-104 | the worker goes back to sleep exactly when every task accepted so far has run |
| EventQueuePosts.EachWakeCountsOnce | src/model/EpollControl.cpp:98-112 | every wake brings the worker back from epoll, and makes it drain the queue, at most once |
| EventQueuePosts.RefusedOnEmptyQueue | src/model/LockFreeQueue.inl:72-79 | a run in which a post is refused although the queue is empty |
| LockFreeQueue.RoundUpToPowerOf2 | src/model/LockFreeQueue.inl:9-16 | the result is the smallest power of two not below n |
| LockFreeQueue.LockFreeQueue.constructor | src/model/LockFreeQueue.inl:28-34 | a new queue is empty, with the smallest power of two that is not below the capacity asked for |
| LockFreeQueue.LockFreeQueue.Push | src/model/LockFreeQueue.inl:42-91 | appends the item exactly if there are fewer than capacity items |
| LockFreeQueue.LockFreeQueue.Pop | src/model/LockFreeQueue.inl:93-117 | takes the first item exactly if there is one |
| LockFreeQueue.LockFreeQueue.IsFull | src/model/LockFreeQueue.inl:119-125 | true exactly if capacity items are queued |
| LockFreeQueue.LockFreeQueue.IsEmpty | src/model/LockFreeQueue.inl:127-133 | true exactly if nothing is queued |
| LockFreeQueue.PushWindow | src/model/LockFreeQueue.inl:86-90 | writing slot tail & mask appends to the contents and keeps the flags right |
| LockFreeQueue.PopWindow | src/model/LockFreeQueue.inl:105-115 | clearing slot head & mask removes the first item and keeps the flags right |
| PidNameInfos.AddKeeps | src/mul_process/PidNameInfo.cpp:36-42 | adding keeps the two lists aligned and free of duplicates; everyone else keeps their index |
| PidNameInfos.AddIgnores | src/mul_process/PidNameInfo.cpp:36-42 | nobody is listed twice, and no id from 4 on is listed |
| PidNameInfos.RemoveKeeps | src/mul_process/PidNameInfo.cpp:49-66 | removing takes a process off both lists with its own index and no other |
| PidNameInfos.PidNameInfo.AddReceiver | src/mul_process/PidNameInfo.cpp:36-42 | the receiver and its index are appended unless it is listed or its id is invalid |
| PidNameInfos.PidNameInfo.AddAllocateRole | src/mul_process/PidNameInfo.cpp:68-74 | the role decides which list grows |
| PidNameInfos.PidNameInfo.Remove | src/mul_process/PidNameInfo.cpp:49-66 | the in-place erasures are the removal whose properties RemoveKeeps states |
| PidNameInfos.PidNameInfo.ReaderIndexOf | src/mul_process/PidNameInfo.cpp:76-84 | the index stored for the process, 0xFF if it is no receiver |
| RegistryTheorems.SlotLeft | src/mul_process/StreamShmCreator.cpp:304-311 | with registry and bits in agreement the four processes never run out of reader slots |
| RegistryTheorems.AllocateKeeps | src/mul_process/ShmManager.cpp:375-423 | ALLOCATE keeps the agreement, touches its own channel only, and answers a receiver with the one bit set for it: the lowest free slot, its head at the tail, all other heads, tail and size unchanged; it fails only if the memory could not be created |
| RegistryTheorems.NewReaderHoldsNobodyUp | src/mul_process/StreamShmCreator.cpp:297-319 | with a new reader a send is admitted exactly if the message fits the ring and no earlier reader holds it up |
| RegistryTheorems.AllocateAgain | src/mul_process/ShmManager.cpp:394-417 | repeating a request changes nothing and gives the same index |
| RegistryTheorems.AllocateInhabits | src/mul_process/ShmManager.cpp:383-412 | a channel without members arises exactly from a first receiver whose shared memory could not be created |
| RegistryTheorems.ReleaseKeeps | src/mul_process/ShmManager.cpp:425-466 | RELEASE removes the member and exactly its bit; a forced or last one takes the channel down and tells the members left |
| RegistryTheorems.ReleaseByMembers | src/mul_process/ShmManager.cpp:425-466 | in terms of the members: the channel goes exactly if forced or nobody else is attached; then the requester and all others are told, otherwise the requester alone, and the others keep lists and indices |
| RegistryTheorems.CrashEach | src/mul_process/ShmManager.cpp:704-750 | erasing while walking reaches every channel once and mixes up none |
| RegistryTheorems.CrashKeeps | src/mul_process/ShmManager.cpp:704-750 | after a crash no dynamic channel lists the process, exactly its bits are cleared, emptied channels are gone, fixed ones stay, all else is untouched |
| RegistryTheorems.CrashByMembers | src/mul_process/ShmManager.cpp:704-750 | in terms of the members: a dynamic channel goes exactly if only the dead process was attached; all others keep their lists and indices |
| RegistryTheorems.CrashFreesSenders | src/mul_process/StreamShmCreator.h:342-359 | afterwards a send is held up by the surviving readers only |
| RegistryTheorems.RegistryAgrees | src/mul_process/ShmManager.cpp:375-466 | in every reachable state aligned duplicate-free lists, distinct indices below 8 that are exactly the set bits, and, if every creation succeeded, registration in both maps exactly while there is a member |
| ShmManager.ShmManager.FindPidNameInfo | src/mul_process/ShmManager.cpp:759-766 | the first entry of the name |
| ShmManager.ShmManager.HandleAllocate | src/mul_process/ShmManager.cpp:375-423 | the handler in place does the registry step whose properties AllocateKeeps states, and gives its reply |
| ShmManager.ShmManager.HandleRelease | src/mul_process/ShmManager.cpp:425-466 | the handler in place does the registry step of ReleaseKeeps and tells the same slots |
| ShmManager.ShmManager.HandleProcessCrash | src/mul_process/ShmManager.cpp:704-750 | the loop ends although it erases, and does the registry step of CrashKeeps |
| SupervisorSteps.NextKeeps | src/mul_process/ProcessManager.cpp:46-316 | every step of both message threads, timers, children and outside processes keeps the supervisor invariant |
| SupervisorInv.BornKeeps | src/mul_process/ProcessManager.cpp:72-108 | createProcess turns the token it was called for into a record or a timer, never both, never neither |
| SupervisorInv.ForgetKeeps | src/mul_process/ProcessManager.cpp:246-255 | the erasing loop removes the slot's records and watches and nobody else's |
| SupervisorInv.OnlineKeeps | src/mul_process/ProcessManager.cpp:234-288 | a report keeps at most one watch per slot and leaves every boot slot alone |
| SupervisorTheorems.SupervisionToken | src/mul_process/ProcessManager.cpp:46-108 | from its first launch request on a boot slot has exactly one of queued create request, pending retry and record, in every state of every run |
| SupervisorTheorems.NeverForgotten | src/daemon/Daemon.cpp:11-64 | if it is a record, its child lives or exactly one message about its end is on the way |
| SupervisorTheorems.OneChildPerBootSlot | src/mul_process/ProcessManager.cpp:72-83 | a boot slot never has two living children |
| SupervisorTheorems.ForkPolicy | src/mul_process/ProcessManager.cpp:72-127 | every fork is of the table's non-empty executable, with the slot's flag DONE at that moment, for a boot slot or a restart slot with an earlier accepted report, and never beside a living child of a boot slot |
| SupervisorTheorems.WatchesAreRecords | src/mul_process/ProcessManager.cpp:207-288 | the watched pidfds are exactly those of the records, all different, at most one per slot |
| SupervisorTheorems.OutsideExitIsReported | src/mul_process/ProcessManager.cpp:218-232 | an event on a watched pidfd always finds its record, ends its watch and sends the notice for its process |
| SupervisorTheorems.CrashIsRelaunched | src/mul_process/ProcessManager.cpp:298-316 | handling a crash leaves no record of the process, and one with an executable has a new child or exactly one more retry timer |
| SupervisorCrashes.ReportIsAccepted | src/mul_process/ProcessManager.cpp:234-288 | an accepted report leaves exactly one record of the slot, watched, with the reported pid and the table's executable if the slot is relaunched; in terms of the table, with the cases that are ignored |
| SupervisorCrashes.RecordsCarryTheTable | src/mul_process/ProcessManager.cpp:79-81 | in every state every record has the table's executable if its slot is a boot or restart slot, and none otherwise |
| SupervisorCrashes.NoRecordForgotten | src/daemon/Daemon.cpp:11-64 | every record, of whatever slot: its pidfd is watched and no message about its end is under way, or its child lives, or exactly one such message is on its way |
| SupervisorCrashes.NewsFindsItsRecord | src/mul_process/ProcessManager.cpp:298-308 | whoever lives as a child or is reported dead has a record: no notice of an end is ever dropped |
| SupervisorCrashes.LaunchIsTried | src/mul_process/ProcessManager.cpp:72-127 | a create request launches a boot slot with an executable and nothing else, a timer what it was set for: a child if the slot's flag is set and fork succeeds, otherwise one more timer |
| SupervisorCrashes.CrashRelaunchesByTheTable | src/mul_process/ProcessManager.cpp:298-316 | a handled crash always finds its record, takes that one only, and launches the slot exactly if the table has it as a boot or restart slot with an executable |
| ProcessManager.ProcessManager.CreateProcess | src/mul_process/ProcessManager.cpp:72-108 | record, retry timer or nothing, as the supervisor's createProcess says |
| ProcessManager.ProcessManager.BootProcess | src/mul_process/ProcessManager.cpp:46-60 | only boot slots with an executable are created |
| ProcessManager.ProcessManager.UnwatchPidfd | src/mul_process/ProcessManager.cpp:207-216 | the watch goes and the record's descriptor is reset |
| ProcessManager.ProcessManager.OnPidfd | src/mul_process/ProcessManager.cpp:218-232 | the record of the descriptor is unwatched and its crash reported |
| ProcessManager.ProcessManager.OnChildExit | src/daemon/Daemon.cpp:49-64 | an exit is reported exactly if the process has a record, with the slot of that record |
| ProcessManager.ProcessManager.HandleProcessOnline | src/mul_process/ProcessManager.cpp:234-288 | the erasing loop and the new watch are the supervisor's handling of a report, whose effect ReportIsAccepted states |
| ProcessManager.ProcessManager.HandleProcessCrash | src/mul_process/ProcessManager.cpp:298-316 | the record goes and its executable is created again |
| CasMap.RefinesAtomicMap | src/mul_process/ShmManager.cpp:75-106 | in every interleaving with spurious failures the calls behave as atomic operations in an order that respects real time, and the current snapshot is what they made of the empty map: no update is lost |
| CasMap.NextKeeps | src/mul_process/ShmManager.cpp:113-144 | every load and exchange keeps that |
| CasMap.SnapshotsAreFrozen | src/mul_process/ShmManager.cpp:70-73 | a snapshot once published never changes |
| CasMap.OneWinner | src/mul_process/ShmManager.cpp:75-87 | of the adds of one name exactly one wins until the name is removed |
| CasMap.LoserHasAWinner | src/mul_process/ShmManager.cpp:81-82 | an add that lost had a winner before it, and nobody removed the name in between |
| CasMap.OneRemover | src/mul_process/ShmManager.cpp:89-106 | between two winning removes of a name it was added |
| CasMap.PresentExactlyWhileHeld | src/mul_process/ShmManager.cpp:75-106 | a name is in the map if and only if a winning add of it has no winning remove after it, and then with the value of that add |
| CasMap.WinsExactly | src/mul_process/ShmManager.cpp:75-106 | an add wins exactly if the name is not held, a remove exactly if it is, with the held value |
| CasMap.RemoveReturnsWhatWasAdded | src/mul_process/ShmManager.cpp:89-106 | a remove returns the value the last winning add put in |
| ControlMessages.BuildAllocate | src/mul_process/ShmManager.cpp:615-649 | the writes through the moving pointer stay inside the 512-byte buffer exactly if the name has at most 499 bytes, and then give the request format |
| ControlMessages.BuildRelease | src/mul_process/ShmManager.cpp:672-695 | the writes through the moving pointer stay inside the 512-byte buffer exactly if the name has at most 507 bytes, and then give the release format |
| ControlMessages.AllocateLayout | src/mul_process/ShmManager.cpp:615-649 | the request and its answer byte by byte, little-endian |
| ControlMessages.ReleaseLayout | src/mul_process/ShmManager.cpp:672-695 | the release byte by byte |
| ControlMessages.ParseAllocateShm | src/mul_process/ShmManager.cpp:768-797 | no byte sequence is read past its end, and the checks and fields are those of the format |
| ControlMessages.ParseReleaseShm | src/mul_process/ShmManager.cpp:799-821 | no byte sequence is read past its end, and the checks and fields are those of the format |
| ControlMessages.AllocateRoundTrip | src/mul_process/ShmManager.cpp:616-649 | a request comes back field for field if and only if its name has at most 255 bytes and slot and role are valid |
| ControlMessages.ReplyRoundTrip | src/mul_process/ShmManager.cpp:414 | the daemon's answer to a receiver gives every field and the reader index |
| ControlMessages.AllocateIgnoresTail | src/mul_process/ShmManager.cpp:786-787 | bytes after the name matter only as a receiver's index |
| ControlMessages.ParsedAllocateWasEncoded | src/mul_process/ShmManager.cpp:768-797 | whatever parses as a request is, up to the name's end, the encoding of what was parsed, with valid slot and role and the receiver's index if there is one |
| ControlMessages.ReleaseRoundTrip | src/mul_process/ShmManager.cpp:672-695 | a release comes back field for field if and only if its name has at most 255 bytes and the slot is valid |
| ControlMessages.ParsedReleaseWasEncoded | src/mul_process/ShmManager.cpp:799-821 | whatever parses as a release is the encoding of what was parsed |

## Left out

- Weak memory orders: the atomics are sequentially consistent steps.
- Readers that join or leave while a send is in flight: the source does not look at the mask again at the exchange, so no property is claimed there.
- `wakeup_recv` and the stop posts of `delete_shm`: a stop token makes one recv return empty, which the token results exclude.
- StreamShm.RingHeader.AllocReaderSlot: is run by one thread, because two allocators at once may store the head of the same slot after one of them has won it.
- `releaseShm`'s wait for running sends: the count is per process and raised after the flag check, so no exclusion follows from it.
- StreamShm.StreamShmCreator.Send: is stated for messages whose size sum fits a uint32; for a longer one the source reserves fewer slots than it writes.
- ControlMessages.BuildAllocate: says nothing of the memory after a write that leaves the buffer.
- ControlMessages.BuildRelease: says nothing of it either.
- LockFreeQueue.LockFreeQueue.constructor: takes capacities up to 2^63, for the reason that follows.
- LockFreeQueue.RoundUpToPowerOf2: is stated for n up to 2^63, because beyond that the source's doubling wraps to zero and never ends.
- LockFreeQueue.LockFreeQueue.Push: models the copying and the moving overload as one and `tail & mask` as a remainder, and run by one thread the wait for a writable slot never waits.
- `LockFreeQueue::size` and `clear`: size reads 0 when full, clear is not safe beside other threads.
- Several consumers of one queue: the boolean flag can be read from the lap before, so nothing is claimed.
- Wrap-around of the queue's size_t counters: 2^64 posts.
- StreamShm.StreamShmCreator.Recv: is stated for a quiet ring, where only dead senders leave slots unpublished, and for slots whose uint32 stamps tell them from published ones, which has to be asked only of rings that readers joined or left or with more than 65536 slots; interleaved recv is in the transition system. Its locals are one value, its loop is split into one method for each branch.
- Requests for fixed channel names, and the copies of the registry inside the business processes.
- RegistryTheorems.AllocateKeeps: models opening shared memory as succeeding or not at the request, and a later retry as one step.
- Names of channels in the supervisor: slots stand for them, since they come from the process table.
- At most one record per slot for restart slots: a retry timer and a report can coexist, so only boot slots and watches are claimed.
- The sync-flag and ONLINE messages, big-endian and 64-bit codecs: only easy members.
- `createReceiveWork`, `ReceiveWork::stop`, `ThreadBase::start`, logging, demos and the UDP comparison.
