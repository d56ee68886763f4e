# Verified model of the ldp platform library

A Dafny model of the cores of the ECOA platform library: the concurrent services every
module relies on, and the protocols that join protection domains and platforms. Run
`dafny verify dfyconfig.toml`.

| files | component |
|---|---|
| `VdRepository`, `VdProtocol`, `VdTheorems`, `VdAccess`, `VdAlone` | Versioned Data in controlled mode: copy on publish, pins, unlocked copies |
| `ApexCondition`, `ApexTheorems`, `ApexWaits` | condition variable over an ARINC 653 counting semaphore (section 3.7.2.3 of ARINC 653 Part 1) |
| `EliFragment`, `EliSession`, `EliLink`, `EliStale`, `EliRestart`, `EliHeaders` | ECOA Logical Interface over UDP: fragments, channels, stale bytes, restarted counters, headers |
| `LocalUdp`, `LocalUdpDelivery`, `LocalUdpLimits` | UDP between protection domains of one platform |
| `Fifo`, `QueueState`, `QueueTheorems`, `QueueEffects`, `ModuleQueue` | the operation queue of a module, call by call |
| `QueueSteps`, `QueueRuns`, `QueueContents`, `QueueSweep`, `QueueCleaning`, `QueueShutdown`, `QueuePaths`, `QueueRaces`, `QueueAlone` | the same queue under any number of threads |
| `IntrusiveList`, `RequestTable`, `RequestSteps`, `RequestQueue` | pending requests, and requests and answers in the queue |
| `PoolHeap`, `PoolForest`, `PoolTable`, `PoolUpdates`, `PoolWorld`, `PoolOrder`, `PoolManager` | APEX memory pools |
| `StartupSteps`, `Startup`, `StartupEnds`, `StartupProcesses` | start-up rendezvous of the protection domains |
| `StreamFraming`, `Words`, `Common` | framing over TCP; shared definitions |

Code that changes objects in place is a class whose methods are proved against functions
on values; what the code promises is proved about those functions. Concurrent code is also
a system of steps: a section under a mutex is one step, an unlocked statement is a step of
its own, an unlocked memcpy of shared data moves one byte per step. Clocks, the network, the scheduler and
the sizes recv returns are free choices of the run. C pointers into fixed arrays are indices.

A push to a module queue is not one section: it tests its pool unlocked, searches it for a
free element under the pool mutex, fills the element unlocked, queues it under the ring mutex
and counts it under the manager mutex. Each of these is a step of `QueueSteps`, the search one
step per element, since a release marks its element FREE without that mutex; so are the two
halves of a release and every pop and push back of a cleaning. `QueueAlone` shows that a call
nobody disturbs computes the function its method in `ModuleQueue` is specified by. `VdAlone` and
`ApexWaits` do the same for Versioned Data accesses and for the condition variable. The runs of
`QueueRaces` are runs of a module: one thread pops, only while an activating operation is
counted, and cleans while it holds the lifecycle operation it has popped; the others push, and
lifecycle operations are activating.

## Where the code and its documentation differ

- The stamp of a read handle is documented as the counter of the version read. The code
  reads it after the mutex is released, so it can run ahead (`VdTheorems.HandleStampCanRunAhead`);
  `VdTheorems.HandleStampExactness` says exactly when it does not.
- The in-repository callers of the ELI fragmenter start every message from the same
  counter, which loses the guarantee under loss. `EliRestart.RestartedSafeIff` says exactly for
  which messages it survives. The loss theorem is about calls that thread the counter.
- A channel is taken without resetting its offset, so a continuation with counter 1 is accepted
  behind the bytes of an earlier user (`EliStale.StaleBytesAreDeliveredIff`). A sender reaches it
  when its counter wraps to 0 inside a message (`EliStale.WrappedSenderDeliversStale`).
- The counter test of `lib/eli/ldp_ELI_udp.c:105` is done in promoted `int`, so a
  continuation with counter 0 is never accepted, not even after 65535.
- `ldp_fifo_manager_clean` says it skips requests when no request table is given; the code
  does not test it, and shutdown and kill give none (`QueueRaces.ShutdownReachesNullTable`,
  `QueueShutdown.CleaningFollowsTableIff`).
- The cleaning of a module queue is meant to keep the allowed operations in order and to
  count them again. It holds the manager mutex, which a push does not need to reach the ring, so
  pushes of other threads land inside it: they overtake or displace elements it keeps
  (`QueueRaces.PushOvertakes`, `QueueRaces.PushDisplaces`), and one that is not counted yet when
  it starts leaves the count wrong (`QueueRaces.CleaningInsideAPush`). When it does what it is
  meant to is `QueueCleaning.CleaningIsTheFilterIff` and `QueueCleaning.CountIsExactAfterIff`.
- A push is refused although its pool has a free element while a release is between FREE and
  the count (`QueueRaces.PushRefusedThoughFree`, `QueueRuns.TryRefusedIff`), or when the element is
  freed behind its search (`QueueRaces.SearchMissesAFreeElement`, `QueueRuns.SearchFailsIff`).
- A push in front of an empty ring is left to the push at the back, after the ring has been
  unlocked and with its result ignored: it can land behind an element queued meanwhile, or be
  lost and counted all the same (`QueueRaces.FrontPushFallsBehind`, `QueueRaces.FrontPushIsLost`).
- The send loop of local UDP keeps the number of packets in 16 bits: it is endless or stops
  short outside 1 to 65535 tiles (`LocalUdpLimits.LoopEndsIff`, `LocalUdpLimits.SentWholeIff`).
  Its receiver gives a message up when one packet of a newer message of the module comes
  (`LocalUdpDelivery.ConsumedIff`). It counts packets, not tiles (`LocalUdpLimits.DuplicatesIff`), and takes a message
  whose packets come again for a new one (`LocalUdpLimits.ConsumedAgainIff`).
- The header test of `lib/ldp_network.c:98` compares the parameters, not the frame, with the
  buffer size (`StreamFraming.AcceptedOverrunsIff`).
- The periodic trigger of `lib/ldp_trigger.c` notifies its domain before it sets its state to
  READY, unlike modules, dynamic triggers and the APEX trigger. When it comes last,
  CLIENT_READY is never sent (`StartupEnds.PeriodicTriggerStopsTheStartup`,
  `StartupEnds.ReadyIsMissedIffTriggerLast`).

## Model

| member | source | states |
|---|---|---|
| `VdTheorems.CopyLifecycle` | lib/ldp_VD.c:119-184 | in every reachable interleaving each USED copy is exactly one of published, private to one access, or draining; a FREE copy has no readers and no release mark; `num_readers` is the number of pins |
| `VdTheorems.PinnedCopiesAreStable` | lib/ldp_VD.c:119-143 | no byte of a copy changes while it is pinned, and no pinned copy is freed |
| `VdTheorems.ReadsAreAtomic` | lib/ldp_VD_reader_manager.c:74-110 | a completed controlled read returns all the bytes of one publication v, with stamp at call start <= v <= stamp of the handle, although the memcpy and the last stamp read are unlocked |
| `VdTheorems.ReadsNeverGoBack` | lib/ldp_VD_reader_manager.c:112-135 | a read that starts after another has completed returns the same publication or a later one |
| `VdTheorems.NoReadSlotIsLost` | lib/ldp_VD_reader_manager.c:74-110 | the DATA_NOT_INITIALIZED branch that would lose a taken slot is unreachable |
| `VdTheorems.NotificationsAreFresh` | lib/ldp_VD.c:242-266 | a message built for socket readers while publication v is notified holds one whole publication, v or later |
| `VdTheorems.StampCountsPublications` | lib/ldp_VD.c:169-184 | the stamp grows by exactly the number of publications between two moments |
| `VdTheorems.VersionIsKept` | lib/ldp_VD.c:119-143 | from its pin to its last statement a read keeps the publication that was current at the pin |
| `VdTheorems.HandleStampExactness` | lib/ldp_VD_reader_manager.c:74-110 | the stamp of a handle is the counter of the version read, as its header documents it, if and only if nobody publishes between the pin and the end of the call |
| `VdTheorems.HandleStampCanRunAhead` | lib/ldp_VD_reader_manager.c:74-110 | a run of ten states in which the handle says 2 and the bytes are those of publication 1 |
| `VdTheorems.UsedCopiesBound` | lib/ldp_VD.c:145-184 | USED copies never exceed the published one plus the private ones plus the pins |
| `VdTheorems.WriteAccessIsAvailable` | lib/ldp_VD.c:145-154 | with more copies than that, taking a written copy cannot fail |
| `VdTheorems.ReadWriteStartsFromPublication` | lib/ldp_VD_writter_manager.c:97-163 | a READ_WRITE copy, filled without the mutex, starts as the whole publication that was current when it was taken |
| `VdTheorems.RunInv` | lib/ldp_VD.c:119-202 | the protocol invariant holds in every reachable state, for any number of accesses |
| `VdProtocol.StepInv` | lib/ldp_VD.c:119-202 | every step of every access, mutex section or unlocked statement, keeps it |
| `VdRepository.Repository.constructor` | lib/ldp_VD.c:44-62 | an initialised repository has FREE copies, no published copy and stamp 0 |
| `VdRepository.Repository.GetWrittenVdCopy` | lib/ldp_VD.c:145-154 | takes the first FREE copy and marks only it USED, or returns none exactly when there is none |
| `VdRepository.Repository.ReleaseWrittenVdCopy` | lib/ldp_VD.c:156-167 | one pin less; the last pin of a copy marked for release frees it and takes the mark away |
| `VdRepository.Repository.MoveRepositoryPtr` | lib/ldp_VD.c:169-184 | publishes a copy and counts it in the stamp; the superseded one is freed, or marked when it is still pinned; every other copy is as before |
| `VdRepository.Repository.CopyVdData` | lib/ldp_VD.c:119-143 | the destination gets all bytes of the published copy, the repository is as before |
| `VdAccess.ReaderManager.constructor` | lib/ldp_VD_reader_manager.c:17-42 | no slot used, as many as configured |
| `VdAccess.ReaderManager.GetReadAccess` | lib/ldp_VD_reader_manager.c:74-135 | status, slot, handle and bytes for every case: not initialised, no slot left, granted; the first free slot, which is always found when the count says so |
| `VdAccess.ReaderManager.ReleaseReadAccess` | lib/ldp_VD_reader_manager.c:137-159 | frees the slot of a valid handle and resets it, or refuses the handle |
| `VdAccess.ReadAccessRoundTrip` | lib/ldp_VD_reader_manager.c:112-159 | a granted access that is released leaves slots and count as they were |
| `VdAccess.WriterManager.constructor` | lib/ldp_VD_writter_manager.c:17-36 | no written copy held |
| `VdAccess.WriterManager.FillFromPublished` | lib/ldp_VD.c:119-143 | the private copy holds the published bytes, every other copy is as before |
| `VdAccess.WriterManager.FindSlot` | lib/ldp_VD_writter_manager.c:40-62 | the first unused slot, counted as used |
| `VdAccess.WriterManager.AcquireCopy` | lib/ldp_VD_writter_manager.c:116-146 | the first FREE copy becomes USED, with the published bytes if and only if the mode is READ_WRITE and something is published; only it changes |
| `VdAccess.WriterManager.GetWrittenAccess` | lib/ldp_VD_writter_manager.c:97-163 | status, index, handle and count for every case; once granted, the first FREE copy is the private one: with the bytes of the published copy in READ_WRITE mode, with its own bytes in WRITE_ONLY mode or when nothing is published; no other copy changes |
| `VdAccess.WriterManager.PublishWrittenAccess` | lib/ldp_VD_writter_manager.c:165-204 | the copy of a valid handle becomes the published one with its bytes, the superseded one is freed or marked for its readers, the slot is free again, the handle is reset; no other copy changes |
| `VdAccess.WriterManager.CancelWrittenAccess` | lib/ldp_VD_writter_manager.c:206-227 | the copy of a valid handle is FREE again and nothing is published |
| `VdAlone.ReadAlone` | lib/ldp_VD_reader_manager.c:74-135 | the steps of a read that no other access disturbs leave repository and accesses as they were and complete a read of the published bytes under the current stamp |
| `VdAlone.WriteAlone` | lib/ldp_VD_writter_manager.c:97-163 | those of a written access end in the repository the method gives: which copy, which bytes, nothing else |
| `VdAlone.PublishAlone` | lib/ldp_VD_writter_manager.c:165-204 | those of a publication, with any number of messages to socket readers between pin and unpin, publish the copy and send exactly its bytes |
| `VdAlone.CancelAlone` | lib/ldp_VD_writter_manager.c:206-227 | that of a cancellation frees the copy and publishes nothing |
| `ApexTheorems.TokenConservation` | lib/apex_apr/src/apr_thread_cond.c:48-109 | whenever the mutex is free, semaphore value plus threads carrying a token equals `pending_signals`, and pending_signals <= waiters <= 64 |
| `ApexTheorems.NoStaleToken` | lib/apex_apr/src/apr_thread_cond.c:63-109 | with no waiter left the semaphore is empty, so no token wakes a waiter that comes after all others have left |
| `ApexTheorems.OldTokenWakesIff` | lib/apex_apr/src/apr_thread_cond.c:63-109 | a thread that begins to wait and reaches the semaphore next is woken by a token posted before its wait if and only if more signals are pending than threads carry tokens, which is when the semaphore has a value above zero; then some waiter is still on its way to the semaphore, or has timed out and not relocked |
| `ApexTheorems.OnlyOldTokensWake` | lib/apex_apr/src/apr_thread_cond.c:63-109 | however much later it reaches the semaphore: if nothing was posted since it began to wait, only such a token wakes it |
| `ApexTheorems.DefensiveBranchesAreDead` | lib/apex_apr/src/apr_thread_cond.c:84-106 | the zero-timeout discard always finds a token, the guard on pending signals is always true, no signal is refused, no unsigned subtraction wraps |
| `ApexTheorems.BroadcastReleasesEveryone` | lib/apex_apr/src/apr_thread_cond.c:167-185 | after a broadcast nobody is queued and there is a token for every waiter |
| `ApexTheorems.SignalReleasesTheFirstQueued` | lib/apex_apr/src/apr_thread_cond.c:149-165 | a signal releases a thread at once exactly when one is queued, the one queued longest; otherwise its token waits |
| `ApexWaits.WaitReturns` | lib/apex_apr/src/apr_thread_cond.c:48-109 | over every run, from the unlock of a wait to its relock: without a timeout it ends only with a token; with timeout zero it is never queued and has a token exactly when the semaphore was above zero as it came; with another timeout it ends without a token only by expiring; a token was there when it came or was posted since |
| `ApexWaits.UntimedWaitBlocks` | lib/apex_apr/src/apr_thread_cond.c:71-72 | a wait without a timeout that finds no token stays queued as long as nothing is posted |
| `ApexCondition.StepInv` | lib/apex_apr/src/apr_thread_cond.c:48-198 | every step of wait, timed wait, signal, broadcast and destroy keeps the invariant |
| `ApexTheorems.RunInv` | lib/apex_apr/src/apr_thread_cond.c:48-198 | the invariant in every reachable state, for any number of threads and timeouts |
| `ApexCondition.Condition.constructor` | lib/apex_apr/src/apr_thread_cond.c:111-134 | a new condition is active with both counters and the semaphore at zero |
| `ApexCondition.Condition.BeginWait` | lib/apex_apr/src/apr_thread_cond.c:63-82 | one waiter more, or the error statuses, as the step system has it |
| `ApexCondition.Condition.EndWait` | lib/apex_apr/src/apr_thread_cond.c:84-109 | counters and semaphore after waking, by token or by timeout, with the discard |
| `ApexCondition.Condition.Signal` | lib/apex_apr/src/apr_thread_cond.c:149-165 | one pending signal more exactly when some waiter has none |
| `ApexCondition.Condition.Broadcast` | lib/apex_apr/src/apr_thread_cond.c:167-185 | pending signals become the waiters, one semaphore signal for each that had none |
| `ApexCondition.Condition.Destroy` | lib/apex_apr/src/apr_thread_cond.c:187-198 | refused exactly while there are waiters |
| `ApexWaits.WaitIsBeginWait` | lib/apex_apr/src/apr_thread_cond.c:63-82 | the step that begins a wait changes the counters as the method does |
| `ApexWaits.RelockIsEndWait` | lib/apex_apr/src/apr_thread_cond.c:84-109 | those after waking, with the discard of a signal that raced with the timeout, end as the method does |
| `ApexWaits.SignalIsSignal` | lib/apex_apr/src/apr_thread_cond.c:149-165 | those of a signal that nobody disturbs: one pending signal more and one token, for the thread queued longest or into the semaphore |
| `ApexWaits.BroadcastIsBroadcast` | lib/apex_apr/src/apr_thread_cond.c:167-185 | those of a broadcast: every waiter is signalled, with a token for each that had none |
| `ApexWaits.DestroyIsDestroy` | lib/apex_apr/src/apr_thread_cond.c:187-198 | that of a destroy is refused exactly while there are waiters |
| `EliFragment.ComputeFragment` | lib/eli/ldp_ELI_udp.c:206-225 | the least number of fragments that hold the size, each of at most 65507 bytes with its header; together they hold it exactly |
| `EliFragment.FragmentAndSend` | lib/eli/ldp_ELI_udp.c:227-285 | the loop sends exactly the fragments of the message, in order, and returns the threaded counter |
| `EliFragment.FragmentsTile` | lib/eli/ldp_ELI_udp.c:206-285 | the payloads concatenate to the message, none is longer than a datagram allows, all but the last are full; part, platform, channel and counter of each by its place |
| `EliSession.DeliveredMessagesWereSent` | lib/eli/ldp_ELI_udp.c:98-204 | under any loss, with one counter threaded below 2^16, every delivered message is one that was sent, byte for byte, in sending order, at most once |
| `EliSession.RoundTrip` | lib/eli/ldp_ELI_udp.c:120-285 | the fragments of a message received in order deliver exactly it if and only if it fits the buffer and no later fragment carries counter 0, from any earlier channel state |
| `EliSession.RoundTripAmongStrays` | lib/eli/ldp_ELI_udp.c:98-204 | the same with any continuations in between that do not carry the next counter, such as duplicates and tails of other messages |
| `EliSession.RestartedCounterMixes` | lib/ldp_mod_container_util.c:175-182 | the shortest losing run of a restarted counter: a tail and the next BEGIN are lost, and a mixture is delivered, which is one of the two messages if and only if they agree on the joined part |
| `EliRestart.RestartedSafeIff` | lib/ldp_mod_container_util.c:175-182 | any messages sent from a restarted counter, any loss, channels released on delivery or kept: every delivery is a sent message if and only if every splice (fragment 0 of one message, fragment 1 of the same or a later one, and so on) is one |
| `EliRestart.OneFragmentedIsSafe` | lib/ldp_VD.c:304-310 | so it is always so when channels are released and at most one message has several fragments |
| `EliRestart.TwoFragmentedMix` | lib/ldp_VD.c:304-310 | two messages of several fragments whose splice was not sent have a loss that delivers something never sent |
| `EliRestart.KeptChannelsMix` | lib/eli/ldp_ELI_udp.c:120-204 | with channels kept, a message of one fragment and a later one of several are enough |
| `EliSession.SingleFragmentsAreSafe` | lib/eli/ldp_ELI_udp.c:120-204 | messages of one fragment are delivered as they came whatever the counters |
| `EliLink.Link.constructor` | lib/eli/ldp_ELI_udp.c:17-26 | all channels free, with their allocated buffers |
| `EliLink.Link.UpdateChannelBuffer` | lib/eli/ldp_ELI_udp.c:98-118 | appends the payload and takes the counter when it fits, or only resets the offset of that channel when it does not; no other channel changes |
| `EliLink.Link.Defragment` | lib/eli/ldp_ELI_udp.c:120-204 | the loops and branches compute the table, status and completed channel that the next row tells case by case, for every kind of datagram |
| `EliLink.DefragmentCases` | lib/eli/ldp_ELI_udp.c:98-204 | channel, buffer, offset, counter and status after any datagram, case by case, for the channel that carries its ID or else the first free one |
| `EliLink.TableKept` | lib/eli/ldp_ELI_udp.c:120-204 | no two used channels share an ID after any datagram: stale, lost, oversized or refused ones included |
| `EliLink.ChannelIdsAreUnique` | lib/eli/ldp_ELI_udp.c:120-204 | nor in any state of any run of datagrams and releases from a fresh link |
| `EliLink.OwnSession` | lib/eli/ldp_ELI_udp.c:120-204 | the shared table, searched per datagram, behaves for the channel ID of a datagram that finds a channel and does not go stale like one private session |
| `EliLink.OtherSession` | lib/eli/ldp_ELI_udp.c:120-204 | and for any other ID as if nothing had arrived, whatever the datagram does |
| `EliLink.NoChannelIffAllBusy` | lib/eli/ldp_ELI_udp.c:120-204 | in every run of a link NO_CHANNEL_AVAILABLE is returned exactly when as many other IDs are in flight as there are channels, and then nothing changes |
| `EliLink.NothingRefused` | lib/eli/ldp_ELI_udp.c:120-204 | with a channel for every ID in use none is ever refused, in any traffic |
| `EliLink.Noninterference` | lib/eli/ldp_ELI_udp.c:120-204 | in any traffic, other IDs refused or stale included: an ID whose own datagrams do not go stale is delivered exactly what those that found a channel would deliver alone |
| `EliLink.InterleavedLossySenders` | lib/eli/ldp_ELI_udp.c:120-285 | a link with any number of channels, any other traffic, losses, interleaving and refusals together: the ID of a sender that threads its counter gets only messages of that sender, whole, in order, at most once |
| `EliStale.TableHolds` | lib/eli/ldp_ELI_udp.c:98-204 | every datagram without exception does to the channel of its ID, stale bytes included, what a session that may hold foreign bytes does, and leaves the channels of other IDs alone |
| `EliStale.StaleExactly` | lib/eli/ldp_ELI_udp.c:98-118 | what a channel delivers starts with the bytes it was taken with if and only if every datagram since was a continuation and none overflowed the buffer, and then one of them carried counter 1 |
| `EliStale.StaleBytesAreDeliveredIff` | lib/eli/ldp_ELI_udp.c:98-204 | the same on the channel table, for the channel an ID takes, a first and a last datagram of any kind and any other traffic between |
| `EliStale.WrappedSenderDeliversStale` | lib/eli/ldp_ELI_udp.c:98-285 | a threaded sender whose counter wraps to 0 at a BEGIN that is lost: the END with counter 1 is delivered behind the message before |
| `EliHeaders.UdpWriteRead` | lib/eli/ldp_ELI_udp.c:35-72 | writing then reading reduces the fields to their bits, and gives the header back if and only if they fit |
| `EliHeaders.UdpReadWrite` | lib/eli/ldp_ELI_udp.c:35-72 | any four header bytes are written back unchanged |
| `EliHeaders.WriteUdpHeader` | lib/eli/ldp_ELI_udp.c:53-72 | version, part and platform in 2, 2 and 4 bits of the first byte, channel, counter with its high byte first, at the offset, and nothing else written |
| `EliHeaders.ReadUdpHeader` | lib/eli/ldp_ELI_udp.c:35-51 | the fields whose bits these are, at the offset |
| `EliHeaders.EliWriteRead` | lib/eli/ldp_ELI.c:15-95 | an ELI header survives writing and reading |
| `EliHeaders.EliReadWrite` | lib/eli/ldp_ELI.c:15-95 | a header is accepted if and only if it starts EC 0A and the version, and is then written back as the same 20 bytes |
| `EliHeaders.WriteEliHeader` | lib/eli/ldp_ELI.c:58-95 | exactly the 20 bytes of the header and nothing else |
| `EliHeaders.EliLayout` | lib/eli/ldp_ELI.c:58-95 | EC 0A, version 2 and the domain, then platform, message, payload size and sequence number, four bytes each |
| `EliHeaders.ReadEliHeader` | lib/eli/ldp_ELI.c:15-56 | the header of the 20 bytes, or the invalid status |
| `EliHeaders.Serialize32` | lib/ECOA_simple_types_serialization.c:263-272 | four bytes in network order, nothing else written |
| `EliHeaders.NetworkOrder` | lib/ECOA_simple_types_serialization.c:263-282 | the bytes of a value are exactly those whose weighted sum, most significant first, it is |
| `EliHeaders.Decode32Encode32` | lib/ECOA_simple_types_serialization.c:263-282 | a 32-bit value survives serialisation |
| `EliHeaders.Encode32Decode32` | lib/ECOA_simple_types_serialization.c:263-282 | any four bytes survive deserialisation |
| `LocalUdp.Write` | lib/ldp_core_udp.c:176-205 | the do/while loop, for every length on which its exit test ever holds: it stops the first time the test holds, having sent the packet of each pass; for 1 to 65535 tiles exactly the tiles of the message, in order, under the next message ID |
| `LocalUdp.TileCount` | lib/ldp_core_udp.c:176-180 | as many tiles as 512 bytes each take; the packet number keeps them modulo 65536 |
| `LocalUdp.TilesCut` | lib/ldp_core_udp.c:181-199 | tile i carries the bytes of the message from 512 i on, 512 of them or what is left, with that offset |
| `LocalUdpLimits.LoopEndsIff` | lib/ldp_core_udp.c:176-205 | the exit test holds after some pass of the loop if and only if the number of tiles is not a multiple of 65536; an empty message has none |
| `LocalUdpLimits.SentWholeIff` | lib/ldp_core_udp.c:176-205 | the loop ends with pass i having sent tile i, for all tiles, if and only if there are 1 to 65535 of them; above, it ends before, if at all |
| `LocalUdp.Interface.constructor` | lib/ldp_core_udp.c:109-150 | blank buffers, at least one |
| `LocalUdp.Interface.PickMsgBuffer` | lib/ldp_core_udp.c:213-244 | the first buffer of the module, unchanged; without one, the first free unassigned buffer, which is then assigned; none exactly when there is neither |
| `LocalUdp.Interface.Read` | lib/ldp_core_udp.c:285-358 | the packet goes to the buffer of its module: a free buffer or an older message is taken over, the same message gets one packet more, and for a newer message the buffer is as before; complete exactly when the counts agree |
| `LocalUdp.Interface.GetFirstReadMessage` | lib/ldp_core_udp.c:310-321 | the first complete buffer is handed out and becomes free, or none is complete |
| `LocalUdp.Interface.ServerPass` | lib/udp/ldp_udp_comp_server.c:147-166 | one pass of the server loop, whether or not the servers reset their length flag, is one packet of the theorems below |
| `LocalUdp.InsertTile` | lib/ldp_core_udp.c:285-308 | the packet count of a buffer is the number of distinct correctly placed tiles of the message being collected |
| `LocalUdp.ReceivedOk` | lib/ldp_core_udp.c:213-358 | one packet keeps the buffers sound and what is consumed is the whole message of that packet; modules never share a buffer |
| `LocalUdp.ConsumedMessagesWereSent` | lib/ldp_core_udp.c:213-358 | under loss and any reordering, without duplicates, whatever is consumed is exactly one sent message all of whose tiles have arrived |
| `LocalUdp.ConsumedAtMostOnce` | lib/ldp_core_udp.c:310-321 | no message is consumed twice |
| `LocalUdpLimits.DuplicatesIff` | lib/ldp_core_udp.c:285-321 | as many packets of a message as it has tiles, in any order and repetition, always complete a buffer; they always give the message if and only if none repeats |
| `LocalUdpLimits.ConsumedAgainIff` | lib/ldp_core_udp.c:213-358 | packets of one message in any order and repetition: the server consumes a message on every n-th packet, n the number of tiles, and on no other |
| `LocalUdp.RemainingTiles` | lib/ldp_core_udp.c:285-321 | from any sound state the missing tiles, in any order, complete the message on the last of them and not before |
| `LocalUdp.AnyOrderCompletes` | lib/ldp_core_udp.c:285-321 | a message whose tiles arrive in any order is consumed on the last one |
| `LocalUdpDelivery.CollectedIsConsumed` | lib/ldp_core_udp.c:213-321 | from any sound state a message being collected is consumed on the last of its tiles, whatever packets of other modules and older messages arrive between, as long as no newer message of its module does |
| `LocalUdpDelivery.ConsumedIff` | lib/ldp_core_udp.c:213-321 | from any sound state, a message all of whose tiles arrive among any others is consumed on the last of them if and only if its module has or gets a buffer, that buffer was not collecting a newer message when the first tile came, and none of the module has come since; what is consumed is the message |
| `IntrusiveList.List.constructor` | lib/ldp_list.c:23-55 | at least two nodes, all unused |
| `IntrusiveList.List.AddLast` | lib/ldp_list.c:58-83 | a node leaves the unused chain and becomes the newest used one; NULL exactly when all are used |
| `IntrusiveList.List.RemoveFirst` | lib/ldp_list.c:86-101 | takes the oldest used node |
| `IntrusiveList.List.RemoveNode` | lib/ldp_list.c:104-131 | deletes exactly the given used node, order kept, and files it as unused |
| `IntrusiveList.List.Clean` | lib/ldp_list.c:133-137 | terminates with every node unused |
| `IntrusiveList.ChainsPartitionTheNodes` | lib/ldp_list.c:23-137 | the used and unused chains partition the node array |
| `IntrusiveList.UnlinkBoth` | lib/ldp_list.c:104-131 | the pointer surgery of removal keeps the used chain linked both ways and the unused chain linked by `prev` |
| `IntrusiveList.LinkLast` | lib/ldp_list.c:58-83 | the pointer surgery of insertion does |
| `RequestTable.RequestResponse.constructor` | lib/ldp_request_response.c:43-62 | empty lists of at least two nodes, generator at 0x64 |
| `RequestTable.RequestResponse.AddRequestReceived` | lib/ldp_request_response.c:68-101 | appends the request under the next ID with every other field as given, or changes nothing, not even the generator, when the list is full |
| `RequestTable.RequestResponse.AddRequestSent` | lib/ldp_request_response.c:106-142 | the same for sent requests, with the same generator |
| `RequestTable.FindReceivedNode` | lib/ldp_request_response.c:144-161 | the walk from the tail finds the newest request received with the ID, or there is none |
| `RequestTable.FindSentNode` | lib/ldp_request_response.c:176-192 | the newest request sent with the ID, or none |
| `RequestTable.RequestResponse.FindAndClean` | lib/ldp_request_response.c:261-274 | removes the newest request with the ID from the list asked for, and nothing else; without one, nothing changes |
| `RequestTable.RequestResponse.Clean` | lib/ldp_request_response.c:242-259 | both lists empty, the generator goes on |
| `Fifos.Fifo.constructor` | lib/ldp_fifo.c:21-29 | an empty ring |
| `Fifos.Fifo.Push` | lib/ldp_fifo.c:32-58 | appends to the queue the ring stands for, or refuses exactly when it is full |
| `Fifos.Fifo.PushFirst` | lib/ldp_fifo.c:61-89 | puts in front, or refuses exactly when it is full |
| `Fifos.Fifo.Pop` | lib/ldp_fifo.c:92-113 | takes the front, or fails exactly on an empty ring |
| `ModuleQueue.FifoManager.constructor` | lib/ldp_fifo_manager.c:24-53 | empty ring, all elements of all pools free |
| `ModuleQueue.FifoManager.GetElement` | lib/ldp_fifo_elt_pool.c:61-84 | the first free element is taken, or none when the pool counts none |
| `ModuleQueue.FifoManager.ReleaseToPool` | lib/ldp_fifo_elt_pool.c:87-96 | the element is free and counted again |
| `ModuleQueue.FifoManager.PushLocal` | lib/ldp_fifo_manager.c:74-143 | ring, pools, count and status after a push that nobody disturbs, in every case; the element queued, at the front or the back, has the ID, type, activation and module of the operation and the parameter bytes that fit |
| `QueueTheorems.PushSucceedsIff` | lib/ldp_fifo_manager.c:74-143 | a push succeeds exactly when the index is valid, the pool counts and has a free element and the ring has room; what a refused push leaves unchanged |
| `QueueTheorems.PushQueuesTheOperation` | lib/ldp_fifo_manager.c:96-140 | the first free element carries the operation and as many bytes of its parameters as fit, its memory behind them as before, and goes to the end asked for; no other element changes |
| `QueueTheorems.PopTakesTheFront` | lib/ldp_fifo_manager.c:183-207 | a pop takes the front element with its contents and uncounts it when it activates |
| `ModuleQueue.FifoManager.PopElement` | lib/ldp_fifo_manager.c:183-207 | the front element is taken, the count follows |
| `ModuleQueue.FifoManager.ReleaseElement` | lib/ldp_fifo_manager.c:209-214 | a held element goes back to its pool |
| `ModuleQueue.FifoManager.CleanQueue` | lib/ldp_fifo_manager.c:224-273 | rotating the ring in place computes the cleaned queue, pools, count and request table |
| `QueueTheorems.CleanKeeps` | lib/ldp_fifo_manager.c:239-270 | the loop keeps exactly what the latched filter keeps, in order |
| `QueueTheorems.CleanReleases` | lib/ldp_fifo_manager.c:239-270 | it releases exactly what the filter drops, and forgets the requests dropped elements name |
| `QueueTheorems.CleanCounts` | lib/ldp_fifo_manager.c:238-254 | the count becomes that of the activating elements kept, START counting in a ready module |
| `QueueTheorems.KeptIsLatchedFilter` | lib/ldp_fifo_manager.c:216-254 | what is kept is the allowed elements before the first START, and everything from it on |
| `QueueTheorems.KeptOrDropped` | lib/ldp_fifo_manager.c:239-270 | every queued element is kept or else dropped, once |
| `QueueEffects.KeptExactly` | lib/ldp_fifo_manager.c:216-254 | a cleaning keeps, in order, KILL in every state, SHUTDOWN outside Idle, INITIALIZE in Idle, in Ready the first START and everything behind it, and nothing else |
| `QueueEffects.ReleasedExactly` | lib/ldp_fifo_manager.c:257-270 | everything else becomes free with its contents as they were and is counted in its pool; no other element changes |
| `QueueEffects.CountedExactly` | lib/ldp_fifo_manager.c:238-254 | the count becomes the number of activating elements kept, a START counting in Ready |
| `QueueSteps.StepInv` | lib/ldp_fifo_manager.c:74-273 | every section and every unlocked statement of push, pop, release and cleaning, of any thread, keeps the queue invariant |
| `QueueRuns.RunInv` | lib/ldp_fifo_manager.c:74-273 | the queue invariant in every interleaving of any number of threads |
| `QueueRuns.ElementsAreConserved` | lib/ldp_fifo_elt_pool.c:61-96 | in every reachable state each pool element is exactly one of free, queued, held by a consumer, in the hands of one thread, stranded; no queue entry repeats, no two threads hold one element |
| `QueueRuns.StrandsIff` | lib/ldp_fifo_manager.c:121-130 | after a step some element is used, not queued and in nobody's hands that was not so before exactly when a full ring refused an element, of a push or of a cleaning; it stays so |
| `QueueRuns.NothingIsStranded` | lib/ldp_fifo_manager.c:121-130 | with a ring as large as all pools together no run strands an element, and whoever has one in hand finds room |
| `QueueRuns.TryRefusedIff` | lib/ldp_fifo_elt_pool.c:61-96 | the unlocked test refuses a push exactly when the index is invalid or the pool has as many free elements as releases between FREE and the count; with none of these, exactly when no element is free |
| `QueueRuns.SearchFailsIff` | lib/ldp_fifo_elt_pool.c:69-83 | past the test a push fails only when each element of its pool was used at some moment of the search, and exactly when none was free as it began if nothing is released into the pool meanwhile; a failed one has changed nothing |
| `QueueRuns.TakenIsQueued` | lib/ldp_fifo_manager.c:121-130 | with a ring as large as all pools a push that has taken an element queues it |
| `QueueContents.PoppedIsPushed` | lib/ldp_fifo_manager.c:74-207 | in every run the element a pop hands out carries the operation with which some thread began a push: its ID, type, activation, module and the bytes of its parameters that fit the pool; that push queued it, and it has been in use but with no consumer since |
| `QueueContents.ContentsAreKept` | lib/ldp_fifo_manager.c:74-214 | no element changes while it is queued, in the hands of a cleaning that keeps it, or with its consumer |
| `QueueContents.PoppedOnce` | lib/ldp_fifo_manager.c:183-207 | between two pops of one element it has been released: no push is popped twice |
| `QueueRuns.DriftStep` | lib/ldp_fifo_manager.c:133-203 | outside a cleaning every step keeps count plus pushes about to be counted minus activating elements queued or just popped, as uint32_t, except that it grows by one when a push falls off a ring that was empty and is full again |
| `QueueRuns.CountIsExact` | lib/ldp_fifo_manager.c:133-203 | before any cleaning, with a ring as large as all pools, the count plus the pushes between queuing and counting is the number of activating elements queued or just popped; with nobody in between, exactly the number queued |
| `QueueSweep.SweepStep` | lib/ldp_fifo_manager.c:224-273 | every step of any thread during a cleaning keeps it undisturbed unless it puts an element into the ring too early, and damaged from then on |
| `QueueCleaning.CleaningIsTheFilterIff` | lib/ldp_fifo_manager.c:224-273 | a cleaning, whatever the other threads do meanwhile, leaves the latched filter of the queue it started on, between what was put in front and behind since, if and only if nothing lands too early |
| `QueueCleaning.QuietCleaning` | lib/ldp_fifo_manager.c:224-273 | so with no push meanwhile it is the latched filter alone |
| `QueueCleaning.CountAfterCleaning` | lib/ldp_fifo_manager.c:238-254 | what any cleaning leaves the count off by: the pushes between queuing and counting at its start, plus elements counted twice or lost, minus those it did not meet |
| `QueueCleaning.CountIsExactAfterIff` | lib/ldp_fifo_manager.c:238-254 | a cleaning in which nothing lands too early, with a ring as large as all pools, makes the count exact if and only if no push was between queuing and counting when it started |
| `QueueRaces.CleaningInsideAPush` | lib/ldp_fifo_manager.c:133-140 | from any initial state a run of a module in which the cleaning of a shutdown drops an element that its push counts afterwards: empty queue, count one |
| `QueueRaces.PushOvertakes` | lib/ldp_fifo_manager.c:239-254 | a run in which a push lands between two KILL or INITIALIZE operations that the cleaning of a shutdown keeps |
| `QueueRaces.PushDisplaces` | lib/ldp_fifo_manager.c:239-254 | a run in which a push takes the last place while the cleaning has an operation it keeps in hand: the operation becomes unreachable, although it stays counted |
| `QueueRaces.PushRefusedThoughFree` | lib/ldp_fifo_elt_pool.c:87-96 | a run in which a push is refused although its pool has a free element |
| `QueueRaces.SearchMissesAFreeElement` | lib/ldp_fifo_elt_pool.c:72-81 | a run in which a search gives up although its pool has a free element, which was freed behind it |
| `QueueRaces.FrontPushFallsBehind` | lib/ldp_fifo.c:61-74 | from any sound state in which a push is about to put its element in front of an empty ring and another to queue one: steps after which the one in front is behind |
| `QueueRaces.FrontPushIsLost` | lib/ldp_fifo.c:61-74 | in a ring of one, steps after which it is unreachable although it is counted |
| `QueueRaces.ShutdownReachesNullTable` | lib/ldp_mod_lifecycle.c:38-52 | from any initial state a run in which a shutdown finds a request received in the queue: the table is needed and the cleaning goes on to it, though it was given none |
| `QueueShutdown.CleaningFollowsTableIff` | lib/ldp_fifo_manager.c:224-267 | a whole cleaning in Idle follows the request table if and only if the queue it starts on holds a request received other than an INITIALIZE or KILL operation, whatever the other threads do, unless one pushes in front of what it has still to look at |
| `QueueAlone.PushAlone` | lib/ldp_fifo_manager.c:74-143 | the steps of a push that nobody disturbs compute the function its method is specified by |
| `QueueAlone.PopAlone` | lib/ldp_fifo_manager.c:183-207 | those of a pop do |
| `QueueAlone.ReleaseAlone` | lib/ldp_fifo_manager.c:209-214 | those of a release do |
| `QueueAlone.CleanAlone` | lib/ldp_fifo_manager.c:224-273 | those of a cleaning do |
| `RequestQueue.LiveIdsAreDistinct` | lib/ldp_request_response.c:28-142 | under any interleaving, before the generator wraps, no ID is live twice in the received and sent lists together |
| `RequestQueue.QueuedRequestsHaveEntries` | lib/ldp_comp_util.c:193-246 | under any interleaving every request queued or in the hands of a thread names exactly one live entry, different ones different entries, and no answer names one although both carry RR_RECEIVED |
| `RequestQueue.CleaningForgetsExactlyTheDroppedRequests` | lib/ldp_fifo_manager.c:257-267 | no step of the queue touches the pending requests but the one in which a cleaning drops a request, and that removes exactly its entry; dropped answers remove nothing |
| `RequestQueue.FailedPushUndoesTheRegistration` | lib/ldp_comp_util.c:218-243 | a registered request keeps its entry until its push ends: queued with it, or failed, and then undone, which removes exactly its entry |
| `RequestQueue.RegisterEntersTheRequest` | lib/ldp_comp_util.c:217-226 | a request is entered under the next ID with its fields, and what is pushed is the operation with that ID in its first four parameter bytes |
| `RequestQueue.SendEntersTheRequest` | lib/ldp_request_response.c:106-142 | a request sent is entered under the next ID with its fields; a full list changes nothing |
| `RequestQueue.FreeForgetsTheEntry` | lib/ldp_request_response.c:223-240 | freeing an ID removes exactly the newest entry that has it, from its own list |
| `RequestQueue.AnswerFollowsTheEntry` | lib/ldp_comp_util.c:266-299 | an answer is pushed into the pool and with the activation that the newest request sent with its ID names; without one nothing happens |
| `RequestQueue.HistoryInv` | lib/ldp_request_response.c:68-274 | the ledger of IDs, the pending requests and the queue stay consistent in every run of all threads |
| `RequestSteps.WorldStep` | lib/ldp_comp_util.c:193-246 | each step of a request, an answer or the queue keeps them so |
| `RequestSteps.DropRequestsIsFilter` | lib/ldp_request_response.c:261-274 | removing one entry per dropped element is a filter on the IDs they carry |
| `Words.RoundTrip` | lib/ldp_comp_util.c:225-226 | an ID written into the parameters by memcpy is the ID read back, least significant byte first |
| `PoolHeap.AllocateInv` | lib/apex_apr/src/apr_pools.c:137-206 | an allocation keeps the arena tiled and each block owned once; its memory is aligned, large enough and disjoint from all live memory; a failed one changes nothing |
| `PoolHeap.AllocateFailsIff` | lib/apex_apr/src/apr_pools.c:178-206 | it fails exactly when the size wraps, or neither the head block nor a free block nor the arena has room; the last size test never fails |
| `PoolHeap.AllocateChoice` | lib/apex_apr/src/apr_pools.c:137-206 | where the memory comes from and what the heap is afterwards: the head block of the pool when it has room, else the first free block large enough, else a new block behind a 32-byte header, else nowhere |
| `PoolHeap.AcquiredOwned` | lib/apex_apr/src/apr_pools.c:137-176 | a block acquired by first fit or from the arena belongs to nobody else |
| `PoolHeap.LiveDisjoint` | lib/apex_apr/src/apr_pools.c:178-206 | live allocations of all pools are pairwise disjoint |
| `PoolHeap.ReleaseInv` | lib/apex_apr/src/apr_pools.c:208-223 | releasing a pool gives all its blocks back and touches no other |
| `PoolHeap.ReleaseLive` | lib/apex_apr/src/apr_pools.c:208-223 | and ends exactly the live memory of that pool |
| `PoolHeap.ReleaseOrder` | lib/apex_apr/src/apr_pools.c:208-223 | the blocks go to the front of the free list in reverse order |
| `PoolHeap.FindIsExact` | lib/apex_apr/src/apr_pools.c:942-970 | pool_find names a pool for exactly the bytes of its live memory |
| `PoolTable.Table.constructor` | lib/apex_apr/src/apr_pools.c:50-58 | the zeroed static tables and an unused arena |
| `PoolTable.Table.RunCleanups` | lib/apex_apr/src/apr_pools.c:292-323 | calls the registered cleanups of one list newest first, each with its data, and empties that list |
| `PoolTable.Table.ReleaseBlocks` | lib/apex_apr/src/apr_pools.c:208-223 | the loop is the release above |
| `PoolTable.Table.Detach` | lib/apex_apr/src/apr_pools.c:275-290 | closes the chain of siblings over the pool |
| `PoolTable.Table.ControlClear` | lib/apex_apr/src/apr_pools.c:337-352 | terminates; zeroes every descendant, empties the pool, releases all blocks; calls own pre-cleanups, then each child's whole trace newest child first, then own cleanups |
| `PoolTable.Table.ControlDestroy` | lib/apex_apr/src/apr_pools.c:354-361 | the same, and the pool itself is detached and zeroed |
| `PoolTable.DestroyStep` | lib/apex_apr/src/apr_pools.c:342-344 | destroying the first child is one step of clearing the parent |
| `PoolWorld.ReleaseTreeInv` | lib/apex_apr/src/apr_pools.c:208-223 | clearing a tree returns all blocks of all its pools and ends exactly their live memory |
| `PoolWorld.ReleaseTreeKeeps` | lib/apex_apr/src/apr_pools.c:208-223 | the blocks of the tree hold nothing any more and stand in front of what was free; every other block is as before, none moves |
| `PoolWorld.CreateForest` | lib/apex_apr/src/apr_pools.c:113-135 | a creation adds one pool as newest child or as a root; the forest stays well linked |
| `PoolWorld.ClearForest` | lib/apex_apr/src/apr_pools.c:337-352 | clearing leaves the pool in place with nothing below it |
| `PoolWorld.DestroyForest` | lib/apex_apr/src/apr_pools.c:354-361 | destroying deactivates exactly the pool and its descendants, the rest stays well linked and in order |
| `PoolWorld.ReadyToDestroy` | lib/apex_apr/src/apr_pools.c:275-290 | any active pool of a sound forest can be detached from its siblings |
| `PoolUpdates.RemovedRep` | lib/apex_apr/src/apr_pools.c:275-290 | the closed chain shows the other children in order |
| `PoolOrder.CallOrder` | lib/apex_apr/src/apr_pools.c:292-361 | by the links of the table alone: a clearing or destruction calls every entry registered with the pool or under it once; each pool's lists newest first, its pre-cleanups before and its cleanups after everything under it, and everything of a newer sibling before everything of an older one |
| `PoolOrder.SubtreeIsUnder` | lib/apex_apr/src/apr_pools.c:621-644 | the subtree of a pool is the pool and what parent links lead to it from |
| `PoolOrder.DestroyedLinks` | lib/apex_apr/src/apr_pools.c:275-290 | a destruction zeroes the subtree and redirects the one link that led to the pool to its next sibling; no other control changes |
| `PoolManager.Manager.constructor` | lib/apex_apr/src/apr_pools.c:363-398 | no pool, no live memory |
| `PoolManager.Manager.CreatePool` | lib/apex_apr/src/apr_pools.c:455-480 | the first inactive control becomes the newest child of its parent, in front of the others, or a root, and nothing else changes; refused exactly for an inactive parent or a full table |
| `PoolManager.Manager.Palloc` | lib/apex_apr/src/apr_pools.c:537-559 | one new live allocation, from where `PoolHeap.AllocateChoice` says; or nothing changes |
| `PoolManager.Manager.Register` | lib/apex_apr/src/apr_pools.c:799-848 | the cleanup heads the list of an active pool and one more entry is in use, or nothing changes: the pool is inactive or all 256 entries are in use |
| `PoolManager.KillList` | lib/apex_apr/src/apr_pools.c:850-862 | the loop over one list does so |
| `PoolManager.Manager.Kill` | lib/apex_apr/src/apr_pools.c:850-883 | from each of the two lists the newest entry with the data and the callback is unlinked and nothing else; a list without one is unchanged |
| `PoolManager.Manager.ClearPool` | lib/apex_apr/src/apr_pools.c:511-522 | trace, controls, heap, live memory and forest after a clear: the pool stays in place, emptied, every pool under it is zeroed, no other control changes |
| `PoolManager.Manager.DestroyPool` | lib/apex_apr/src/apr_pools.c:524-535 | trace of the whole subtree; exactly its controls are zeroed and its memory ends; outside it only the link that led to the pool changes |
| `PoolManager.Manager.FindOwner` | lib/apex_apr/src/apr_pools.c:942-970 | the loops of pool_find compute the exact owner |
| `PoolManager.Manager.IsAncestor` | lib/apex_apr/src/apr_pools.c:621-644 | terminates, and is true exactly when b is a or lies below it |
| `PoolManager.WalkStep` | lib/apex_apr/src/apr_pools.c:635-641 | one step to the parent climbs the tree and keeps the question |
| `Startup.StartsWhenAllAreReady` | lib/ldp_network.c:263-319 | INIT_MOD and START_MOD are broadcast at most once, START_MOD only when every module of every domain is ready; each domain sends CLIENT_READY at most once |
| `Startup.StartIsHandledInReady` | lib/ldp_network.c:408-421 | a domain handles START_MOD in state READY |
| `Startup.EndsRunningIff` | lib/ldp_network.c:250-421 | where nothing more can happen, all domains run exactly when each has a participant and none ended on the late READY of a periodic trigger |
| `StartupEnds.RunsAreBounded` | lib/ldp_network.c:250-421 | every step shrinks a measure of the configuration, so no start-up goes on for ever |
| `StartupEnds.StartupEndsRunning` | lib/ldp_network.c:250-421 | with no empty domain and no periodic trigger every maximal run ends with all domains running, START_MOD broadcast once and each CLIENT_READY sent exactly once |
| `StartupEnds.AlwaysStartsIff` | lib/ldp_network.c:250-421 | every maximal run ends with all domains running if and only if no domain is empty and none holds a periodic trigger |
| `StartupEnds.PeriodicTriggerStopsTheStartup` | lib/ldp_trigger.c:220-227 | any configuration that holds a periodic trigger has a maximal run that stops short |
| `StartupEnds.EmptyDomainStops` | lib/ldp_comp_util.c:31-48 | a configuration with an empty domain never starts |
| `StartupEnds.ReadyIsMissedIffTriggerLast` | lib/ldp_trigger.c:220-227 | in any run, once all participants of a domain are initialised, CLIENT_READY has been sent not at all or exactly once: not at all exactly when the last step of its participants was the late READY of a periodic trigger |
| `StartupSteps.StepInv` | lib/ldp_network.c:250-421 | every step of main, a domain or a participant keeps the rendezvous invariant |
| `Startup.RunInv` | lib/ldp_network.c:250-421 | the rendezvous invariant in every run |
| `StartupProcesses.MainProcess.constructor` | lib/ldp_network.c:250-349 | no client counted, nothing written |
| `StartupProcesses.MainProcess.BroadcastToClient` | lib/ldp_network.c:173-185 | one message more for every client |
| `StartupProcesses.MainProcess.ConsumeControlMsg` | lib/ldp_network.c:250-349 | the counter of the message is one more; when it reaches the number of clients every client gets the answer, beyond it the sender alone, before it nobody |
| `StartupProcesses.ProtectionDomain.constructor` | lib/ldp_comp_util.c:88-95 | state IDLE, everyone waiting |
| `StartupProcesses.ProtectionDomain.AllModuleReady` | lib/ldp_comp_util.c:31-48 | true exactly when all are ready |
| `StartupProcesses.ProtectionDomain.InitNotify` | lib/ldp_mod_container_util.c:46-65 | READY and one CLIENT_READY exactly when in INIT with all ready |
| `StartupProcesses.ProtectionDomain.Act` | lib/ldp_mod_lifecycle.c:18-22 | the phase of the participant moves on, and the domain is notified before or after according to its kind, with READY and CLIENT_READY exactly when it is in INIT and all were ready before the move |
| `StartupProcesses.ProtectionDomain.ConsumeMsg` | lib/ldp_network.c:386-421 | INIT_MOD calls every waiting participant when the domain is in INIT and does nothing otherwise; START_MOD makes it RUNNING |
| `StreamFraming.HeaderIsRead` | lib/ldp_network.c:37-110 | a written header is the magic number, the parameter size and the operation, least significant byte first; it is read back, and accepted exactly when the size is within the limit |
| `StreamFraming.AcceptedOverrunsIff` | lib/tcp/ldp_tcp.c:26-34 | completing an accepted frame writes past the buffer if and only if its parameters exceed the buffer size minus 12, wherever it starts in the buffer |
| `StreamFraming.Connection.constructor` | lib/tcp/ldp_tcp_comp_server.c:192-196 | an empty buffer, nothing consumed |
| `StreamFraming.Connection.Recv` | lib/tcp/ldp_tcp.c:62-70 | any positive number of the bytes there are |
| `StreamFraming.Connection.ReadExactly` | lib/tcp/ldp_tcp.c:87-105 | exactly the next bytes of the stream, whatever the chunks |
| `StreamFraming.Connection.CompleteMsg` | lib/tcp/ldp_tcp.c:26-34 | enough bytes in the buffer, where they are or at its start, none lost or read twice; or stopped exactly where it would write past the buffer |
| `StreamFraming.Connection.ParseHeader` | lib/tcp/ldp_tcp_comp_server.c:162-170 | the header of the first pending frame is completed and read, or refused because of its size; the frame stays pending |
| `StreamFraming.Connection.Consume` | lib/tcp/ldp_tcp_comp_server.c:175-182 | the first pending frame, completed, is handed over with exactly its parameters, and the pending bytes are those of the others |
| `StreamFraming.Connection.ParseOne` | lib/tcp/ldp_tcp_comp_server.c:162-182 | the first pending frame, of any size, is consumed whole, with the pending bytes those of the others, or refused, or would overrun the buffer |
| `StreamFraming.Connection.ParseBuffer` | lib/tcp/ldp_tcp_comp_server.c:148-186 | consumes frames in order and ends on a frame boundary, or at the first frame that ends the connection |
| `StreamFraming.Connection.Serve` | lib/tcp/ldp_tcp_comp_server.c:192-290 | for any frames and any sizes recv returns: the messages consumed are the frames written, in order, up to the first KILL, refused or overrunning frame, which decides how it ends |

## Left out

- Uncontrolled Versioned Data mode, which is unsynchronised by design.
- Forwarding from one repository to another (`lib/ldp_VD.c:219`), which reads outside any pin, and the other effects of notifying local readers.
- 32-bit wrap-around of the stamp and of `num_readers`.
- Error returns of mutex, semaphore and memory services; failed socket writes.
- The conversion of timeouts to system time in `lib/apex_apr/src/apr_thread_cond.c:76-81`; signal, broadcast and destroy are called with the mutex held.
- ELI buffers of 2^32 - 65536 bytes or more, where the length test of the code could wrap; the ELI status for an unknown message part, which two bits cannot hold.
- ELI management messages and platform status.
- LocalUdp.Write: messages whose number of tiles is a multiple of 65536, the empty one included, on which the loop does not end (`LocalUdpLimits.LoopEndsIff`); its counter `sent_count` is unbounded in the model.
- LocalUdp.ConsumedMessagesWereSent: duplicated packets are outside it, and `LocalUdpLimits.DuplicatesIff` and `LocalUdpLimits.ConsumedAgainIff` say what they do to one message; message IDs that wrap within one module are outside it too.
- The byte layout of the local UDP packet header.
- ModuleQueue.FifoManager.PushLocal: the method is one undisturbed call, like the others of its class; what threads do to each other is in `QueueSteps` and its theorems. There, filling an element is one step, since nobody else looks at it before it is queued, and so are marking an element USED and counting it. Waiting on the activating condition is left out: a pop may run at any time, which allows more runs than the code does.
- ModuleQueue.FifoManager.CleanQueue: it requires a request table where the code would follow a null pointer without one; `QueueShutdown.CleaningFollowsTableIff` says when that is.
- VdAccess.WriterManager.PublishWrittenAccess: the sequential contract leaves out the notification of readers between pin and unpin, which is part of `VdProtocol` and `VdTheorems.NotificationsAreFresh`.
- RequestQueue.QueuedRequestsHaveEntries: it ends where the 32-bit generator would wrap, and assumes what the callers do: a request is registered only with room in its list (asserted in the code) and freed only after it was popped. Finding and freeing the entry of a failed push is one step. Requests inside one domain, which are queued as events, and the shutdown of a module are not part of it.
- Expiry dates of sent requests; the counters of concurrent requests per operation.
- The user data table of the pools (128 entries), child cleanups, abort functions, tags, byte counts; callbacks do not touch pools. A block header is 32 bytes and alignment 8, as on a 64-bit target.
- Startup.StartsWhenAllAreReady: runs without launcher file, restart, shutdown, kill or synchronisation messages. START reaches modules only after the triggers run; that wait is not modelled.
- StreamFraming.Connection.Serve: the buffer holds at least a header, and less than 2^32 - 12 bytes. What follows a refused header, on which the code asserts, or a write past the buffer is not modelled. Headers without the magic number do not occur.
- Sockets, multicast, DDS and APEX ports, poll sets, reconnection, loggers, pinfo files, timers, triggers, CPU affinity, thread creation.
