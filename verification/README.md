# Bridge protocol verification

A Dafny model of the parts of the repository where two processes share state:
the shared-memory protocols between client and service, the tables and caches
behind them, and the wire formats and generators they rely on. `dafny verify
dfyconfig.toml` checks everything.

What is modelled, module by module:

- `DescriptorLeases` (`lease.dfy`): the live-batch allocation path. The service
  over-allocates descriptor sets, publishes the surplus in banks, and the
  client claims from them. Banks and plans are arrays of one class. Claim,
  publish, disable and the look at a cursor are atomic steps, and the client
  may claim between any two of them: any number of claims runs between the look
  at a bank and its retirement, after each native call for a batch, and before
  each bank of a pool being reset or destroyed is disabled. A claim elsewhere
  inside an operation sees the same banks as one of these or as one before or
  after the operation. The native allocator is an oracle: any answer, where a
  success carries fresh, distinct, nonzero ids of the number asked for. A ghost
  ledger records where every set is, and a ghost map for which layout it was
  made.
- `TransactionRing` (`ring.dfy`) and `RingCalls` (`ring_calls.dfy`): the slot
  protocol, as single steps of one client thread making calls 1, 2, 3, ... and
  one service thread, including spinning, futex sleeping, timeouts and failures
  of either side; and what each call returns, in every run.
- `Handles` (`handle.dfy`): packed ids and the open-addressed table, which
  refines a finite map.
- `StreamGenerations` (`generations.dfy`) and `StreamSubmit` (`submit.dfy`):
  the transactional replay-protection table and the two-phase submit.
- `Wire`, `Commands`, `CommandLayout`, `CommandCodec`, `BatchFraming`,
  `CommandBatch`: the command-batch format, from bytes and words over payloads to the builder,
  validator and iterator. Framing is proved for any payload check, hence for
  every opcode; the payload rules are those of the modelled commands.
- `DescriptorWire`, `DescriptorLayout`, `DescriptorCodec`,
  `DescriptorJournal`, `JournalService`:
  the descriptor requests, the canonical journal, and the three request paths
  that share its sequence counter.
- `FrameSync`, `VisibleBatch`, `VisibleIngress`, `FirstRejection`: the small
  lock-step monitors. Code that runs without a lock is modelled load by load
  and store by store; code under a mutex one critical section at a time.
- `AliasResolution`, `DispatchPolicy`, `SchemaOrder`, `DiscoveryCodec`: the two
  generators and the code that uses their output.

`CommandLayout` and `DescriptorLayout` state the formats a second time, with
every offset, limit and object type written out and none of the helpers that
encoders, validators and decoders share, and prove that these agree with it.

All steps are sequentially consistent. A timeout, a native call, the content
of memory the client may write, and a failing allocation are unconstrained
choices, or parameters of the operation over whose every value it is specified.
Pointers that must not be NULL are not modelled as values.

Where a promise turned out not to hold of the code, the code was kept and the
exact condition proved:

- A builder takes a transfer that is not a blit with a filter set; the
  validator then refuses the whole batch (`Commands.AppendedPayload`,
  `Commands.FilterOnCopyIsRefused`, `CommandBatch.BuildThenParse`).
- Within one list of generation updates a dead buffer may be given a sequence
  twice (`StreamGenerations.ForgottenBufferRepeatsItsSequence`). That takes a
  list that, with the table, names more buffers than there are slots; which
  repeats are then taken is decided by table, list and live buffers
  (`StreamGenerations.ReclaimsWhenFull`,
  `StreamGenerations.StaleIsCaughtUnlessForgotten`).
- Between the native reset or destruction of a pool and the disabling of its
  last bank the client can still claim sets of that pool, but only such as were
  waiting in a bank when the operation began
  (`DescriptorLeases.LeaseService.ResetPool`, `DescriptorLeases.RunAcrossReset`).
- A ring transaction whose mutex unlock fails reports an error although its
  sequence was consumed, and this is the only such case
  (`JournalService.Service.ServeRing`, `JournalService.Run`).
- A NUL check on an empty terminated array replaces an earlier reader error by
  EPROTO (`DiscoveryCodec.EmptyTerminatedArrayReplacesTheError`). The first
  error stays if and only if no such array is empty
  (`DiscoveryCodec.FirstErrorStaysIfRoom`); that it stays an error needs no
  condition (`DiscoveryCodec.StructConsumes`).
- Sets of a batch are stranded when the plan's epoch is exhausted, and also
  when a request names a zero layout, which the request decoder rules out
  (`DescriptorLeases.LeaseService.ShareBatch`).

The byte comparisons at the end of the descriptor decoders are redundant:
nothing they see ever differs (`DescriptorWire.TransactionIsCanonical` and the
three like it).

## Model

| member | source | states |
|---|---|---|
| `DescriptorLeases.LeaseService.Claim` | src/descriptor_transaction_ring.c:428-470 | A successful claim returns as many sets of the asked pool as layouts were asked for, each labelled with and natively made for the layout asked at its position, and moves that bank's cursor by that count; a failed claim changes nothing; which of the two happens is decided by the first bank that can serve the request. |
| `DescriptorLeases.LeaseService.ClientClaims` | src/descriptor_transaction_ring.c:428-470 | Any number of claims in the middle of a service operation take only waiting sets, each made for the layout asked, and move nothing but cursors; a drained bank stays as it is. |
| `DescriptorLeases.LeaseService.Publish` | src/descriptor_transaction_ring.c:399-426 | A bank becomes ready with exactly the given records, pool and epoch and cursor zero, or is refused and stays as it was, by the argument checks of the source. |
| `DescriptorLeases.LeaseService.Disable` | src/descriptor_transaction_ring.c:385-397 | A disabled bank can serve nothing; no other bank changes. |
| `DescriptorLeases.LeaseService.BankCursor` | src/descriptor_transaction_ring.c:472-487 | Reports cursor and count of a ready bank and an error otherwise. |
| `DescriptorLeases.LeaseService.PlanFind` | src/bridge_service.c:2481-2514 | Finds the plan of a pool and signature, or starts a fresh one in a free place, or reports that the request is malformed or no place is left; every other plan stays. |
| `DescriptorLeases.LeaseService.MakeBatch` | src/bridge_service.c:2540-2550 | A batch request repeats the signature cyclically over its whole length. |
| `DescriptorLeases.LeaseService.AllocateBatch` | src/bridge_service.c:2604-2670 | The fallback loop asks the native allocator for whole multiples of the request, each half the one before, because that found no room; a success is shared, any other answer is passed on, and having no room is the answer only when the request's own size got it. The plan and its bank end in exactly the specified state. |
| `DescriptorLeases.LeaseService.ShareBatch` | src/bridge_service.c:2636-2670 | Of a successful batch the caller gets the first n sets and the rest all become claimable in the plan's bank, in order and unclaimed, or are all stranded; stranded exactly when the epoch is exhausted or a layout is zero. |
| `DescriptorLeases.LeaseService.AllocateLiveBatch` | src/bridge_service.c:2552-2670 | A request is answered as its last native call was: the first n sets of a success, or the same error, where having no room is an error only of a call for the request's own size. The first call's size and the plan afterwards are the specified ones: exact unless the plan is hot, and then all planned repetitions. The sets are fresh and made for the layouts asked, and apart from claims made meanwhile the ledger grows by exactly the sets handed out: returned, waiting or stranded. |
| `DescriptorLeases.LeaseService.ForgetPool` | src/bridge_service.c:2672-2685 | After a pool is destroyed no plan and no ready bank belongs to it; on the others only claims made meanwhile had an effect; and what those claims took was waiting before. |
| `DescriptorLeases.LeaseService.AfterPoolReset` | src/bridge_service.c:2687-2710 | After a reset no bank of the pool is ready and its plans start over, keeping their epochs; on the others only claims made meanwhile had an effect; and what those claims took was waiting before. |
| `DescriptorLeases.LeaseService.DestroyPool` | src/bridge_service.c:1999-2018 | Destroying a pool forgets every set it owned: none can be claimed any more. A claim between the native call and the last disabled bank returns only sets that were waiting when it began. |
| `DescriptorLeases.LeaseService.ResetPool` | src/bridge_service.c:2060-2080 | A successful reset forgets every set of the pool, and a claim while it runs returns only sets that were waiting when it began; a reset the native context refuses changes nothing. |
| `DescriptorLeases.Run` | src/bridge_service.c:2552-2710 | Over every run of allocations, claims, resets and destroys, with any native answers and any claims in the middle of the service's operations, no set id reaches the client twice, and each reaches it as a set of the layout the native allocator made it for. |
| `DescriptorLeases.RunAcrossReset` | src/bridge_service.c:2687-2709 | Sets a pool owned when it was reset never reach the client afterwards, and while the reset runs only those can that were waiting in a bank, whatever happens before and after. |
| `DescriptorLeases.ThirdRequestFillsBank` | src/bridge_service.c:2573-2670 | From a fresh service the first two requests of a signature are served exactly, the third asks for twice as many sets, and when it gets them the next claim of that signature takes exactly the second half. |
| `DescriptorLeases.DrainedPlanDoubles` | src/bridge_service.c:2588-2602 | Once its bank is drained, an enabled plan whose last batch had r repetitions asks for min(2r, 16 / n) repetitions. |
| `DescriptorLeases.ThirdRequestIsBatched` | src/bridge_service.c:2562-2602 | A plan's first two requests are asked for exactly and only counted, every later one with two repetitions, for up to eight sets. |
| `DescriptorLeases.SetIsInOnePlace` | src/bridge_service.c:2636-2670 | A set whose pool lives is with the client, or at exactly one position between cursor and count of one ready bank, or stranded: never two of these, never none. |
| `DescriptorLeases.LeaseLayout` | src/bridge_service.c:2643-2658 | Record k of a ready bank carries the layout that its plan's signature has at k modulo the signature length. |
| `DescriptorLeases.RepetitionsFit` | src/bridge_service.c:2516-2528 | A batch of the planned repetitions never exceeds the allocation limit or the bank capacity. |
| `DescriptorLeases.HalvingShrinks` | src/bridge_service.c:2530-2538 | The next smaller batch is a smaller whole multiple of the request, down to the request itself. |
| `DescriptorLeases.SmallerBatchHalves` | src/bridge_service.c:2530-2538 | Of k repetitions that found no room half are tried next, rounded down, and at least one. |
| `DescriptorLeases.GrowKeepsLedger` | src/bridge_service.c:2636-2670 | Fresh sets enter the books without disturbing where any older set is. |
| `DescriptorLeases.PublishKeepsLedger` | src/descriptor_transaction_ring.c:399-426 | Publishing a drained bank puts the surplus of a batch, and nothing else, into it. |
| `DescriptorLeases.ClaimKeepsLedger` | src/descriptor_transaction_ring.c:428-470 | Moving a cursor hands exactly the claimed sets from the bank to the client. |
| `DescriptorLeases.AdvanceKeepsLabels` | src/descriptor_transaction_ring.c:455-469 | Claiming leaves every waiting set labelled with the layout it was made for, and those claimed were. |
| `DescriptorLeases.ForgetKeepsLedger` | src/bridge_service.c:2672-2709 | Disabling a pool's banks and forgetting its sets keep the books in agreement. |
| `DescriptorLeases.StrandKeepsLedger` | src/descriptor_transaction_ring.c:385-397 | Disabling a bank that still holds sets takes exactly these out of reach and keeps the books in agreement. |
| `DescriptorLeases.LeaseService.NativeAllocate` | src/bridge_service.c:2613-2617 | The oracle: any native answer, where a success brings as many fresh, distinct, nonzero ids as were asked for; it remembers the owner and the layout of each for good. |
| `DescriptorLeases.LeaseService.AllocateExactly` | src/bridge_service.c:2569-2573 | An exact allocation is one native call of the request's own size and leaves no surplus. |
| `DescriptorLeases.LeaseService.MakeLeases` | src/bridge_service.c:2643-2658 | The surplus of a batch, in order, each set with the layout it was allocated for. |
| `DescriptorLeases.LeaseService.Offer` | src/bridge_service.c:2648-2669 | Publishing succeeds exactly below the last epoch and without a zero layout; the plan then has the next epoch, the batch's repetitions and a full bank, and otherwise batching is switched off for it. |
| `DescriptorLeases.LeaseService.ChooseSize` | src/bridge_service.c:2562-2602 | The size asked for first is the specified one: the request's own size without a plan or unless the plan is warm, enabled and drained, and otherwise the planned repetitions, doubled after a drained bank; a cold request is counted, and no other plan changes. |
| `DescriptorLeases.LeaseService.Prepare` | src/bridge_service.c:2573-2602 | A cold request is counted once, a drained bank is taken back with its repetitions doubled up to the limit, and nothing else changes the plan, whatever the client claims meanwhile. |
| `DescriptorLeases.LeaseService.Retire` | src/bridge_service.c:2588-2602 | A drained bank is disabled and its plan unpublished, with repetitions doubled, cut at the limit, or kept when they are at the limit already. |
| `DescriptorLeases.LeaseService.TryBatch` | src/bridge_service.c:2607-2624 | One attempt is settled by any answer except an exhausted or fragmented pool: a success is shared, which fills the plan's bank and advances its epoch, and anything else is passed on as it came; unsettled, only claims made meanwhile had an effect. |
| `DescriptorLeases.LeaseService.Advance` | src/descriptor_transaction_ring.c:455-469 | The next n sets of a bank leave it in order, and the cursor moves by n. |
| `DescriptorLeases.SmallerBatch` | src/bridge_service.c:2530-2538 | The next batch size is at least the request and a whole multiple of it. |
| `TransactionRing.Run` | src/descriptor_transaction_ring.c:244-361 | Every interleaving of client and service steps, with timeouts and failures, keeps the ring invariant and never loses a request that was published. |
| `TransactionRing.StepKeepsInv` | src/descriptor_transaction_ring.c:244-361 | One step of either side, or a failure of either, keeps the ring invariant. |
| `TransactionRing.CallDeliversItsAnswer` | src/descriptor_transaction_ring.c:244-295 | A call that returns success delivers exactly the bytes the service completed for that call's number from that call's request (what those bytes are, and what other calls return, is stated in `RingCalls`). |
| `TransactionRing.LogOnlyGrows` | src/descriptor_transaction_ring.c:244-361 | What was sent, answered or returned for a call number is never changed, so a late answer cannot become another call's. |
| `TransactionRing.SlotLifecycle` | src/descriptor_transaction_ring.c:252-361 | A slot leaves AVAILABLE only by the call that owns it, REQUESTED only by the matching complete, COMPLETED only by the successful reader of that sequence. |
| `TransactionRing.NoLostWakeup` | src/descriptor_transaction_ring.c:111-162 | No reachable state has a waiter parked although its sequence is published, except while the publisher has still to look at the sleeping flag, which is set. |
| `TransactionRing.ServiceStopsOnlyFor` | src/descriptor_transaction_ring.c:297-361 | The service thread halts only because its own wait failed or the awaited call was never requested; its re-checks in complete never fail. |
| `TransactionRing.ProtocolErrorMeansSmallBuffer` | src/descriptor_transaction_ring.c:281-295 | Once its wait succeeded, a call fails exactly when the answer is larger than the caller's buffer. |
| `TransactionRing.WaitStepOk` | src/descriptor_transaction_ring.c:111-157 | One step of a waiter keeps it from parking after its word was published, whatever the publisher does next. |
| `TransactionRing.StepKeepsPending` | src/descriptor_transaction_ring.c:244-361 | No step loses a published request that was not taken yet. |
| `RingCalls.EveryReturnIsExplained` | src/descriptor_transaction_ring.c:244-361 | In every run: a malformed request returns EINVAL; a call that did not wait found a failed peer, a slot in use or no clock and returns exactly that; one whose wait failed returns its result; any other returns the worker's decision on its own request, its error or its bytes, or EOVERFLOW when they exceed a slot, or EPROTO when they exceed the caller's buffer. |
| `RingCalls.CallCanComplete` | src/descriptor_transaction_ring.c:244-361 | From every quiet state of every run, for every well-formed request, buffer and worker's decision, some continuation returns exactly that decision, and after a success the ring is quiet again with the slot free. |
| `RingCalls.GivesUpEarly` | src/descriptor_transaction_ring.c:257-276 | Before its wait a call gives up if and only if a failure was announced, an earlier call's entry still keeps its slot, or the clock is lost. |
| `RingCalls.WaitResult` | src/descriptor_transaction_ring.c:111-157 | A wait ends with success, an announced failure, a lost clock or its deadline, and nothing else. |
| `RingCalls.StepKeepsAccount` | src/descriptor_transaction_ring.c:244-361 | Every step keeps the account of what was asked, sent, decided, answered and returned. |
| `RingCalls.StartsQuiet` | src/descriptor_transaction_ring.c:186-205 | A fresh ring is quiet. |
| `RingCalls.WaitFinds` | src/descriptor_transaction_ring.c:111-157 | Once its word is published, a waiter that is not parked succeeds within five steps from any point of its loop, undisturbed by clocks and failures. |
| `RingCalls.WaitSleeps` | src/descriptor_transaction_ring.c:144-155 | A waiter done spinning announces that it sleeps, looks once more and parks on the word it saw. |
| `RingCalls.SlotsTakeTurns` | src/descriptor_transaction_ring.c:259-261 | The first call uses slot 0 and each later call the slot after its predecessor's, around. |
| `RingCalls.FailuresStay` | src/descriptor_transaction_ring.c:361-383 | Only a negative status is ever announced, in the side's own word, and no announcement is withdrawn. |
| `RingCalls.CallsFitTheirNumber` | src/descriptor_transaction_ring.c:244-259 | In every run the call numbers stay within 32 bits. |
| `Handles.IdRoundTrip` | src/handle.c:17-42 | Packing and unpacking ids are inverse, and an id passes exactly the check of its own type. |
| `Handles.MaskKeepsSmall` | src/handle.c:44-57 | For a capacity the table accepts, masking with capacity - 1 leaves every smaller index alone, so the mask is the wrap-around. |
| `Handles.ProbingCoversEverySlot` | src/handle.c:91-118 | The probes of one search visit every slot exactly once. |
| `Handles.SearchIsComplete` | src/handle.c:129-143 | An id that the probes miss before the first EMPTY slot, or over the whole table, is not stored. |
| `Handles.FillKeepsRepresentation` | src/handle.c:101-127 | Filling the first free slot on an id's path adds that object and leaves no EMPTY slot on any other path. |
| `Handles.BuryKeepsRepresentation` | src/handle.c:171-191 | A tombstone removes one object and leaves no EMPTY slot on any other path. |
| `Handles.HandleTable.FreeSlot` | src/handle.c:89-127 | Insertion finds the id, or a reusable slot on its path; with count below capacity it always finds one, so the final ENOSPC is unreachable. |
| `Handles.HandleTable.Insert` | src/handle.c:74-127 | Answers and changes the table exactly as a capacity-bounded map does, ENOSPC before EEXIST. |
| `Handles.HandleTable.FindEntry` | src/handle.c:129-143 | Finds the slot of a stored id and reports every other id missing. |
| `Handles.HandleTable.Lookup` | src/handle.c:145-162 | Answers as a map lookup does, after the argument checks. |
| `Handles.HandleTable.Remove` | src/handle.c:164-191 | Removes and answers as a map does, after the argument checks. |
| `Handles.Run` | src/handle.c:59-191 | Every run of inserts, lookups and removes is answered exactly as a finite map with the same capacity would; an unusable capacity is refused. |
| `Handles.MapStaysWithinCapacity` | src/handle.c:85-87 | The map never outgrows the capacity, so the count check is the only way to run out. |
| `StreamGenerations.CheckSlots` | src/command_batch.c:1967-1990 | The slot a stream may use, or why not, agrees with the first slot of that id and the first free one. |
| `StreamGenerations.Commit` | src/command_batch.c:1992-2009 | Overwrites one slot when the entry may be replaced and changes nothing otherwise. |
| `StreamGenerations.ApplyOne` | src/command_batch.c:2030-2055 | One update, with at most one reclamation per list, is one step of the specification. |
| `StreamGenerations.Generations.Apply` | src/command_batch.c:2011-2065 | All updates take effect or the table is unchanged, with exactly the specified status, ENOMEM for want of a copy included; the reclaimed count is reported only on success. |
| `StreamGenerations.SuccessfulApply` | src/command_batch.c:2011-2065 | After success every live buffer, and every buffer at all when nothing was reclaimed, holds the last sequence given to it or its old one, keeps its slot, and was given strictly increasing sequences above its old one. |
| `StreamGenerations.ReclaimsWhenFull` | src/command_batch.c:2030-2055 | A successful list reclaims if and only if liveness is known and table and list together name more buffers than there are slots; then exactly the dead buffers not named again from that point on lose their slots. |
| `StreamGenerations.IncreasingWithinRoom` | src/command_batch.c:2011-2065 | While table and list name no more buffers than there are slots, or the buffer is live, a successful list gives it strictly increasing sequences above its old one and remembers the last. |
| `StreamGenerations.StaleIsCaughtUnlessForgotten` | src/command_batch.c:1967-2055 | After a successful list, a sequence at or below the last one of a buffer known to table or list is refused as stale exactly while the buffer holds its slot; otherwise it is accepted if fewer buffers than slots hold one, and refused with ENOSPC if not. Who holds a slot is a condition on table, list and live buffers alone. |
| `StreamGenerations.ForgottenBufferRepeatsItsSequence` | src/command_batch.c:2030-2055 | Strict increase is false: with two slots and no live buffer, three buffers and then the first again with the same sequence are all accepted in one list. |
| `StreamGenerations.OutOfSpaceIsReal` | src/command_batch.c:2032-2049 | ENOSPC means that no slot is free and, when liveness is known, that each slot is of a live buffer or was written since the dead ones were cleared. |
| `StreamGenerations.CommitKeepsTable` | src/command_batch.c:1992-2009 | A commit keeps ids unique and touches no other buffer. |
| `StreamGenerations.ReclaimKeepsTable` | src/command_batch.c:2035-2043 | Reclamation forgets every buffer that is not live, and only those. |
| `StreamGenerations.AppliedUpdatesAreReal` | src/command_batch.c:1971-1975 | A list applied without error names real command buffers with nonzero sequences. |
| `StreamGenerations.ForgetDead` | src/command_batch.c:2035-2043 | The reclamation loop clears exactly the slots of dead buffers and counts them. |
| `StreamGenerations.DroppedCountsTheDead` | src/command_batch.c:2035-2043 | The reclaimed count is the number of buffers forgotten. |
| `StreamGenerations.StepEffect` | src/command_batch.c:2030-2055 | A successful update is recorded; it is refused as stale exactly for a remembered buffer whose last sequence is not below it. |
| `StreamGenerations.StepOutcome` | src/command_batch.c:1967-2055 | For one update: EINVAL exactly for an empty table, a zero sequence or another kind of id; ESTALE exactly for a held buffer not below its last; ENOSPC exactly for a buffer without a slot when none is free or can still be reclaimed; and success otherwise. |
| `StreamGenerations.StepLeavesOthers` | src/command_batch.c:2030-2055 | A successful update leaves every other buffer alone, except that reclamation forgets exactly the dead. |
| `StreamSubmit.SubmitService.CheckStream` | src/bridge_service.c:3842-3878 | The status is exactly the first of: ESTALE for another generation, ERANGE outside the region, EPROTO for an earlier stream of the same buffer, EINVAL or ENOMEM of the copy, the validator's status, ESTALE when the batch is not the announced one, the driver's answer; without one the private copy is returned. |
| `StreamSubmit.SubmitService.CheckAll` | src/bridge_service.c:3836-3887 | Phase one ends with the first error of a chosen stream, or zero, and then has the copies and updates of all chosen streams in order. |
| `StreamSubmit.PhaseOnePasses` | src/bridge_service.c:3836-3887 | Phase one passes if and only if every chosen stream is inside the region and of its generation, the only one of its buffer so far, copied, a valid batch of exactly that stream, and accepted by the driver. |
| `StreamSubmit.SubmitService.ReplayAll` | src/bridge_service.c:3898-3906 | Replays the copies in order up to the first error the driver answers and nothing after it. |
| `StreamSubmit.SubmitService.Submit` | src/bridge_service.c:3815-3908 | Exactly one of three outcomes, by a stated condition: without a stream nothing happens; if anything refuses it, that status is returned, nothing is replayed and the generation table is unchanged; otherwise the whole update list is applied and the copies are replayed in order, all of them or up to the driver's first error, which is the status. |
| `StreamSubmit.ApplyMakesReady` | src/bridge_service.c:3888-3896 | After a successful apply every chosen stream is newer than any replay of its buffer that still counts. |
| `StreamSubmit.ReplayKeeps` | src/bridge_service.c:3898-3906 | One more replay of a submit repeats no stream whose buffer stayed live. |
| `StreamSubmit.Run` | src/bridge_service.c:3815-3908 | Over all submits, with any client writes, native answers and deaths, no pair of command buffer and sequence is replayed twice unless the buffer died in between. |
| `StreamSubmit.SubmitService.Snapshot` | src/command_batch.c:1955-1965 | The copy is the stream's own stretch of memory at that moment, or none with EINVAL for a bad length and ENOMEM without room. |
| `StreamSubmit.SubmitService.Commit` | src/bridge_service.c:3888-3906 | The updates are applied before any replay; a refused update replays nothing and its status is returned, and otherwise every replay happens up to the driver's first error. |
| `StreamSubmit.AnyStream` | src/bridge_service.c:3820-3825 | The flag loop finds any shared stream. |
| `Wire.WordsRoundTrip` | src/protocol.c:15-47 | Words written little-endian read back as themselves. |
| `Wire.BytesRoundTrip` | src/protocol.c:15-47 | A whole number of words read and written again gives the same bytes. |
| `Commands.RegionRoundTrip` | src/command_batch.c:779-818 | A transfer region reads back as written; it passes the wire check exactly when append would take it; checked words are the encoding of what they decode to. |
| `Commands.ImageRoundTrip` | src/command_batch.c:630-653 | The same for image barriers, including the reserved word of their range. |
| `Commands.BufferRoundTrip` | src/command_batch.c:611-628 | The same for buffer barriers. |
| `Commands.TransferPayload` | src/command_batch.c:748-822 | An appended transfer reads back unchanged and is valid on the wire exactly when no filter is set where none belongs. |
| `Commands.TransferIsCanonical` | src/command_batch.c:1469-1518 | A transfer payload the validator accepts is the encoding of an appendable transfer. |
| `Commands.BarrierPayload` | src/command_batch.c:583-657 | An appended barrier with its three arrays is valid and reads back unchanged. |
| `Commands.BarrierIsCanonical` | src/command_batch.c:1366-1399 | A barrier payload the validator accepts is the encoding of an appendable barrier. |
| `Commands.ClearPayload` | src/command_batch.c:659-686 | An appended clear with up to four ranges is valid, zero-padded, and reads back unchanged. |
| `Commands.InitPayload` | src/command_batch.c:555-581 | An appended initial barrier is valid and reads back unchanged. |
| `Commands.InitIsCanonical` | src/command_batch.c:1827-1855 | An accepted initial barrier has distinct images, zeros after them, and is the encoding of what it decodes to. |
| `Commands.UpdatePayload` | src/command_batch.c:1037-1056 | An appended buffer update is valid and reads back with the same data bytes. |
| `Commands.AppendedPayload` | src/command_batch.c:495-1130 | For every modelled command that append takes: the payload has a valid length, its counts fit the decoder's arrays, it decodes to the command, and the validator accepts it if and only if a transfer that is not a blit has filter zero. |
| `Commands.ValidPayloadIsCanonical` | src/command_batch.c:1255-1861 | Every payload the validator accepts keeps all counts in bounds and is the only encoding of a command that append takes. |
| `Commands.FilterOnCopyIsRefused` | src/command_batch.c:769-770 | A concrete buffer copy that append takes and the validator refuses. |
| `Commands.FixedPayload` | src/command_batch.c:495-1130 | The appended fixed-size commands are valid and read back unchanged. |
| `Commands.FixedIsCanonical` | src/command_batch.c:1340-1861 | Accepted fixed-size payloads are encodings of appendable commands, reserved words included. |
| `Commands.UpdateIsCanonical` | src/command_batch.c:2626-2642 | An accepted update payload is the encoding of what it decodes to. |
| `Commands.ClearIsCanonical` | src/command_batch.c:1400-1421 | An accepted clear payload has zeros after its ranges and is the encoding of what it decodes to. |
| `CommandLayout.ValidIsLawful` | src/command_batch.c:1255-1861 | For every opcode and payload: the validator accepts it if and only if it keeps the written-out law of lengths, counts, object types, reserved words and field values, stated without the encoder's or validator's helpers. |
| `CommandLayout.AppendIsLawful` | src/command_batch.c:495-1130 | What an append takes keeps the law, except for a filter on a transfer that is not a blit. |
| `CommandLayout.LawfulIsAppended` | src/command_batch.c:495-1130 | Every lawful payload is the encoding of a command that append takes. |
| `CommandLayout.TransferObjects` | src/command_batch.c:755-770 | For each of the six transfers exactly which object types are taken on either side, with existing objects of both types. |
| `CommandLayout.DecodedFieldsLie` | src/command_batch.c:2184-2661 | Every field of a decoded command is read from its own written-out place in the payload. |
| `CommandLayout.EncodedFieldsLie` | src/command_batch.c:495-1130 | Every field of an appended command is written to that place. |
| `CommandLayout.WordLiesAtByte` | src/command_batch.c:495-1130 | Word i of a payload is its 32-bit field at byte 4 i. |
| `CommandLayout.FilterIsIgnored` | src/command_batch.c:769-770 | Outside blits an append does not look at the filter. |
| `CommandCodec.Encode` | src/command_batch.c:495-1130 | The append functions refuse exactly the commands outside their rules and otherwise write the payload of the specification. |
| `CommandCodec.ValidatePayload` | src/command_batch.c:1255-1861 | The validator's loops decide exactly payload validity. |
| `CommandCodec.CheckIds` | src/command_batch.c:1827-1855 | The nested loops accept exactly distinct image ids followed by zeros. |
| `CommandCodec.ReadRegions` | src/command_batch.c:2389-2440 | The decoder's loop returns all regions in order. |
| `CommandCodec.ReadImages` | src/command_batch.c:2298-2316 | The decoder's last loop finds the image barriers behind the other two arrays and returns all of them in order. |
| `CommandCodec.Read` | src/command_batch.c:2184-2661 | Each decoder, field by field and with its loops over regions, barriers, ranges and ids, returns the command of the specification for any payload whose counts fit. |
| `CommandCodec.WriteRegions` | src/command_batch.c:779-819 | The append loop refuses exactly when some region is invalid and otherwise writes all in order. |
| `CommandCodec.WriteImages` | src/command_batch.c:630-653 | The same for image barriers. |
| `CommandCodec.WriteIds` | src/command_batch.c:561-578 | The nested append loops refuse exactly wrong or repeated images. |
| `CommandCodec.CheckRegions` | src/command_batch.c:1494-1517 | The validator's loop accepts exactly valid regions. |
| `CommandCodec.CheckImages` | src/command_batch.c:1388-1397 | The validator's loop accepts exactly valid image barriers. |
| `CommandCodec.CheckRanges` | src/command_batch.c:1400-1421 | The validator's loop accepts exactly valid ranges followed by zeros. |
| `BatchFraming.Builder.constructor` | src/command_batch.c:316-336 | A begun batch is empty and unfinished. |
| `BatchFraming.Builder.AppendRecord` | src/command_batch.c:288-314 | Appends one record behind the others, or refuses and leaves every byte of the batch alone: EINVAL when finished or at the command limit, ENOSPC exactly when it does not fit. |
| `BatchFraming.Builder.Finish` | src/command_batch.c:1132-1150 | A nonempty batch becomes the serialisation of its records and is finished. |
| `BatchFraming.Validate` | src/command_batch.c:1863-1913 | Agrees with the reference parser on every byte string, status and header fields included. |
| `BatchFraming.Cursor.Next` | src/command_batch.c:1934-1953 | Yields the next record of an accepted batch without leaving it, and reports the end exactly at the byte length. |
| `BatchFraming.Walk` | src/command_batch.c:1915-1953 | Iterating an accepted batch yields the parsed records in order and ends at the byte length. |
| `BatchFraming.ParseOfSerialize` | src/command_batch.c:1863-1913 | For any payload check: a framed batch is accepted exactly when every payload passes, and parses back to the same header and records. |
| `BatchFraming.SerializeOfParse` | src/command_batch.c:1863-1913 | For any payload check: accepted bytes are the framing of the records they parse to, byte for byte. |
| `BatchFraming.ReadRecord` | src/command_batch.c:1886-1906 | One record is read at an offset within bounds exactly as the reference parser reads it. |
| `BatchFraming.Drain` | src/command_batch.c:1934-1953 | Iterating to the end yields all records that were left, and the offset ends at the length. |
| `CommandBatch.LengthInWords` | src/command_batch.c:96-131 | The length rule read in bytes is the rule read in words, and no accepted length has a fraction of a word. |
| `CommandBatch.CheckRecord` | src/command_batch.c:1890-1905 | One record is accepted exactly by its length rule and its payload rule. |
| `CommandBatch.AppendRequest` | src/command_batch.c:1114-1130 | An append by command or by copied record either adds that record or leaves the batch as it was, with the status of the rule it breaks. |
| `CommandBatch.BuildBatch` | src/command_batch.c:288-336 | Begin, any appends and finish give the framing of exactly the requests that succeeded, in order, with every status as specified. |
| `CommandBatch.BuildThenParse` | src/command_batch.c:1863-1953 | A built batch is accepted if and only if no kept append set a filter on a transfer that is not a blit; then the parsed list is the appended list and each record decodes to what was appended. |
| `CommandBatch.ParseThenBuild` | src/command_batch.c:1863-1953 | Any accepted byte string is what one gets by decoding its records and appending the commands again. |
| `CommandBatch.EncodeRequest` | src/command_batch.c:1114-1125 | A copied record is taken exactly when validation accepts it; a command exactly when its append rule does. |
| `CommandBatch.AppendAll` | src/command_batch.c:288-314 | A run of appends keeps exactly the requests that succeed, each judged by what the earlier ones left. |
| `DescriptorWire.WireIdIsHandle` | src/vulkan_descriptor_wire.c:7-10 | The codec's own id check agrees with the handle check for every object type. |
| `DescriptorWire.LayoutRoundTrip` | src/vulkan_descriptor_wire.c:12-94 | A valid set-layout request decodes to itself. |
| `DescriptorWire.LayoutIsCanonical` | src/vulkan_descriptor_wire.c:54-94 | Accepted set-layout bytes are the encoding of their result, whose bindings are pairwise distinct. |
| `DescriptorWire.PoolRoundTrip` | src/vulkan_descriptor_wire.c:96-171 | A valid pool request decodes to itself. |
| `DescriptorWire.PoolIsCanonical` | src/vulkan_descriptor_wire.c:135-171 | Accepted pool bytes are the encoding of their result, whose descriptor types are pairwise distinct. |
| `DescriptorWire.AllocateRoundTrip` | src/vulkan_descriptor_wire.c:205-268 | A valid allocation request decodes to itself. |
| `DescriptorWire.AllocateIsCanonical` | src/vulkan_descriptor_wire.c:236-268 | Accepted allocation bytes are the encoding of their result. |
| `DescriptorWire.TransactionRoundTrip` | src/vulkan_descriptor_wire.c:338-418 | A valid transaction request decodes to itself. |
| `DescriptorWire.TransactionIsCanonical` | src/vulkan_descriptor_wire.c:374-418 | Accepted transaction bytes are the encoding of their result, and the byte comparison at the end rejects nothing the other checks let through. |
| `DescriptorWire.BoundedEntryFits` | src/vulkan_descriptor_wire.c:574-586 | The bound checked by division is exactly offset + (count - 1) * stride below the data size, over the integers. |
| `DescriptorWire.TemplateRoundTrip` | src/vulkan_descriptor_wire.c:588-683 | A valid template request decodes to itself. |
| `DescriptorWire.TemplateIsCanonical` | src/vulkan_descriptor_wire.c:634-683 | Accepted template bytes are the encoding of their result, the comparison rejects nothing more, and every entry stays inside the data. |
| `DescriptorWire.UpdateRoundTrip` | src/vulkan_descriptor_wire.c:724-801 | A valid template update decodes to itself. |
| `DescriptorWire.UpdateIsCanonical` | src/vulkan_descriptor_wire.c:762-801 | Accepted template-update bytes are the encoding of their result and the comparison rejects nothing more. |
| `DescriptorWire.BindRoundTrip` | src/vulkan_descriptor_wire.c:803-879 | A valid bind request decodes to itself. |
| `DescriptorWire.BindIsCanonical` | src/vulkan_descriptor_wire.c:841-879 | Accepted bind bytes are the encoding of their result and the comparison rejects nothing more. |
| `DescriptorWire.UpdateSize` | src/bridge_service.c:2199-2206 | Every update fits a payload and a whole number of 8-byte units, so its journal record has no padding. |
| `DescriptorLayout.LayoutIsLawful` | src/vulkan_descriptor_wire.c:54-94 | A set-layout request is accepted if and only if it keeps its written-out law; each field comes from its own place; EINVAL exactly for a short request or a reserved word, EPROTO otherwise. |
| `DescriptorLayout.PoolIsLawful` | src/vulkan_descriptor_wire.c:135-171 | The same for pool requests. |
| `DescriptorLayout.AllocateIsLawful` | src/vulkan_descriptor_wire.c:236-268 | The same for allocation requests. |
| `DescriptorLayout.TransactionIsLawful` | src/vulkan_descriptor_wire.c:374-418 | A transaction is accepted if and only if its prefix keeps the law and the rest is a lawful allocation; each field comes from its own place. |
| `DescriptorLayout.TemplateIsLawful` | src/vulkan_descriptor_wire.c:634-683 | The same as for set layouts, with the bound of each entry over the integers. |
| `DescriptorLayout.ValueIsLawful` | src/vulkan_descriptor_wire.c:685-722 | Which object, second object, image layout, offset and range each of the eleven descriptor kinds may have, in terms of the kind alone. |
| `DescriptorLayout.UpdateIsLawful` | src/vulkan_descriptor_wire.c:762-801 | The same as for set layouts, for template updates. |
| `DescriptorLayout.BindIsLawful` | src/vulkan_descriptor_wire.c:841-879 | The same for bind requests. |
| `DescriptorCodec.EncodeLayout` | src/vulkan_descriptor_wire.c:12-52 | The encoder's nested loops refuse exactly the invalid layouts and write the specified words. |
| `DescriptorCodec.EncodePool` | src/vulkan_descriptor_wire.c:96-133 | The encoder's nested loops refuse exactly the invalid pools and write the specified words. |
| `DescriptorCodec.EncodeUpdate` | src/vulkan_descriptor_wire.c:724-760 | The encoder's loop refuses exactly the invalid updates and writes the specified bytes. |
| `DescriptorCodec.DecodeTemplateUpdate` | src/vulkan_descriptor_wire.c:762-801 | Decoding by reading, re-encoding and comparing agrees with the specification on every input. |
| `DescriptorCodec.ReadValues` | src/vulkan_descriptor_wire.c:779-791 | The decoder's cursor loop returns all values in order. |
| `DescriptorJournal.RecordLength` | src/bridge_service.c:2199-2206 | Rounding to 8 bytes stays within 32 bits, is zero exactly when it could not, and otherwise is the next multiple of 8. |
| `DescriptorJournal.ParseOfJournal` | src/bridge_service.c:2208-2246 | The serialisation of a list of payloads that decode parses back to that list. |
| `DescriptorJournal.JournalOfParse` | src/bridge_service.c:2208-2246 | Bytes that parse are the serialisation of their payload list. |
| `DescriptorJournal.AcceptedIsSerialization` | src/bridge_service.c:2208-2246 | A snapshot is accepted if and only if it is the serialisation of some list of that many valid updates, and it is then the serialisation of the list it parses to. |
| `DescriptorJournal.SerializationIsUnique` | src/bridge_service.c:2208-2246 | No snapshot is the serialisation of two lists. |
| `DescriptorJournal.Validate` | src/bridge_service.c:2208-2246 | The offset-advancing loop returns the specified status on every input and zero exactly on accepted snapshots. |
| `DescriptorJournal.Replay` | src/bridge_service.c:2248-2270 | Replay hands the driver the validated list in order; every driver status before the last is zero and the answer is the last one, so it succeeds exactly when the driver took all records and otherwise stopped at its first error. Decoding never fails and the final EPROTO is unreachable. |
| `DescriptorJournal.FirstErrorIsFirst` | src/bridge_service.c:2248-2270 | The answer of a replay is the driver's first error, what reached the driver ends with it, and it is zero exactly when the driver took everything. |
| `DescriptorJournal.CheckRecord` | src/bridge_service.c:2215-2243 | One record at an offset is judged by its frame, its decoding and its padding exactly as specified. |
| `DescriptorJournal.CheckPadding` | src/bridge_service.c:2237-2242 | The loop accepts exactly zero padding. |
| `JournalService.Service.AnswerFlush` | src/bridge_service.c:2272-2323 | The status is exactly the specified one: EPROTO, ESTALE, ERANGE, ENOMEM, the validator's, or the driver's first error; the driver is handed exactly the journal's updates up to that error; success advances the shared counter by one to the sequence named and failure leaves it. |
| `JournalService.FlushSucceeds` | src/bridge_service.c:2272-2323 | A flush succeeds if and only if its 24 bytes name the generation, the next sequence, a length within the region and a legal count, and that many valid updates are there, copied and all taken by the driver; and then all of them reached it. |
| `JournalService.FlushFieldsLie` | src/protocol.c:4222-4245 | A flush decodes if and only if it is 24 bytes of nonzero generation, sequence, length and count within the limits, each in its place; anything else is EPROTO. |
| `JournalService.TransactionSucceeds` | src/bridge_service.c:2325-2392 | A transaction succeeds if and only if it decodes, comes next in its generation, its journal, if it has one, is copied, valid and all taken by the driver, and the allocation succeeds. |
| `JournalService.Service.AnswerTransaction` | src/bridge_service.c:2325-2392 | The same for the transaction path, whose last step is the allocation. |
| `JournalService.Service.ServeRing` | src/bridge_service.c:2741-2834 | The ring worker answers EDEADLK for a failed lock, or a failed unlock after success, and the transaction's own status otherwise; the sequence is consumed if and only if the lock and the transaction succeeded. |
| `JournalService.Run` | src/bridge_service.c:2272-2834 | In any serial order of requests over the three paths every answer is the specified one, the driver is handed exactly the specified updates in order, and the accepted sequences are 1, 2, 3, ..., each consumed by one request that named it, in order, none missing; only an unlock failure is an error that consumed. |
| `JournalService.Service.CheckSequence` | src/bridge_service.c:2288-2295 | Wrong generation, exhausted counter or a sequence other than the next is stale; only then is the length checked. |
| `JournalService.Service.ReplayJournal` | src/bridge_service.c:2297-2314 | Copies, validates and replays: the status is ENOMEM without room, the validator's for a copy it refuses, and otherwise the driver's first error or zero; exactly the updates up to that error reach the driver, in order, and none of a refused copy. |
| `JournalService.Service.Transact` | src/bridge_service.c:2336-2384 | The steps shared by both transaction paths end with exactly the specified status, hand the driver exactly the specified updates, and advance the counter exactly on success. |
| `FrameSync.Run` | src/frame_sync.c:98-202 | Every interleaving of the loads and stores of one producer and one consumer keeps the invariant. |
| `FrameSync.LockStep` | src/frame_sync.c:105-137 | consumed <= produced <= consumed + 1, both within the frame count, and the stores are frame 1 produced, frame 1 consumed, frame 2 produced, and so on. |
| `FrameSync.FailureStops` | src/frame_sync.c:98-163 | A publish or wait that starts after a stored failure fails, and each side stores at most one more sequence. |
| `FrameSync.FailureStays` | src/frame_sync.c:183-202 | A stored failure is never withdrawn. |
| `FrameSync.SuccessMeansStored` | src/frame_sync.c:105-137 | A publish that returned success did store its frame. |
| `FrameSync.SuccessfulWaitSaw` | src/frame_sync.c:139-181 | A wait that returned success returned a frame past the one its caller knew, which the other side had stored. |
| `FrameSync.WaitDecides` | src/frame_sync.c:139-181 | A look at the awaited frame returns it when it is past, goes on waiting when it is equal, and fails with EPROTO when it is before. |
| `FrameSync.PublishDecides` | src/frame_sync.c:105-137 | A publish passes its checks exactly for its side's next frame within the count with the other side in place; out of turn it is ERANGE and too early EBUSY. |
| `FrameSync.FailureIsOwn` | src/frame_sync.c:183-202 | A failure is stored as the failing side's own status and leaves everything else alone. |
| `FrameSync.FramePasses` | src/frame_sync.c:98-181 | From every quiet point of every run one more frame can pass: both publishes succeed and each wait returns the other side's new frame. |
| `FrameSync.StoreKeeps` | src/frame_sync.c:111-137 | A store made after stale loads still finds the other side where the check saw it. |
| `FrameSync.ActKeeps` | src/frame_sync.c:98-202 | Each load, store, wake and return keeps the invariant. |
| `VisibleBatch.TokenMatches` | src/visible_batch.c:19-25 | The accumulating comparison is equality. |
| `VisibleBatch.TokenIsNonzero` | src/visible_batch.c:27-33 | The accumulating test finds any nonzero byte. |
| `VisibleBatch.Region.Run` | src/visible_batch.c:91-142 | The status is exactly that of the first failing check, the validator's included; an accepted execute names the bytes at its place in the region, becomes the last sequence and is above all before; a refused one changes nothing. |
| `VisibleBatch.ExecuteSucceeds` | src/visible_batch.c:91-142 | An execute is accepted if and only if it is whole, names the region's token, its generation, a new sequence and a stretch inside it, and that stretch holds a valid batch of that sequence. |
| `VisibleBatch.RunAll` | src/visible_batch.c:91-142 | Whatever is requested and whatever the region holds, accepted sequences strictly increase. |
| `VisibleIngress.Ingress.SubmitEnter` | src/visible_ingress.c:107-131 | A batch is taken in, as the one that is ready, exactly when accepting, not stopped and none is outstanding; otherwise nothing changes. |
| `VisibleIngress.Ingress.SubmitWake` | src/visible_ingress.c:132-145 | The submitter returns exactly when its batch is completed or the service stopped, with the completion's status unless stopped. |
| `VisibleIngress.Ingress.WaitEnter` | src/visible_ingress.c:486-522 | A waiter opens the door, and returns exactly when the service stopped or a batch is ready and unclaimed, which it then claims, closing the door; otherwise it blocks and the door stays open. |
| `VisibleIngress.Ingress.WaitWake` | src/visible_ingress.c:501-522 | A timeout claims nothing and loses nothing. |
| `VisibleIngress.Ingress.Complete` | src/visible_ingress.c:524-542 | Completing succeeds exactly for a claimed batch not completed yet, records its status and opens the door only for an accepted success. |
| `VisibleIngress.Ingress.Stop` | src/visible_ingress.c:554-576 | Stopping changes no batch's stage. |
| `VisibleIngress.LogIsOrderly` | src/visible_ingress.c:107-145 | Any log that follows the reference has each ticket submitted, claimed, completed and answered at most once, each step justified by the one before, and answers equal to completions unless stopped. |
| `VisibleIngress.Run` | src/visible_ingress.c:107-576 | Every interleaving of the critical sections, with timeouts and stops, follows the reference. |
| `VisibleIngress.HandOver` | src/visible_ingress.c:107-542 | Any number of batches in turn go all the way: each is taken as submitted and its submitter gets the completion's status. |
| `VisibleIngress.Ingress.TryClaim` | src/visible_ingress.c:500-519 | One pass of the waiting loop claims the ready batch at most once. |
| `FirstRejection.Run` | src/first_rejection.c:156-213 | Every interleaving of any number of reporting, counting and snapshotting threads keeps the invariant. |
| `FirstRejection.OneWinner` | src/first_rejection.c:156-213 | At most one thread wins and one record is written; a report call returns only in the state EMITTED, with exactly one winner. |
| `FirstRejection.RecordIsTheSnapshot` | src/first_rejection.c:204-213 | The written record, the shared snapshot and every snapshot copied after the state left OPEN are the same. |
| `FirstRejection.SnapshotStaysFrozen` | src/first_rejection.c:69-78 | Once a winner filled in the snapshot nothing changes it, its counters, the winner or the record. |
| `FirstRejection.SnapshotSaysWhatHappened` | src/first_rejection.c:69-213 | In every run each counter of the snapshot and of the record is how often it was counted, and the rest is exactly the winner's report. |
| `FirstRejection.ReportGetsThrough` | src/first_rejection.c:156-213 | A thread that reports undisturbed while the state is open fills in the snapshot, writes it as the record and returns with the state EMITTED. |
| `FirstRejection.CountGetsThrough` | src/first_rejection.c:69-78 | One that counts while the state is open adds one to its own counter and to nothing else. |
| `FirstRejection.TakeGetsThrough` | src/first_rejection.c:244-252 | One that takes the snapshot gets it as it is and changes nothing. |
| `FirstRejection.UnlockKeeps` | src/first_rejection.c:170-181 | A losing thread leaves the mutex knowing that the state has left OPEN. |
| `FirstRejection.ActKeeps` | src/first_rejection.c:69-304 | Each atomic access, mutex operation and write of any thread keeps the invariant. |
| `AliasResolution.OneEnd` | scripts/generate-dxvk-dispatch-policy.py:35-62 | With unique names an alias chain has one end only. |
| `AliasResolution.NoEndMeansCyclicOrDangling` | scripts/generate-dxvk-dispatch-policy.py:58-61 | A declared name has no real command at its end exactly when its chain is cyclic or dangling. |
| `AliasResolution.OrderIsIrrelevant` | scripts/generate-dxvk-dispatch-policy.py:35-62 | Two orders of the same registry have the same outcome. |
| `AliasResolution.Pass` | scripts/generate-dxvk-dispatch-policy.py:50-57 | One pass resolves what it can; a pass without change leaves only aliases whose target is unknown. |
| `AliasResolution.CanonicalNames` | scripts/generate-dxvk-dispatch-policy.py:35-62 | Terminates; maps each declared name to the real command at the end of its chain, or raises exactly when some name has none. |
| `AliasResolution.EndedChain` | scripts/generate-dxvk-dispatch-policy.py:48-61 | A chain with an end neither dangles nor visits a name twice. |
| `DispatchPolicy.CompareIsOrder` | src/dxvk_dispatch_policy.c:36-43 | The comparison's sign is the sort order and zero is equality. |
| `DispatchPolicy.LessIsTotal` | scripts/generate-dxvk-dispatch-policy.py:165-165 | Names are totally ordered. |
| `DispatchPolicy.Classify` | scripts/generate-dxvk-dispatch-policy.py:112-157 | Raises exactly on an invalid or repeated record and otherwise classifies each record. |
| `DispatchPolicy.EntryMeans` | scripts/generate-dxvk-dispatch-policy.py:112-157 | What an entry says: own name, scope and count; canonical name by scope; executable if and only if listed, and of the rest required if and only if some stage reached it. |
| `DispatchPolicy.EntryIsRefusedOnlyFor` | scripts/generate-dxvk-dispatch-policy.py:112-157 | The exact list of reasons for which a measured command has no entry. |
| `DispatchPolicy.SortByName` | scripts/generate-dxvk-dispatch-policy.py:165-165 | The table has the same entries in strictly ascending order of name. |
| `DispatchPolicy.Generate` | scripts/generate-dxvk-dispatch-policy.py:88-165 | Raises exactly when the evidence is inconsistent with the registry or the executable lists, and otherwise gives the sorted table of exactly its records. |
| `DispatchPolicy.Lookup` | src/dxvk_dispatch_policy.c:27-47 | Binary search returns the one entry with that name, and nothing when there is none. |
| `DispatchPolicy.Answer` | scripts/generate-dxvk-dispatch-policy.py:88-165 | From registry and evidence to lookup: a name is found exactly when it was measured, with the entry of its measurement. |
| `SchemaOrder.CycleIsNotFinite` | scripts/generate-vulkan-discovery-wire.py:58-73 | A structure inside itself at any depth has no finite layout. |
| `SchemaOrder.Orderer.Visit` | scripts/generate-vulkan-discovery-wire.py:58-73 | Terminates; appends the structure after all its parts and keeps what was there, or raises, and then something inside the structure is unknown or contains itself. |
| `SchemaOrder.Order` | scripts/generate-vulkan-discovery-wire.py:55-76 | Raises exactly when something inside a root, the root included, is unknown or contains itself, and otherwise orders every root after all it contains. |
| `SchemaOrder.FiniteUnlessBroken` | scripts/generate-vulkan-discovery-wire.py:55-76 | A structure has a layout of finite depth if and only if nothing inside it is unknown or contains itself. |
| `SchemaOrder.OrderedIsFinite` | scripts/generate-vulkan-discovery-wire.py:58-76 | Whatever comes in such an order has a finite layout. |
| `DiscoveryCodec.Generate` | scripts/generate-vulkan-discovery-wire.py:78-203 | Emits for every structure an encoder and a decoder with one statement per member, in order. |
| `DiscoveryCodec.Compile` | scripts/generate-vulkan-discovery-wire.py:43-203 | The whole generator: refuses exactly the schemas in which something inside a root is unknown or contains itself, and otherwise emits codecs that call only earlier ones. |
| `DiscoveryCodec.StructPuts` | src/vulkan_discovery.c:21-59 | The emitted encoder appends the wire form of the value, or sets the first error and nothing after it has an effect. |
| `DiscoveryCodec.StructReads` | src/vulkan_discovery.c:61-96 | The emitted decoder reads the wire form back to the value, NUL checks included, and stops right after it. |
| `DiscoveryCodec.StructConsumes` | src/vulkan_discovery.c:61-117 | On any input and for every schema: after an error the offset is frozen and the status never returns to zero, becoming at most EPROTO; a decoder without error had none before and consumed exactly the length fixed by the schema; and too short an input is an error. |
| `DiscoveryCodec.FirstErrorStaysIfRoom` | src/vulkan_discovery.c:61-117 | The first error is the one that stays, in every decoder and from every state, if and only if no array that must be terminated has length zero. |
| `DiscoveryCodec.RoomIsInTheSchema` | scripts/generate-vulkan-discovery-wire.py:137-157 | That condition can be read off the schema before generating anything. |
| `DiscoveryCodec.ValueHasStructSize` | scripts/generate-vulkan-discovery-wire.py:78-203 | Every value of a structure has the length its codec is for. |
| `DiscoveryCodec.EmptyTerminatedArrayReplacesTheError` | scripts/generate-vulkan-discovery-wire.py:148-157 | A schema of one structure whose emitted decoder meets a too short input first and reports a missing NUL. |
| `DiscoveryCodec.PayloadRoundTrip` | src/vulkan_discovery.c:100-171 | A value that fits is encoded and decodes to itself, one that does not is refused, and only payloads of the fixed length are accepted. |
| `DiscoveryCodec.CountedRoundTrip` | src/vulkan_discovery.c:173-216 | A list of queue families is refused exactly when too long or too large, and otherwise decodes to itself. |

## Left out

- Sockets, descriptor passing, memory mapping, seals, process setup and the dispatch loop of the service: plumbing.
- Everything behind the native Vulkan contexts, the loader and the probes: oracles stand in for the calls the modelled code makes.
- Clocks, profiling counters, diagnostics and JSON: a timeout is a choice. Statistics fields of the dispatch policy are not kept.
- Races inside one claim, publish or disable: each is one step, so a claim that has read a bank's records and stores the cursor after the bank was cleared is not a run.
- Weak memory: every step is sequentially consistent. In the ring, reading both peer status words is one step, a futex wake always succeeds, and a message's bytes and length are copied in one step.
- Payload rules of the remaining opcodes (rendering, pipelines, draws, dynamic state, push constants, vertex and index buffers, descriptor binding in a batch, depth clears): the modelled validator treats them as unknown. Framing covers them, since it is proved for any payload check.
- Float comparisons: a float travels as its 32-bit word.
- Waking by a failing peer: it does not change the awaited word, so a racing waiter may sleep until its deadline; nothing is claimed about it.
- Scheduling fairness and termination of waits.
- All-or-nothing effects of journal replay: it may stop part way on a native error, and then only the counter is unchanged.
- The lifecycle and activity codecs, the pipeline wire codec, the relay and the triangle builders: each writes one message of a fixed layout and shares no state, loop or protocol with the code modelled here, so its round trip is that of `Commands.FixedPayload` with other fields.
- Overflow of the 64-bit diagnostic counters of the first-rejection snapshot.
- XML and JSON parsing and the text of the generated C: schema, registry and evidence are given as values, and generated functions as lists of statements. Only the first dimension of an array is seen, as in the generator.
- Mutex failures in the first-rejection diagnostic, and a `snprintf` overflow there other than as a write without a trace.
- The in-place construction of command and descriptor payloads: `CommandCodec` and `DescriptorCodec` append words to a sequence where the source fills a zeroed buffer; the batch buffer itself is an array written in place.
- The region seen by `VisibleBatch.Region.Run` may be rewritten by the client after validation; the model speaks of the bytes that were validated.
