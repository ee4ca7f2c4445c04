# Verification of Mulan's data plane, JSON library, SHA-1 and allocator

A Dafny 4.11 model of the parts of Mulan whose correctness is hard to see from their code, with machine-checked
proofs of what they promise.  `dafny verify dfyconfig.toml` checks everything.  Paths below are relative to the
root of the repository.

## What is modelled

**Reorder buffer and sequencing** (`Words`, `PacketTypes`, `ReorderModel`, `ReorderRuns`, `ReorderBuffer`,
`PacketOrdering`, `PacketStreams`, `Restoration`, `RestorationLimits`, `StageRuns`).  `ReorderBuffer.ReorderBuffer` is
the pair of power-of-two circular arrays with its wrapping 32-bit `min_seqn`, its overflow path with three nested
loops, draining and the emptiness scan.  Its methods are proved to do what the functions of `ReorderModel` say: there
the window slides over *unbounded* sequence numbers, and an overflow is given in closed form (`FillStop`: the first
free slot from the requested one on, or the place where the ready ring fills up).  `ReorderRuns` proves order and
conservation over every run of operations.  `PacketOrdering` has the sequencing and the reordering stage.
`Restoration` says when the buffer undoes what happened to a stamped stream in between: every schedule of insertions
and drains in which each packet *fits* restores it.  `RestorationLimits` shows that this condition is exact, that the
orders of arrival which some schedule restores are exactly those in which no packet comes a window ahead of one still
missing, and that otherwise packets are refused, as long as the numbers do not wrap around.  `StageRuns` is about
whole runs of the stage, calls that insert a batch and drain a batch.

**The multi-lane pipeline** (`Pipeline`, `PipelineSafety`, `PipelineProgress`, `PipelineCounters`, `PipelineSpread`,
`PipelineSkew`, `PipelineFairness`, `PipelineDealing`, `PipelineTurns`, `EndToEnd`).  The main thread and N workers are
a step system in the shipped configuration (`MEILI_MODE`, separate rings, no latency, rate or only-main mode); a
sequence of events is an arbitrary interleaving.  The invariant keeps the counters (also along the `goto` into the
inner loop, with its stale `batch_cnt_enq`), the order inside every lane, and a bound on every lane that comes from
the two ring indices going round in step.  From it follow conservation, order per lane, the end of the main thread's
wait on a full ring, and that every reachable state can be drained; `PipelineFairness` shows that every fair
interleaving drains it, in four rounds for each packet.  `PipelineDealing` says which lane each packet goes to: in
every interleaving the lanes dealt to are those of the received bursts, dealt in batches, lane after lane;
`PipelineTurns` says that each turn moves as much as there is and as fits.  `PipelineCounters` says exactly when the
`int` counters of the main loop overflow.  `PipelineSpread` bounds how far a delivered packet can be ahead of one still
under way, from the lanes being dealt to in turn; `PipelineSkew` builds runs that come close to the bound.  `EndToEnd`
composes the pipeline with the reordering stage: a window with room for that distance and one batch makes the stage
restore the stream behind every interleaving.

**SHA-1** (`Fips180`, `Sha1`, `Sha1Example`).  `Fips180` is FIPS 180-4 written down: functions and constants (section
4), padding (section 5.1.1) and the 80-word hash computation (section 6.1.2). `Sha1` is the program: the in-place
16-word schedule, rotating registers, rewritten Ch and Maj, the streaming context with its two-word bit counter, and
the padding written one byte at a time.  `Sha1Example` ties the standard's text to facts from outside it: the round
constants are square roots, and the digest of "abc" is the published one, byte by byte.

**cJSON** (`JsonText`, `JsonGrammar`, `JsonSyntax`, `JsonStrings`, `JsonSpelling`, `JsonDepth`, `JsonReading`,
`JsonLayout`, `JsonRoundTrip`, `JsonParser`, `JsonPrinter`, `JsonItems`, `JsonCompare`, `JsonValues`).  `JsonText` is
the string codec, with UTF-8 as in section 3 of RFC 3629 and surrogate pairs as in section 7 of RFC 8259;
`JsonGrammar` has trees, the text a tree is printed as, and what the recursive descent makes of any text, including
the offset where it fails.  `JsonParser.ParseBuffer` and `JsonPrinter.PrintBuffer` are the imperative parser (offset,
depth, estimated output buffer) and printer (growing buffer), proved against those functions for every input.  What
these functions mean is said by `JsonSyntax`, which knows neither parser nor printer: the texts of JSON as syntax
trees, with every blank, escape and digit as it is written, and the tree of values each means.  `JsonSpelling` proves
that whatever is written is read as what it means, `JsonReading` that whatever is read is written there, so that a
text is accepted as a tree exactly if it spells it; `JsonDepth` that nesting beyond the limit is always refused;
`JsonLayout` that the printer writes one of two layouts, given by where their blanks stand.  `JsonItems` is the linked
tree on the heap: edits of the child list, and deep copying.  `JsonCompare` is the comparison of trees, which turns out
to be an equivalence only where repeated keys agree, and `JsonValues` the values that it compares.

**The SmartNIC allocator** (`ResourceVectors`, `AllocationModel`, `AllocationRanking`, `Allocation`).  Bandwidth is
`real`, resources are integers, and demands and rates are one-hot at the same index with a positive rate, as the
comments of the Python code assume.  All branches of one allocation step are proved to place the same thing:
the largest number of units that the demand, the NIC and its allocable bandwidth allow.  The books stay balanced
over the whole run.

**Regular-expression batching** (`RegexBatching`).  The per-queue batches, the retry loop around partial device
accepts, the flat slot array that the queues share, and the return of finished jobs: if the device keeps answering,
every job that it took is counted after boundedly many polls.

Where the code and what one would expect of it differ, the statements follow the code:

- When an overflow takes the last place of the ready ring and the next slot is occupied too, the packet of that slot
  is written to the ring but never counted in: it is lost.  `ReorderRuns.StrandedExactly` says from the state before
  exactly when this happens and to which packet, `ReorderRuns.KeptExactly` and `RunKeptExactly` when an insertion and a
  run lose nothing, and `ReorderRuns.StrandingHappens` is an input that loses one.
- A duplicate number inside the window overwrites the earlier packet; it is counted as lost.
- `cJSON_Compare` finds an object unequal to its own copy if a key is repeated with different values
  (`JsonCompare.CopySame` gives the exact condition, `JsonCompare.RepeatedKeyDiffers` an example).  In general two trees
  compare equal exactly if they stand for the same value and neither gives a key two values (`JsonValues.SameExactly`).
- The header of cJSON advises to leave five bytes more than needed for a preallocated buffer; exactly one byte
  behind the terminating NUL is enough and necessary (`JsonPrinter.PrintPreallocated`).
- Printing has no nesting limit but parsing has: parsing undoes printing exactly up to depth 1000
  (`JsonRoundTrip.RoundTripExactly`), and every text of a deeper tree is refused (`JsonReading.RefusedExactly`).
- The parser takes more than RFC 8259 allows: any byte up to 32 as a blank, and numbers as `strtod` converts them,
  such as `-.5` or `01`, of at most 63 bytes.  `JsonReading.TextExactly` says what it takes, and that it takes nothing
  else.
- `parse_hex4` gives 0 for a byte that is no hexadecimal digit, so the escape `\uZZZZ`, which RFC 8259 does not allow,
  is accepted as a NUL (`JsonText.MalformedString`).  `JsonText.AcceptedExactly` says exactly which escapes are
  accepted.
- `SHA1Update` adds the buffer position to the length in 32 bits.  If that sum wraps, its copy runs past the 64-byte
  buffer (`Sha1.CopyOverruns`); otherwise it stays inside (`Sha1.CopyFits`), and the update is right.
- `batch_cnt_wait_on_enq` and `batch_cnt_tot_enq` move by the stale batch count at every idle turn, so they overflow if
  packets stay under way long enough (`PipelineCounters.CountersExact` and `CountersOverflow`).
- The shipped reorder window of 65536 has room for what one worker dealt full batches can do, and for up to seven dealt
  single packets (`EndToEnd.ShippedWindow`).  For two workers dealt full batches it is too small: some run of the
  pipeline, after which everything has been delivered, is restored by no schedule of insertions and drains, and every
  schedule has a packet refused (`EndToEnd.TooFar`).
- `find_next_snic` can return -1, and `allocate_on_bw` can yield None; both are failed runs here, and
  `Allocation.Allocator.ResourceAllocation` says what a failed run means.
- `rte_reorder_drain_up_to_seqn` chooses its branch by comparing 32-bit numbers without regard to their wrapping;
  the modelled branch is the one for numbers that are not below `min_seqn`.

## Model

| member | source | states |
|---|---|---|
| Words.MaskIsRemainder | src/utils/rte_reorder/rte_reorder.c:338-340 | masking with a power of two less one is the remainder, so ring indices wrap as intended |
| ReorderModel.PastUnique | src/utils/rte_reorder/rte_reorder.c:319-343 | the place where a given number of packets has been passed is unique: the loop's stopping point has one closed form |
| ReorderModel.OccupiedUpdate | src/utils/rte_reorder/rte_reorder.c:385-397 | storing a packet in a slot adds exactly that packet to the window and removes exactly the one it displaces |
| ReorderRuns.InsertKeepsInv | src/utils/rte_reorder/rte_reorder.c:350-414 | after any insertion every slot still holds only the packet its place stands for, and ready packets are increasing and before the window |
| ReorderRuns.ApplyKeepsInv | src/utils/rte_reorder/rte_reorder.c:299-554 | every operation keeps the invariant |
| ReorderRuns.ApplyInOrder | src/utils/rte_reorder/rte_reorder.c:416-445 | what one operation drains is strictly increasing in unbounded number and lies between the floors before and after |
| ReorderRuns.ApplyConserves | src/utils/rte_reorder/rte_reorder.c:319-445 | one operation: packets held plus accepted are packets held, drained and lost, as multisets |
| ReorderRuns.EarlySlotFree | src/utils/rte_reorder/rte_reorder.c:398-407 | if the overflow advances far enough, the recomputed offset lies in the window and its slot is empty: an early packet overwrites nobody |
| ReorderRuns.LostExactly | src/utils/rte_reorder/rte_reorder.c:330-341 | an insertion loses exactly what the state before it says: the packet whose number comes again, or the one behind the packet that takes the last free ready place, or none |
| ReorderRuns.StrandedExactly | src/utils/rte_reorder/rte_reorder.c:319-343 | an overflow strands a packet if and only if the packets before the first free slot use up all free ready places and the next slot is occupied; it is the packet of that slot |
| ReorderRuns.KeptExactly | src/utils/rte_reorder/rte_reorder.c:319-407 | an insertion conserves packets if and only if its number is new and its overflow strands nobody |
| ReorderRuns.StrandingHappens | src/utils/rte_reorder/rte_reorder.c:330-341 | with a full window of two slots, inserting the next number loses the second packet |
| ReorderRuns.LateRefused | src/utils/rte_reorder/rte_reorder.c:371-412 | a packet is refused as out of range if and only if it is 1 to 2^32 - 2*size behind the window, and then nothing changes |
| ReorderRuns.StoredInPlace | src/utils/rte_reorder/rte_reorder.c:385-407 | an accepted packet sits in the slot of its unbounded number, which its 32-bit number is the residue of |
| ReorderRuns.NoSpaceExactly | src/utils/rte_reorder/rte_reorder.c:398-403 | an early packet is refused for lack of space if and only if the packets in front of the slot to reach use up the free ready places, and none is stranded just there; the ready ring is full afterwards |
| ReorderRuns.DrainStops | src/utils/rte_reorder/rte_reorder.c:416-445 | a drain that yields fewer packets than asked for has left none ready, and the next number is missing |
| ReorderRuns.DrainUpToComplete | src/utils/rte_reorder/rte_reorder.c:503-522 | a drain up to a number yields nothing from it on, and leaves nothing before it unless the output is full |
| ReorderRuns.RunInOrder | src/utils/rte_reorder/rte_reorder.c:350-445 | over every run the concatenated drained packets are strictly increasing, even as the 32-bit numbers wrap |
| ReorderRuns.RunConserves | src/utils/rte_reorder/rte_reorder.c:319-445 | over every run each packet held or accepted is held, drained or lost, exactly once |
| ReorderRuns.RunKeptExactly | src/utils/rte_reorder/rte_reorder.c:319-445 | a run loses no packet if and only if each of its insertions is of a new number and strands nobody |
| ReorderBuffer.ReorderBuffer.constructor | src/utils/rte_reorder/rte_reorder.c:67-122 | an initialised buffer is the empty, uninitialised window at 0 |
| ReorderBuffer.ReorderBuffer.FillOverflow | src/utils/rte_reorder/rte_reorder.c:299-348 | the nested loops end, stop where the closed form says, queue exactly the packets passed over and report how far they moved |
| ReorderBuffer.ReorderBuffer.Insert | src/utils/rte_reorder/rte_reorder.c:350-414 | on the circular arrays, an insertion does exactly what the sliding window over unbounded numbers does, with the matching status |
| ReorderBuffer.ReorderBuffer.Drain | src/utils/rte_reorder/rte_reorder.c:416-445 | draining yields the ready packets, then the gapless head of the window, in that order and no more than asked for; the rest of the output is untouched |
| ReorderBuffer.ReorderBuffer.DrainUpTo | src/utils/rte_reorder/rte_reorder.c:503-522 | draining up to a number yields the ready packets and every packet before the number, skipping gaps, up to the limit |
| ReorderBuffer.ReorderBuffer.IsEmpty | src/utils/rte_reorder/rte_reorder.c:525-542 | true if and only if neither ring holds a packet |
| ReorderBuffer.ReorderBuffer.SetMinSeqn | src/utils/rte_reorder/rte_reorder.c:544-554 | only an empty buffer gets a new least number, and it says whether it did |
| PacketOrdering.Sequencer.Exec | src/packet_ordering/packet_ordering.c:61-77 | packets get consecutive 32-bit numbers, and nothing else of the batch changes |
| PacketOrdering.Reorderer.constructor | src/packet_ordering/packet_ordering.c:80-101 | the reordering stage starts as an empty window at the first number, expecting that number |
| PacketOrdering.Reorderer.Exec | src/packet_ordering/packet_ordering.c:113-172 | one call inserts the batch in order and drains one batch; its output is that of the run on the model |
| PacketOrdering.Reorderer.Verify | src/packet_ordering/packet_ordering.c:175-197 | no error is reported if and only if the numbers are consecutive after the last one seen |
| PacketOrdering.Reorderer.ExecVerified | src/packet_ordering/packet_ordering.c:113-197 | with verification on, a call reports no error if and only if what it drains goes on consecutively from the call before |
| Restoration.FeedOne | src/utils/rte_reorder/rte_reorder.c:385-397 | a packet within the window, or within a window's length behind a run at its head that the ready ring has room for, is stored in its place; nothing is lost or passed over |
| Restoration.DrainNext | src/utils/rte_reorder/rte_reorder.c:416-445 | a drain yields the next places of the stream, one after another |
| Restoration.StreamRestored | src/packet_ordering/packet_ordering.c:61-172 | stamped packets fed in any order, each fitting when inserted, come out as the stream without a gap; all are stored and nothing is lost |
| Restoration.StreamCompleted | src/packet_ordering/packet_ordering.c:113-172 | once the whole stream has been fed, draining delivers all the rest of it |
| RestorationLimits.RestoredExactly | src/utils/rte_reorder/rte_reorder.c:299-445 | for every schedule of insertions and drains of a complete stream: all of it comes out in order if and only if every packet fits when it is inserted |
| RestorationLimits.PromptExactly | src/utils/rte_reorder/rte_reorder.c:350-445 | drained behind every insertion, a stream is restored if and only if no packet comes a window ahead of one that has not come yet |
| RestorationLimits.RestorableExactly | src/utils/rte_reorder/rte_reorder.c:350-445 | an order of arrival is restored by some schedule if and only if that holds: no schedule does better than prompt draining |
| RestorationLimits.PassedRefused | src/utils/rte_reorder/rte_reorder.c:404-412 | a packet whose place the window has passed is refused when it comes |
| RestorationLimits.FarRefused | src/utils/rte_reorder/rte_reorder.c:398-412 | if a packet comes a window ahead of a missing one, every schedule has an insertion refused, as long as the numbers do not wrap around |
| StageRuns.CallsRestore | src/packet_ordering/packet_ordering.c:113-172 | calls with batches of at most 64 restore every stream that is closer than the window less one batch, however it is split |
| StageRuns.CallsComplete | src/packet_ordering/packet_ordering.c:113-172 | once the whole stream has been fed, further calls of the stage, each draining 64, deliver all the rest of it |
| StageRuns.RestoredVerifies | src/packet_ordering/packet_ordering.c:175-197 | a restored stream never fails the verification, across calls and across the wrap |
| StageRuns.CallsVerify | src/packet_ordering/packet_ordering.c:113-197 | over a run of calls in which every packet fits, no call's verification reports an error, the last number being carried from call to call |
| PipelineSafety.StartInv | src/runtime/run_dpdk.c:215-229 | the start state satisfies the invariant |
| PipelineSafety.StepKeepsInv | src/runtime/run_dpdk.c:286-609 | every step of the main thread or of a worker keeps the invariant of counters, order and lane bounds |
| PipelineSafety.WorkerKeepsInv | src/runtime/pipeline.c:101-129 | a worker's turn keeps the invariant, whatever part of its burst fits |
| PipelineSafety.EnqueueKeepsInv | src/runtime/run_dpdk.c:408-437 | a partial or complete push of the batch keeps the invariant |
| PipelineSafety.AggregateKeepsInv | src/runtime/run_dpdk.c:472-609 | collecting from an output ring keeps the invariant, also when reached by the goto with a stale batch count |
| PipelineSafety.InFlight | src/runtime/run_dpdk.c:291-323 | at the head of the receive loop, received minus sent packets is the waiting counter and exactly what rings and workers hold |
| PipelineSafety.ExactlyOnce | src/runtime/run_dpdk.c:408-544 | every packet dealt is in exactly one place: delivered once, or once in its own lane |
| PipelineSafety.LanesInOrder | src/runtime/pipeline.c:103-129 | the collected stream is an interleaving of the lanes' streams, each a prefix of what the lane was dealt, strictly increasing |
| PipelineSafety.DeliveredAll | src/runtime/run_dpdk.c:537-544 | a drained pipeline has delivered every packet received, stamped with its place of arrival |
| PipelineProgress.LaneBound | src/runtime/run_dpdk.c:412-437 | no lane ever holds more than a full ring, a worker burst and an input batch |
| PipelineProgress.WorkerCanPush | src/runtime/pipeline.c:121-129 | while the main thread spins on a full input ring, that lane's worker has room for all it has in hand |
| PipelineProgress.WaitEnds | src/runtime/run_dpdk.c:424-429 | in every interleaving the wait on a full ring ends after at most two turns of that lane's worker |
| PipelineProgress.Improve | src/runtime/run_dpdk.c:286-609 | as long as packets are under way, some step moves one, without new arrivals |
| PipelineProgress.CanDrain | src/runtime/run_dpdk.c:291-300 | from every reachable state a run leads to the head of the loop with everything received delivered: no deadlock |
| PipelineFairness.RoundLowers | src/runtime/run_dpdk.c:286-609 | every interleaving in which each worker has a turn and the main thread enough to visit each lane brings the end nearer |
| PipelineFairness.FairDrains | src/runtime/run_dpdk.c:286-609 | every interleaving with four such rounds for each packet under way, and no new arrivals, delivers all that was received |
| PipelineCounters.CountersExact | src/runtime/run_dpdk.c:291-300 | at the head of the loop the counters are off by the idle turns times the last batch, and fit an int if and only if that, plus the burst, does |
| PipelineCounters.CountersFit | src/runtime/run_dpdk.c:607-609 | everywhere in the loop the counters fit an int as long as 64 times the idle turns does |
| PipelineCounters.CountersOverflow | src/runtime/run_dpdk.c:291-300 | in every configuration a run overflows them: a worker stands still with one packet while the main thread polls |
| PipelineDealing.DealingLaw | src/runtime/run_dpdk.c:286-437 | in every interleaving the packets have been dealt as the received bursts say: each burst in batches, one lane after the other, going on with the lane behind the last one used; at the head of the receive loop all of them, and the next lane is the one in turn |
| PipelineDealing.BurstLaw | src/runtime/run_dpdk.c:328-437 | packet i of a burst goes to the lane i / batch size places behind the one in turn when the burst came, whatever happens in between |
| PipelineTurns.WorkerTurn | src/runtime/pipeline.c:101-129 | a worker takes its whole input ring or 64 packets, and pushes all it has in hand or until its output ring is full |
| PipelineTurns.PushTurn | src/runtime/run_dpdk.c:408-437 | the main thread pushes the batch on until all of it is in the lane's ring or the ring is full |
| PipelineTurns.CollectTurn | src/runtime/run_dpdk.c:537-609 | it collects all that an output ring holds and goes on with the next one |
| PipelineSpread.StepInTurn | src/runtime/run_dpdk.c:328-437 | every step keeps the lanes dealt to in turn: between two packets of a lane come at most a batch for each other lane (who gets which packet is `PipelineDealing`) |
| PipelineSpread.Outstanding | src/runtime/run_dpdk.c:408-544 | while a packet is under way, at most a full lane's worth of rounds of packets has been dealt since |
| PipelineSpread.StartClose | src/runtime/run_dpdk.c:286-609 | in every run, no packet is delivered further than that ahead of one that is still under way |
| EndToEnd.DeliveredDistinct | src/runtime/run_dpdk.c:408-544 | what the pipeline delivers is distinct and carries the number of its place of arrival |
| EndToEnd.StreamOut | src/packet_ordering/packet_ordering.c:113-172 | the pipeline's output, fed to the reordering buffer so that each packet fits, leaves as the stream that arrived, in order and without a gap |
| EndToEnd.StreamComplete | src/packet_ordering/packet_ordering.c:113-172 | with the pipeline drained, enough further calls of the stage, each draining 64, complete the stream in order of arrival |
| EndToEnd.StageKeepsUp | src/packet_ordering/packet_ordering.c:113-172 | fed in batches of at most 64, the window stays close enough behind the pipeline that every packet falls into it |
| EndToEnd.StageRestores | src/packet_ordering/packet_ordering.c:113-172 | behind every run of the pipeline, however its output is split into batches, a window with room for the distance and one batch restores the stream without a loss |
| EndToEnd.StageCompletes | src/packet_ordering/packet_ordering.c:113-172 | behind a drained pipeline a fixed number of further calls delivers everything received, in order |
| EndToEnd.StageVerifies | src/packet_ordering/packet_ordering.c:113-197 | behind every run of the pipeline, no call of the stage with verification on reports an error |
| EndToEnd.ShippedWindow | src/packet_ordering/packet_ordering.h:18-19 | the shipped window has the room that takes for one worker dealt full batches only, and for at most seven dealt single packets |
| EndToEnd.TooFar | src/runtime/run_dpdk.c:286-609 | with two or more workers, for every window up to a ring times what the other lanes are dealt in a round, some run that delivers everything is restored by no schedule, and each schedule has a packet refused |
| Sha1.SwapLoads | src/example/libs/sha/sha1.c:29-30 | loading a word and swapping it reads its bytes most significant first |
| Sha1.MixIsF | src/example/libs/sha/sha1.c:40-44 | the rewritten formulas are Ch, Parity and Maj |
| Sha1Example.ConstantsAreRoots | src/example/libs/sha/sha1.c:40-44 | the four round constants are the integer parts of the square roots of 2, 3, 5 and 10, times 2^30 |
| Sha1Example.Abc | src/example/libs/sha/sha1.c:277-291 | the digest of "abc" is a9993e36 4706816a ba3e2571 7850c26c 9cd0d89d: initial values, round functions, rotations and byte order together |
| Sha1.R | src/example/libs/sha/sha1.c:36-44 | a round macro on rotated registers is one round of section 6.1.2, and leaves the next schedule word in place (what its constants are is `Sha1Example`) |
| Sha1.Expand | src/example/libs/sha/sha1.c:29-37 | the in-place circular schedule always holds the last sixteen words of the 80-word schedule |
| Sha1.Transform | src/example/libs/sha/sha1.c:49-172 | a block is compressed exactly as section 6.1.2 says |
| Sha1.NextBlock | src/example/libs/sha/sha1.c:208-217 | hashing one more block is one more compression, from any block boundary |
| Sha1.CountAdds | src/example/libs/sha/sha1.c:203-206 | the two-word counter with its carry counts bits modulo 2^64 |
| Sha1.CountPosition | src/example/libs/sha/sha1.c:207 | the buffer position read out of the counter is the length modulo 64, even after the counter wrapped |
| Sha1.Context.constructor | src/example/libs/sha/sha1.c:177-188 | a new context has absorbed the empty message |
| Sha1.Context.AddCount | src/example/libs/sha/sha1.c:203-206 | the counter words are updated to the new length |
| Sha1.Context.Update | src/example/libs/sha/sha1.c:193-221 | absorbing bytes appends them to the message, wherever it is split, as long as buffer position and length fit 32 bits together |
| Sha1.CopyFits | src/example/libs/sha/sha1.c:207-220 | the last copy of an update stays inside the buffer if and only if position and length together fit 32 bits |
| Sha1.CopyOverruns | src/example/libs/sha/sha1.c:207-220 | with one byte in the buffer the greatest length is copied whole behind it, with none only its last 63 bytes |
| Sha1.Context.AppendPadding | src/example/libs/sha/sha1.c:259-265 | the byte-by-byte padding is that of section 5.1.1 |
| Sha1.PaddingStops | src/example/libs/sha/sha1.c:261-265 | the padding loop ends at the least number of zeros that leaves room for the length |
| Sha1.LengthField | src/example/libs/sha/sha1.c:254-257 | the counter bytes are the 64-bit big-endian length |
| Sha1.Context.Final | src/example/libs/sha/sha1.c:226-275 | the digest is FIPS 180-4's of the absorbed message, and the context is wiped |
| Sha1.Hash | src/example/libs/sha/sha1.c:277-291 | hashing a whole string gives its FIPS 180-4 digest, which `Sha1Example.Abc` evaluates for one |
| JsonText.Utf8Means | src/thirdparty/cJSON/cJSON.c:644-699 | the bytes written for a code point stand for that code point |
| JsonText.Utf8Shortest | src/thirdparty/cJSON/cJSON.c:644-676 | no shorter byte sequence stands for it |
| JsonText.PairMeans | src/thirdparty/cJSON/cJSON.c:606-636 | the value computed from a surrogate pair is the code point if and only if it is its pair |
| JsonText.Hex4Means | src/thirdparty/cJSON/cJSON.c:550-583 | reading four digits, of either case, gives the number they spell |
| JsonText.LiteralMeans | src/thirdparty/cJSON/cJSON.c:587-704 | every character's escape, one sequence or a surrogate pair, in digits of either case, decodes to its UTF-8 form and is consumed whole |
| JsonText.AcceptedExactly | src/thirdparty/cJSON/cJSON.c:550-704 | an escape is accepted if and only if it is one of a character, or its first four bytes are not all digits; those become a NUL |
| JsonText.MalformedString | src/thirdparty/cJSON/cJSON.c:550-573 | the string literal with the escape `\uZZZZ` is accepted, as one NUL |
| JsonText.QuoteClosed | src/thirdparty/cJSON/cJSON.c:722-748 | the scan for the closing quote stops exactly behind an escaped string |
| JsonText.StringRoundTrip | src/thirdparty/cJSON/cJSON.c:707-956 | parsing a printed NUL-free string gives it back and consumes exactly its text |
| JsonStrings.ShortMeans | src/thirdparty/cJSON/cJSON.c:771-795 | the two-character escapes are those of RFC 8259, and stand for the bytes it gives them |
| JsonStrings.LiteralRead | src/thirdparty/cJSON/cJSON.c:707-833 | a string literal of plain bytes and escapes of any kind, standing anywhere, is read as what its pieces stand for, and read whole |
| JsonStrings.LiteralBack | src/thirdparty/cJSON/cJSON.c:707-833 | whatever literal is read consists of such pieces |
| JsonStrings.NumeralConverts | src/thirdparty/cJSON/cJSON.c:276-350 | a numeral, with or without sign, point and exponent, is converted whole |
| JsonStrings.NumeralRead | src/thirdparty/cJSON/cJSON.c:276-350 | what is converted behind a minus or a digit is a numeral |
| JsonSpelling.ValueRead | src/thirdparty/cJSON/cJSON.c:1222-1613 | every value, written with any blanks around its parts and any escapes, is read as what it means, wherever it stands and up to the nesting limit |
| JsonReading.ValueBack | src/thirdparty/cJSON/cJSON.c:1222-1613 | whatever is read as a value is written there by the syntax and means what it is read as |
| JsonReading.TextRead | src/thirdparty/cJSON/cJSON.c:1010-1087 | a text that spells a value within the limit, with or without a byte order mark, is read as its meaning, whatever follows unless a number goes on |
| JsonReading.TextBack | src/thirdparty/cJSON/cJSON.c:1010-1087 | whatever is read off the beginning of a text is spelled there |
| JsonReading.TextExactly | src/thirdparty/cJSON/cJSON.c:1010-1087 | a text is read to its end as a tree if and only if it spells the tree, between blanks, and the tree is nested at most 1000 deep |
| JsonReading.RefusedExactly | src/thirdparty/cJSON/cJSON.c:1356-1360 | a text that spells a value is refused if and only if the value is nested more than 1000 deep |
| JsonDepth.ParsedHeight | src/thirdparty/cJSON/cJSON.c:1356-1360 | no tree the parser builds, from any text, is nested deeper than the limit |
| JsonDepth.ValueTooDeep | src/thirdparty/cJSON/cJSON.c:1356-1360 | wherever a value is written that is nested too deeply for that place, however it is written, parsing it fails |
| JsonLayout.PieceIs | src/thirdparty/cJSON/cJSON.c:905-951 | a printed byte is itself, its two-character escape or four lower-case digits, and means the byte |
| JsonLayout.Rendered | src/thirdparty/cJSON/cJSON.c:1277-1727 | every tree is printed as a text that means it; unformatted no blank stands outside strings, formatted a space behind each comma of an array, and each member on its own line behind tabs, with a tab behind its colon |
| JsonRoundTrip.ValueRoundTrip | src/thirdparty/cJSON/cJSON.c:1222-1727 | wherever the text of a tree stands, formatted or not and at any depth that leaves room, parsing it gives the tree and stops behind it |
| JsonRoundTrip.PrintThenParse | src/thirdparty/cJSON/cJSON.c:1010-1047 | a printed tree nested at most 1000 deep parses back to an equal tree, and only the NUL is left |
| JsonRoundTrip.RoundTripExactly | src/thirdparty/cJSON/cJSON.c:1222-1727 | parsing undoes printing if and only if the tree is nested at most 1000 deep; otherwise the printed text is refused |
| JsonRoundTrip.ThousandAndOne | src/thirdparty/cJSON/cJSON.c:1356-1360 | 1000 arrays inside one another come back, the text of 1001 is refused |
| JsonParser.RoomPairs | src/thirdparty/cJSON/cJSON.c:743-746 | at most every other byte starts an escape: the fact behind the estimate of the output size |
| JsonParser.LiteralRoom | src/thirdparty/cJSON/cJSON.c:794-802 | every literal leaves room for the bytes it decodes to |
| JsonParser.ParseHex4 | src/thirdparty/cJSON/cJSON.c:550-583 | the digit loop gives the value of four digits, or 0 |
| JsonParser.EncodeUtf8 | src/thirdparty/cJSON/cJSON.c:644-699 | writing from the last byte back to the first yields the UTF-8 form |
| JsonParser.ParseBuffer.SkipWhitespace | src/thirdparty/cJSON/cJSON.c:973-991 | whitespace is passed, the last byte never |
| JsonParser.ParseBuffer.Utf16ToUtf8 | src/thirdparty/cJSON/cJSON.c:587-704 | an escape or pair of escapes is decoded, with its length, or refused, exactly as `JsonText.Utf16Literal` does on every text |
| JsonParser.ParseBuffer.ScanString | src/thirdparty/cJSON/cJSON.c:722-748 | the first loop finds the closing quote and counts exactly the escapes before it |
| JsonParser.ParseBuffer.DecodeInto | src/thirdparty/cJSON/cJSON.c:755-816 | the second loop writes the decoded bytes and never leaves the estimated output, on any text |
| JsonParser.ParseBuffer.ParseString | src/thirdparty/cJSON/cJSON.c:707-833 | a string literal is decoded, or refused with the offset of the failing escape |
| JsonParser.ParseBuffer.ParseNumber | src/thirdparty/cJSON/cJSON.c:276-350 | at most 63 number characters are collected, and the offset moves behind what is converted |
| JsonParser.ParseBuffer.ParseValue | src/thirdparty/cJSON/cJSON.c:1222-1274 | on every text: the value or failure of the grammar, with its offset, and the depth comes back |
| JsonParser.ParseBuffer.ParseArray | src/thirdparty/cJSON/cJSON.c:1351-1442 | the item loop builds the grammar's items or fails where the grammar does |
| JsonParser.ParseBuffer.ParseObject | src/thirdparty/cJSON/cJSON.c:1507-1613 | the member loop builds the grammar's members or fails where the grammar does (which texts these are is `JsonReading`) |
| JsonParser.ParseWithOpts | src/thirdparty/cJSON/cJSON.c:1010-1087 | a whole text, with its byte order mark, is parsed; the end or the error position is reported inside the text |
| JsonPrinter.PrintBuffer.Ensure | src/thirdparty/cJSON/cJSON.c:383-468 | it succeeds if and only if the request fits the limit; then there is room and all earlier bytes survived |
| JsonPrinter.PrintBuffer.UpdateOffset | src/thirdparty/cJSON/cJSON.c:471-481 | the offset moves to the end of the C string behind it |
| JsonPrinter.CountEscapes | src/thirdparty/cJSON/cJSON.c:859-886 | the counted length is the length of the escaped string |
| JsonPrinter.NothingToEscape | src/thirdparty/cJSON/cJSON.c:895-903 | a string that does not get longer is its own escaped form: the copying shortcut is right |
| JsonPrinter.PrintBuffer.EscapeInto | src/thirdparty/cJSON/cJSON.c:905-951 | the second loop writes the escaped string |
| JsonPrinter.PrintBuffer.PrintStringPtr | src/thirdparty/cJSON/cJSON.c:837-956 | a string is printed if and only if its text fits, and then behind everything printed before |
| JsonPrinter.PrintBuffer.PrintNumber | src/thirdparty/cJSON/cJSON.c:484-547 | a number's text is printed unless it is longer than 25 bytes |
| JsonPrinter.PrintBuffer.PrintValue | src/thirdparty/cJSON/cJSON.c:1277-1348 | a tree is printed if and only if its text, its NUL and one byte fit; what was printed before survives every reallocation |
| JsonPrinter.PrintBuffer.PrintArray | src/thirdparty/cJSON/cJSON.c:1445-1504 | the same for an array, brackets and commas included |
| JsonPrinter.PrintBuffer.PrintObject | src/thirdparty/cJSON/cJSON.c:1616-1727 | the same for an object, with its indentation |
| JsonPrinter.Print | src/thirdparty/cJSON/cJSON.c:1097-1170 | the new C string is exactly the rendered text; only a text too long for an int fails |
| JsonPrinter.PrintPreallocated | src/thirdparty/cJSON/cJSON.c:1202-1219 | it succeeds if and only if the text, its NUL and one more byte fit the caller's buffer |
| JsonPrinter.RenderNulFree | src/thirdparty/cJSON/cJSON.c:471-481 | the text of a tree holds no NUL, so the end of what was printed can be found again |
| JsonItems.Item.GetArrayItem | src/thirdparty/cJSON/cJSON.c:1753-1770 | walking the list gives the child at a position, or null behind the last |
| JsonItems.Item.GetArraySize | src/thirdparty/cJSON/cJSON.c:1730-1751 | the number of children |
| JsonItems.Item.AddItemToArray | src/thirdparty/cJSON/cJSON.c:1858-1885 | the sequence of children gets the item at its end, and all links stay mutually consistent |
| JsonItems.Item.InsertItemInArray | src/thirdparty/cJSON/cJSON.c:2155-2182 | the item is inserted before the given position, or appended, with consistent links |
| JsonItems.Item.DetachItemViaPointer | src/thirdparty/cJSON/cJSON.c:2085-2113 | exactly the item is removed, its links are cleared, and the others close the gap |
| JsonItems.Item.DetachItemFromArray | src/thirdparty/cJSON/cJSON.c:2115-2123 | the same by position; nothing happens for a position that does not exist |
| JsonItems.Item.ReplaceItemViaPointer | src/thirdparty/cJSON/cJSON.c:2184-2217 | the replacement takes exactly the place of the item, which is cleared |
| JsonItems.Item.Duplicate | src/thirdparty/cJSON/cJSON.c:2564-2641 | the copy is made of new items only and is the same tree; the original is untouched |
| JsonCompare.GetObjectItem | src/thirdparty/cJSON/cJSON.c:1782-1812 | the first member with a matching key is found |
| JsonCompare.Compare | src/thirdparty/cJSON/cJSON.c:2840-2963 | the same item equals itself; otherwise the loops decide sameness: numbers by value, arrays element by element, objects by first matching keys both ways |
| JsonValues.SameExactly | src/thirdparty/cJSON/cJSON.c:2840-2963 | two trees compare equal if and only if they stand for the same value, objects as maps from folded keys, and neither gives a key two values |
| JsonValues.PlainSame | src/thirdparty/cJSON/cJSON.c:2869-2919 | if each number is written in one way only, trees without objects compare equal only to themselves |
| JsonCompare.SameSymmetric | src/thirdparty/cJSON/cJSON.c:2840-2963 | the comparison does not depend on the order of its arguments |
| JsonCompare.SameTransitive | src/thirdparty/cJSON/cJSON.c:2840-2963 | trees that compare equal to the same tree compare equal |
| JsonCompare.CopySame | src/thirdparty/cJSON/cJSON.c:2840-2963 | a tree compares equal to its copy if and only if members with matching keys compare equal, all the way down |
| JsonCompare.UniqueCopySame | src/thirdparty/cJSON/cJSON.c:2564-2641 | a tree with unique keys compares equal to its copy |
| JsonCompare.RepeatedKeyDiffers | src/thirdparty/cJSON/cJSON.c:2921-2957 | an object with a key repeated for two different values differs from its copy |
| ResourceVectors.CalculateRequiredBw | src/control/resource_allocation.py:51-55 | the largest product, at least 0 |
| ResourceVectors.ResourceGeq | src/control/resource_allocation.py:59-63 | true if and only if no element is smaller |
| ResourceVectors.ResourceDivide | src/control/resource_allocation.py:99-106 | for every positive rate, the largest number of units whose bandwidth fits |
| ResourceVectors.ResourceGetOneHot | src/control/resource_allocation.py:108-111 | the first element that is not zero, if there is one |
| AllocationModel.UnitsLargest | src/control/resource_allocation.py:114-207 | what a step places is the largest number that demand, NIC and allocable bandwidth all allow |
| AllocationModel.PlaceExcess | src/control/resource_allocation.py:169 | a step uses up exactly the bandwidth that the previous stage does not share |
| AllocationModel.PlaceBalanced | src/control/resource_allocation.py:114-193 | a step conserves resources per NIC, demand per stage and bandwidth per NIC, and makes nothing negative |
| AllocationModel.ShareBounded | src/control/resource_allocation.py:41-55 | no stage's bandwidth on a NIC exceeds the NIC's original bandwidth |
| AllocationRanking.AheadMeans | src/control/resource_allocation.py:11-38 | the key prefers NICs with other stages of the pipeline, then more bandwidth for the stage, then more of the resource it demands |
| AllocationRanking.AheadExactly | src/control/resource_allocation.py:11-38 | the order in full, in terms of allocations, bandwidth and resources, down to the other resources and the earlier place |
| AllocationRanking.EligibleMeans | src/control/resource_allocation.py:248-262 | for a stage with demand left, a NIC qualifies if and only if it has some of the demanded resource, nothing of the stage, and sharable and idle bandwidth not both 0 |
| AllocationRanking.ShareMeans | src/control/resource_allocation.py:41-44 | the sharable bandwidth is the previous stage's units on the NIC times its rate, and 0 for the first stage |
| AllocationRanking.SortedRanked | src/control/resource_allocation.py:239 | the sort ranks NICs by descending key, and NICs with equal keys keep their order |
| Allocation.Allocator.constructor | src/control/resource_allocation.py:267-312 | with nothing allocated the books balance |
| Allocation.Allocator.CalculateSharableBw | src/control/resource_allocation.py:41-44 | the bandwidth that the previous stage's allocation on the NIC carries |
| Allocation.Allocator.FindNextSnic | src/control/resource_allocation.py:231-264 | for a stage with demand left, none is found if and only if each NIC has none of the resource, or some of the stage already, or no sharable plus idle bandwidth; the NIC found has none of these faults and no other such NIC is ranked ahead of it |
| Allocation.Allocator.AllocateOnBw | src/control/resource_allocation.py:196-207 | where bandwidth is short, it places the largest number that fits, and finds no value if that is zero |
| Allocation.Allocator.AllocateOneSnic | src/control/resource_allocation.py:114-193 | all branches place the same largest number of units; the step fails if and only if bandwidth leaves no room for one |
| Allocation.Allocator.AllocateStage | src/control/resource_allocation.py:216-220 | a stage ends with its demand met or stuck, after at most one visit to each NIC: each NIC has one of these faults, or the best one has less bandwidth than one unit takes |
| Allocation.Allocator.ResourceAllocation | src/control/resource_allocation.py:212-228 | a successful run meets every demand exactly, a failed one has a stage stuck in that sense; conservation, non-negativity and the bandwidth bound hold after any run |
| RegexBatching.Engine.SearchLive | src/lib/regex/dpdk_bf_regex.c:717-756 | a packet goes to the next slot of its own queue with the next number; other queues' slots are untouched |
| RegexBatching.Engine.OfferAll | src/lib/regex/dpdk_bf_regex.c:655-681 | for every pattern of partial accepts that eventually progresses, the retry loop over `num_enqueued + q_offset` ends with the queue's slots taken once and in order, having polled as often as it offered |
| RegexBatching.Engine.SendOps | src/lib/regex/dpdk_bf_regex.c:638-688 | after a push everything given to the queue has been submitted, the batch is empty, and jobs were taken back as the device answered |
| RegexBatching.Engine.DequeuePipeline | src/lib/regex/dpdk_bf_regex.c:539-586 | one poll takes back and counts the least of what the device answers, a batch, and the jobs in flight |
| RegexBatching.Engine.Regex | src/lib/meili.c:101-127 | every call keeps the counters and batches consistent, polls at least once, counts all jobs in flight or one for each poll with an answer, and leaves the other queues alone |
| RegexBatching.RepliesEnough | src/lib/regex/dpdk_bf_regex.c:559-583 | a device that answers at least once in any `gap` polls answers k times in k * gap of them |
| RegexBatching.Engine.Scan | src/lib/meili.c:101-127 | over packets handed in one after the other: if the device keeps answering, the jobs it had at first are all counted after as many packets as there were jobs, times the longest it goes without an answer |
| RegexBatching.Engine.PostSearch | src/lib/regex/dpdk_bf_regex.c:783-797 | polling before leaving brings every job back or ends with the time; if the device keeps answering and there is time, enqueued and dequeued agree |
| RegexBatching.Engine.Submitted | src/lib/meili.c:101-127 | between calls the device has taken exactly the whole batches of a queue's packets; what it took and what the batch's slots hold are the packets in order, numbered from 1, and the counters agree |

## Left out

- DPDK, DOCA, sockets, mempools and packet memory: a packet is an identity and a sequence number; ring bursts move
  as much as fits, at one instant.
- Creation, naming, freeing and lookup of reorder buffers, and the argument checks of `rte_reorder_init`.
- ReorderBuffer.ReorderBuffer.DrainUpTo: models the branch for numbers at or behind `min_seqn`, because the branch that
  searches the ready ring has inclusive bounds that are wrong when its tail is behind its head, and no callers.
- RestorationLimits.FarRefused: is about streams of at most 2^32 - 2*size packets, because a packet whose place has been
  passed can be accepted 2^32 places later, under another number; that the stream is not restored holds without the
  bound (`RestorationLimits.RestoredExactly`).
- `reorder_exec` is composed with `seq_exec` directly, as its call sites are commented out.
- The pipeline's other modes (shared buffer, latency, rate, only main, remote), its shutdown by `force_quit`, its
  multi-stage topologies (`nb_pl_stages` is 1 in the shipped code), and byte counts and statistics.
- Counters of the main loop are integers that do not wrap: the run continues beyond the overflow that
  `PipelineCounters` finds.
- `pipeline_post_search`, which stops at the first empty ring, so no full flush is claimed.
- Sha1.Context.Update: requires buffer position plus length to fit 32 bits, because beyond that the code writes past its
  buffer.  The eighty unrolled rounds are written as sixteen groups of five, and the host is little-endian, as the code
  configures.
- JSON numbers: how much of a text `strtod` converts is modelled for decimal numbers, which are the only ones the
  parser collects; what the text is worth is not.  `strtod` and `sprintf` belong to the C library; a number is its
  text.  NaN and infinities, which print as null, are not trees here.
- JsonCompare.Compare: which number a text stands for is a parameter, because `strtod` is not modelled.  Whether the two
  arguments are the same item is a parameter too; items below them are taken to be different.
- EndToEnd.StageRestores: batches of at most 64 packets are fed, as many as one call drains.  For each order of arrival
  the condition is exact (`RestorationLimits`); the least window that serves every run of a configuration is only
  bounded, from below by `EndToEnd.Reachable` and from above by the distance and one batch.
- Raw items, references, custom allocators and their failures, locales, constant strings, and `cJSON_Minify`.
- The parser builds values rather than linked items; the linked form is modelled for edits and copies (`JsonItems`).  A
  decoded string keeps bytes behind an embedded NUL, which a C reader of it would not see.
- Printing into a buffer without `realloc`, which copies by hand.
- Rounding in the allocator, its debug output and its hard-coded demands.  Vectors are values that are written back;
  aliasing of Python lists is not modelled.
- The position reported with a failed parse is what the grammar function gives, byte by byte; what it tells a reader
  of the text is not stated.
- Python's sort is modelled as a stable insertion sort in descending order; its algorithm is not.
- 64-bit counters of the regex driver are unbounded, the contents of responses and timing are ignored, and a batch
  size of at most 65535 is assumed, since the batch position is 16 bits wide.
- Regex slots being reused while the device still reads them: the device is taken to copy a job when it accepts it.
- The sliding windows and entropy of the DDoS example, other example programs, configuration parsing, logging and the
  traffic generator.
