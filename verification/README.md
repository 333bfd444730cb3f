# A Dafny model of Vaultage

Vaultage is a fixed-capacity record engine: producers publish keyed records into per-shard sequence rings, consumers take
them out in position order, a key index finds the newest record of a key while it is still in its cell, and a
backpressure gate freezes ingestion while any shard is above its high-water mark. This project models the engine at two
grains and proves what it guarantees at each.

**Interleaved.** `RingMachine` is one ring used by any number of threads, with one atomic load, store or compare-and-swap
per step and a program counter per thread; payloads and header words are written and read one word at a time.
`RingSafety`, `RingDelivery`, `RingProgress`, `RingCapacity` and `RingWords` prove its properties for every run, `RingSolo`
that an operation nobody interferes with has exactly its sequential effect, and `RingWrap` follows a run past position 2^64.
`EngineMachine` is the whole engine in the same style: a ring per shard, the ticket dispenser, the running flag, the
saturation latch, the gate, and threads that run publish, a worker, Drain or Close. `EngineSafety` and `EngineBooks` hold its
invariant; `RingRuns`, `EngineRuns` and `EngineScenes` put runs together, the last by what happens on one shard. The theorems
are in `EngineGate`, `EngineHonest` and `GateRun` (when the gate tells the truth), `EngineStall` and `GateStall` (who clears a
latch), `EngineRings` (every run of the engine is a run of each shard's ring), `EngineCalls` (every record is, field by field, what one
call of publish was given), `EngineSweep` (what a drain among other threads has taken), `EngineEvents` (the gate's counters and
the gauges), `EngineClose`, `LateClaim` and `EngineDrain` (shutdown), `EngineRecords` and `TicketOrder`. Atomics are sequentially consistent. History variables (the log of claims, who
took which position, what was read out, retry tallies) influence no step.

**Sequential.** `SequenceRing`, `KeyIndexes`, `Gates`, `Shards` and `Vaultages` are the same engine as objects updated in
place, with Publish, Lookup, Drain, Close and a worker's final drain each running to completion. A ghost log per ring
holds every accepted record by position; the contracts are stated over those logs. `IndexAgreement` connects the index
with the ring, `Hysteresis` and `Saturation` the latches with counter and gate. The hash is a parameter throughout, so the
theorems hold for every hash. Routing and probing reduce modulo the (power of two) size where the source masks; `Vaultage.RouteMasks`
and `KeyIndexes.ProbesFrom` say the two agree.

**Arithmetic and memory.** `Bits`, `Slots`, `Checksums`, `Layout`, `Arenas` and `Memory` cover masking, wrapped positions,
alignment, FNV-1a, the placement of cells and buckets, and the trimming of a mapping.

Where the code and its comments disagree the model follows the code:

- A ring of one cell is accepted (Vautlage/ring.go:84), although published and released then look alike. Delivery is intact
  over all runs exactly if there are at least two cells (`RingCapacity.IntactIffTwoCells`); over one cell a single thread
  already claims past the ring, and three can overwrite a record before it is read (`OneThreadOverruns`, `OneCellOverwrites`).
  In the sequential engine the gate shuts after every record of such a ring, which keeps it sound.
- Records are delivered in position order, not in ticket order as Vautlage/ring.go:34-35 has it. The two agree over all runs
  exactly if at most one thread uses the engine (`TicketOrder.TicketOrderIffOneThread`); in a given run they agree while no two
  publishes of a shard overlap between ticket and position (`TicketOrderHolds`), and any overlap with room for both can be
  inverted (`OverlapCanInvert`).
- The gate can stay shut with no shard hot. Over all runs that never happens exactly if at most one thread uses the engine
  (`GateRun.HonestIffOneThread`); in a given run it does not happen while no thread about to count a hot shard or to shut the gate
  meets one about to uncount a shard (`EngineHonest.HonestWithoutCrossing`), and from such a meeting it can happen exactly if
  it brings the counter to zero (`EngineHonest.CrossingShuts`). The opposite direction holds in every interleaving
  (`EngineGate.GateRestsClosedOverHot`); run one at a time, operations keep both (`Saturation.ClosedIffHot`).
- The gate can also stay shut over an empty shard that is still hot: a worker checks a latch only after a batch that found
  records (Vautlage/fabric.go:607-611), and a producer can latch the shard after the last such check. Every move keeps a hot
  shard tended, by records or by a consumer on its way to the check, exactly if it is not such a latch
  (`EngineStall.TendedExact`); after one the engine can be stalled for good, short of a drain or Close (`GateStall.StallLasts`,
  `CanStall`); over all runs that never happens exactly if at most one thread uses the engine (`TendedIffOneThread`).
- A worker exits once running is clear and nothing is in flight (Vautlage/fabric.go:613-614), but running clear does not mean
  that ingestion has stopped: a publish past its check of running can claim after the worker has returned, and its record is
  accepted and not handled (`LateClaim.LateIsLost`). Only such late claims are left behind (`LateClaim.LeftBehindIsLate`).
- dequeue and pending compare wrapped words as plain unsigned numbers, unlike claim. They are right exactly while no multiple of
  2^64 lies between what they compare: `RingWords.DequeueComparisonExact`, `RingWords.PendingWordsExact`; a run past 2^64 goes wrong: `RingWrap.CanMissRecords`.
- Above 2^62 shards the doubling loop of normalize never ends: `Configs.DoublingEndsExactly`. Within a huge page of 2^64 bytes the size
  of an arena wraps around: `Layout.ArenaHoldsRegion`. A refused trim of the tail slack leaves that slack mapped
  (Vautlage/arena.go:155-158), and a refused clean-up leaves the whole window: `Arenas.NewArena`.
- The branch for a refused huge-page advice under RequireHugePages (Vautlage/arena.go:168-171) is never reached, because the
  second tier is entered only without that requirement.

## Model

| member | source | states |
|---|---|---|
| Records.WritesComplete | Vautlage/ring.go:188-196 | once every word is written in publish order, the cell holds exactly the request |
| Records.AssembleRecovers | Vautlage/ring.go:273-282 | reading all words in reading order gives back the record that was written: ticket, time, key, payload and checksum as they were, flag bit 0 set and every other flag bit kept |
| RingSafety.RunInv | Vautlage/ring.go:10-37 | every reachable interleaved state keeps head <= commit <= tail <= head + capacity, and the cell and thread invariants |
| RingSafety.InitInv | Vautlage/ring.go:98-116 | initRing's state satisfies the invariant, for two or more cells |
| RingSafety.KeepsInv | Vautlage/ring.go:150-297 | every action of every thread keeps it |
| RingSafety.NeverStuck | Vautlage/ring.go:150-315 | a thread inside an operation can always take its next step |
| RingDelivery.LifeCycle | Vautlage/ring.go:10-26 | a cell's sequence word is q, q + 1 or q + capacity for the latest position q claimed in it, or its index if never claimed |
| RingDelivery.SequenceAdvances | Vautlage/ring.go:21-25 | no action moves a sequence word back, and only the owner of the cell moves it |
| RingDelivery.ExclusiveOwner | Vautlage/ring.go:13-20 | two threads never own the same cell at once |
| RingDelivery.DeliversExactly | Vautlage/ring.go:150-297 | in every run positions are claimed and taken in order 0, 1, 2, ..., and each is delivered at most once, field by field as its producer wrote it, with flag bit 0 set and the other flag bits kept; none taken is lost |
| RingDelivery.QuietConsumersDeliverAll | Vautlage/ring.go:251-297 | once no consumer is between take and release everything taken has been delivered |
| RingDelivery.SoleConsumerInOrder | Vautlage/ring.go:239-284 | with one consumer, records are delivered in strict position order, up to head or to the one it is still reading |
| RingProgress.NoCommitLeftBehind | Vautlage/ring.go:207-237 | whenever the position at commit is published some thread is at the top of advanceCommit or inside it with that commit |
| RingProgress.QuietProducersCommitAll | Vautlage/ring.go:207-237 | with no producer in mid-call commit equals tail |
| RingProgress.RetryMeansProgress | Vautlage/ring.go:150-173 | a retry happens only after another thread has moved that very cursor during the attempt |
| RingProgress.RetriesCounted | Vautlage/ring.go:150-259 | each lost compare-and-swap and each stale read counts as one retry, each won one as one success |
| RingProgress.RetriesArePaid | Vautlage/ring.go:150-259 | over any run a thread's retries per cursor are at most the other threads' successes on it |
| RingProgress.FullIsExact | Vautlage/ring.go:167-168 | when claim reports full, tail is still the position it tried and the position one lap back is not released |
| RingProgress.FullWhenInUse | Vautlage/ring.go:167-168 | conversely, a cell in use one lap back makes claim report full |
| RingProgress.EmptyIsExact | Vautlage/ring.go:253-256 | dequeue reports empty exactly if its position, head and commit agree at the load of commit |
| RingProgress.TakenIsPublished | Vautlage/ring.go:265-271 | the branch for an unpublished cell after a won head is never entered |
| RingProgress.PendingIsUpperBound | Vautlage/ring.go:303-312 | pending is at least the true occupancy at both of its loads and never clamps |
| RingSolo.PublishSolo | Vautlage/ring.go:150-237 | a publish nobody interferes with, whatever others left unfinished, ends after finitely many steps: if the cell at tail is free, appended and published, with commit moved over exactly the published positions; otherwise full and nothing changed |
| RingSolo.DequeueSolo | Vautlage/ring.go:251-297 | likewise a dequeue with read-out and release: exactly the record at head, or empty |
| RingSolo.PendingSolo | Vautlage/ring.go:303-312 | likewise pending: the true occupancy |
| RingSolo.FreeWhenNotFull | Vautlage/ring.go:150-173 | with nothing in flight the cell at tail is free exactly if less than a lap is outstanding |
| RingCapacity.OneCellOverwrites | Vautlage/ring.go:83-86 | a run of three threads over one cell in which the record read out for the first position is the second one |
| RingCapacity.OneThreadOverruns | Vautlage/ring.go:83-86 | a run of one thread over one cell that claims a second position with the first unconsumed |
| RingCapacity.IntactIffTwoCells | Vautlage/ring.go:83-86 | over all runs of any number of threads, cursors and deliveries are intact exactly if the ring has at least two cells (or no thread uses it) |
| RingWords.WordStepRefines | Vautlage/ring.go:119-297 | each step of claim, publish, advanceCommit, dequeue and release on wrapping 64-bit words takes the branch, the cell and the stored words of the step on unbounded positions |
| RingWords.ConsecutiveCellsDistinct | Vautlage/ring.go:119-129 | any `capacity` consecutive positions mask to distinct cells, also across 2^64 |
| RingWords.DequeueComparisonExact | Vautlage/ring.go:254 | the unsigned comparison of dequeue is right exactly if head and commit are equal or in the same 2^64 block |
| RingWords.PendingWordsExact | Vautlage/ring.go:303-312 | pending on words is right exactly if no multiple of 2^64 lies between its two loads, and zero otherwise |
| RingWrap.CanMissRecords | Vautlage/ring.go:251-256 | from any fresh ring, a run after which a committed record is there and dequeue and pending on words see none |
| Bits.MaskIsMod | Vautlage/ring.go:119-129 | masking with 2^k - 1 is the remainder modulo 2^k |
| Bits.XorBit | Vautlage/record.go:80 | exclusive or bit by bit: the last bits add modulo two, and the rest likewise |
| Bits.MaskSurvivesWrap | Vautlage/ring.go:127-129 | the masked 64-bit word of a position is the position modulo the capacity |
| Bits.SignedDifferenceExact | Vautlage/ring.go:156-159 | the wrapped signed difference is the true difference within 2^63 |
| Bits.UnsignedCompareExact | Vautlage/ring.go:254 | when an unsigned comparison of wrapped positions is right |
| Bits.IsPow2Exact | Vautlage/layout.go:240 | the bit test accepts exactly the powers of two |
| Bits.AlignUpLeast | Vautlage/layout.go:228-230 | alignUp is the least multiple not below its input exactly up to one alignment below 2^64; above it is 0 |
| Bits.AlignedIsMultiple | Vautlage/layout.go:235-237 | isAligned accepts exactly the multiples of a power of two |
| Checksums.Checksum32 | Vautlage/record.go:77-87 | the loop computes the FNV-1a digest with 0 folded to 1 |
| Checksums.KnownDigests | Vautlage/record.go:62-87 | the digests of no bytes, of 97 and of 97, 98 are 0x811c9dc5, 0xe40c292c and 0x4d2505ca, and 0 is folded to 1 |
| Checksums.TimesPrimeInjective | Vautlage/record.go:81 | multiplication by the prime modulo 2^32 is injective |
| Checksums.MixInjective | Vautlage/record.go:80-81 | one step is injective in the running digest and in the byte |
| Checksums.OneByteChangeDetected | Vautlage/record.go:77-87 | payloads that differ in one byte have different digests, and different checksums unless one digest is 0 and the other 1 |
| Checksums.CorruptionRefused | Vautlage/record.go:55-60 | Verify refuses a delivered record with one byte changed, with exactly that exception |
| EngineBooks.KeepsEngineInv | Vautlage/fabric.go:375-684 | every move of every thread keeps the engine's invariant |
| EngineBooks.InitEngineInv | Vautlage/fabric.go:266-321 | a fresh engine satisfies it |
| EngineGate.Conservation | Vautlage/fabric.go:397-416 | in every run tickets = ingested + dropped + in flight; tail = ingested + claims not yet counted; head = consumed + takes not yet counted |
| EngineGate.IdleConservation | Vautlage/fabric.go:397-416 | with no call in progress every ticket is ingested or dropped, and pending is ingested less consumed |
| EngineEvents.TransitionsCounted | Vautlage/gate.go:60-94 | in every run of a fresh engine closings, counted or about to be, are the openings, those Close forced, and one more if the gate is shut; refusals are the publishes that found it shut |
| EngineEvents.GaugesDecide | Vautlage/fabric.go:424-426 | publish goes on to the latch exactly if the occupancy it read is at least the high mark, in hundredths of the capacity; a consumer goes on to clear it exactly if what it read is below the next percent after the low mark |
| EngineEvents.EveryPublishGauged | Vautlage/fabric.go:399-426 | in every run of a fresh engine the ingested records are the occupancies read by publish, or about to be; and every drop, like every reading at or above the high mark, leads to one look at the latch |
| EngineEvents.BatchesBounded | Vautlage/fabric.go:590-611 | in every run a worker goes to the check of its latch after at most 256 records |
| EngineEvents.StoppedForGood | Vautlage/fabric.go:383-399 | from any state with running clear, running stays clear and at most one ticket is issued per publish that was past its check of running |
| EngineEvents.CloseStops | Vautlage/fabric.go:703-706 | Close clears running, with every tail noted, and then leaves the gate open |
| EngineGate.GateAttended | Vautlage/fabric.go:490-523 | in every run, gate open with the counter not zero means some thread is about to add, shut or re-check |
| EngineGate.CounterExact | Vautlage/fabric.go:490-523 | the counter is the number of hot shards less pending additions plus pending subtractions |
| EngineGate.GateRestsClosedOverHot | Vautlage/fabric.go:505-523 | with nobody in the latch, a hot shard means a closed gate |
| EngineGate.GateCanRestShutOverCold | Vautlage/fabric.go:491-493 | a drain between the latch and the addition leaves the gate shut with nothing hot |
| EngineHonest.HonestWithoutCrossing | Vautlage/fabric.go:490-523 | in every run without a crossing (one thread about to add or to shut, another about to subtract) a gate at rest is shut only over a hot shard |
| EngineHonest.CrossingShuts | Vautlage/fabric.go:490-523 | from any crossing, with nobody else in between, a run leaves the gate shut and both threads out; it is shut over no hot shard exactly if the crossing brings the counter to zero |
| GateRun.ShutOverCold | Vautlage/fabric.go:490-523 | from any fresh engine of two or more threads, a complete run that ends with the gate shut, no shard hot and nobody in the latch |
| GateRun.HonestIffOneThread | Vautlage/fabric.go:490-523 | over all runs of a fresh engine, a gate at rest is shut only over a hot shard exactly if at most one thread uses the engine |
| EngineStall.TendedExact | Vautlage/fabric.go:424-426 | if every hot shard holds records or has a consumer that will yet check it, a move keeps that exactly if it does not latch a cold shard that is empty and unattended |
| EngineStall.TendedThroughout | Vautlage/fabric.go:590-617 | in every run without such a latch every hot shard holds records or has a consumer that will yet check it |
| GateStall.StallLasts | Vautlage/fabric.go:607-617 | with a shard hot and empty, the gate shut and every consumer past its check, the engine stays so and issues no ticket in any run in which nobody starts Drain or Close |
| GateStall.CanStall | Vautlage/fabric.go:424-426 | from any fresh engine of two or more threads, a producer and a worker reach such a state |
| GateStall.TendedIffOneThread | Vautlage/fabric.go:424-426 | over all runs of a fresh engine, every hot shard is tended exactly if at most one thread uses the engine |
| EngineRings.Project | Vautlage/fabric.go:375-684 | every run of the engine is, for each shard, a run of its ring from its ring at the start to its ring at the end; only threads that consume from the shard at the start, or start a task that does, dequeue in it |
| EngineRings.WorkerDeliversInOrder | Vautlage/fabric.go:592-620 | when one thread alone consumes a shard it is delivered positions 0, 1, 2, ... in order, each once, exactly as published; when its worker has returned that is everything taken and covers the tail at which Close cleared running |
| EngineCalls.RecordsStemFromCalls | Vautlage/fabric.go:375-416 | in every run of a fresh engine the record at any position of any shard stems from one start of publish, by the thread that claimed the position and for that shard: its key is not 0, and key, flags, time and payload are that call's, its checksum their digest or 0; no call gives two records and no two records share a ticket |
| EngineCalls.DeliveredRecordsAreCalls | Vautlage/fabric.go:375-416 | in every run each record any consumer has read out is, field by field, what one call of publish for its shard was given, with flag bit 0 set; different positions give back different calls |
| EngineCalls.WorkerDeliversCalls | Vautlage/fabric.go:592-620 | the k-th delivery of a shard's only consumer is position k and gives back one call for the shard, field by field, different deliveries different calls; once its worker has returned that covers every position claimed before Close |
| EngineSweep.DrainTakesAll | Vautlage/fabric.go:658-686 | in every run, whatever other threads do, a drain that has returned has handed over at most max records, and exactly max or everything that was committed on any shard when it began has been taken |
| EngineRings.EngineRetriesPaid | Vautlage/ring.go:150-259 | in every run of the engine a thread's retries on a ring's cursors are at most the other threads' successes there |
| EngineClose.WorkerReturnsDrained | Vautlage/fabric.go:592-620 | with any other consumers about: when a worker has returned, every position claimed before Close cleared running was taken, and read out as published or is in another consumer's hands |
| LateClaim.LeftBehindIsLate | Vautlage/fabric.go:592-620 | conversely, a position that is neither read nor being read after the worker has returned was claimed after Close cleared running |
| LateClaim.LateIsLost | Vautlage/fabric.go:383-399 | a run of any fresh engine of three or more threads in which a publish claims and commits after the worker has returned; its record stays in the ring in every continuation in which nobody starts to consume from the shard |
| EngineDrain.WorkerTerminates | Vautlage/fabric.go:592-620 | once running is clear and no publish is under way, a worker takes at most a computed number of steps in any interleaving |
| EngineDrain.WorkerLowers | Vautlage/fabric.go:592-620 | each of its steps lowers that number |
| EngineRecords.DeliveredRecordsVerify | Vautlage/fabric.go:410-415 | in every run every record read out passes Verify, checksums on or off |
| TicketOrder.TicketOrderHolds | Vautlage/fabric.go:397-399 | without overlap between ticket and claim, position order is ticket order |
| TicketOrder.OverlapCanInvert | Vautlage/fabric.go:397-399 | any two publishes of a shard inside their claims, with room for both, can be inverted |
| TicketOrder.TicketOrderCanFail | Vautlage/ring.go:32-37 | a run of a fresh engine whose second ticket takes the first position |
| TicketOrder.TicketOrderIffOneThread | Vautlage/ring.go:32-37 | over all runs of a fresh engine, position order is ticket order exactly if at most one thread uses the engine |
| SequenceRing.Ring.Init | Vautlage/ring.go:83-116 | accepts exactly a power of two of cells at an aligned base; then every cell is primed with its own index; otherwise ErrConfig |
| SequenceRing.TurnstileExact | Vautlage/ring.go:150-173 | the cell at tail reads as free exactly if less than a lap is outstanding or there is one cell |
| SequenceRing.WriteMirrors | Vautlage/ring.go:185-199 | publishing keeps every cell in step with the log |
| SequenceRing.FreeMirrors | Vautlage/ring.go:294-297 | so does releasing |
| SequenceRing.Ring.Claim | Vautlage/ring.go:150-173 | succeeds exactly if the ring is not full (or has one cell) and hands out the tail |
| SequenceRing.Ring.Publish | Vautlage/ring.go:185-205 | appends the record to the log and commits it |
| SequenceRing.Ring.AdvanceCommit | Vautlage/ring.go:221-237 | moves commit over exactly the published positions that follow it |
| SequenceRing.Ring.Dequeue | Vautlage/ring.go:251-284 | takes the oldest record not yet taken, field by field as published with flag bit 0 set, or reports empty exactly if there is none |
| SequenceRing.Ring.Release | Vautlage/ring.go:294-297 | frees the cell for the next lap |
| KeyIndexes.FirstStop | Vautlage/index.go:202-236 | the first probe that meets the key or an empty bucket |
| KeyIndexes.FirstDead | Vautlage/index.go:244-265 | the first probe that meets a dead bucket |
| KeyIndexes.ProbesFrom | Vautlage/index.go:84 | home bucket and probed bucket are the masked hash and the masked sum of both, and as numbers the remainders |
| KeyIndexes.UpsertCounts | Vautlage/index.go:202-236 | the first of sixteen probes that meets the key or an empty bucket is counted as that many collisions, and a bucket filled as live |
| KeyIndexes.OverflowCounts | Vautlage/index.go:243-271 | if none does, one reclaim is counted if some probed bucket is dead, and one overflow if none is |
| KeyIndexes.FindsExactly | Vautlage/index.go:202-236 | pass 1 meets a key exactly if the key has a bucket anywhere |
| KeyIndexes.UpsertStructured | Vautlage/index.go:183-271 | every upsert keeps one bucket per key, unbroken chains within sixteen probes, and live = occupied buckets |
| KeyIndexes.RunStructured | Vautlage/index.go:183-271 | so does any run of upserts from an empty table, with any ring contents |
| KeyIndexes.LargestTicketWins | Vautlage/index.go:293-314 | upserts of a key that is not reclaimed, in any ticket order, leave the pair with the largest ticket |
| KeyIndexes.KeyIndex.Init | Vautlage/index.go:108-133 | accepts exactly a power of two of buckets at an aligned base; then a fresh table is empty and structured; otherwise ErrConfig |
| KeyIndexes.KeyIndex.Upsert | Vautlage/index.go:183-271 | the two passes with retry, in place; it fails exactly if all sixteen buckets from the home of the key on belong to other keys that are still in their cells, and counts that |
| KeyIndexes.KeyIndex.FindOrInsert | Vautlage/index.go:202-236 | pass 1 |
| KeyIndexes.KeyIndex.Recycle | Vautlage/index.go:244-265 | pass 2 |
| IndexAgreement.DeadWhenLapped | Vautlage/index.go:284-291 | an occupied bucket is dead exactly if the newest record of its key has been lapped |
| KeyIndexes.KeyIndex.UpdateMonotonic | Vautlage/index.go:302-314 | a pair with a larger ticket replaces the bucket's, any other leaves it as it is |
| KeyIndexes.KeyIndex.Lookup | Vautlage/index.go:329-387 | the probe loop answers what the first matching bucket and its cell say: a bucket among sixteen with the key and a ticket, a cell with the key, the committed flag and a length that fits, and that cell's record field by field |
| IndexAgreement.KeepsAgreement | Vautlage/fabric.go:415-421 | publish and upsert keep the index pointing at exactly the newest indexed resident records |
| IndexAgreement.ResolveIsNewest | Vautlage/index.go:329-387 | Lookup returns the newest record of the key exactly if its upsert succeeded and its cell has not been reused; otherwise ErrNotFound |
| Shards.Shard.ReadYourWrites | Vautlage/fabric.go:415-421 | after a shard has taken a record its key is answered with it, field by field, or with ErrNotFound if the index was full, which takes more than sixteen cells |
| Shards.Shard.LostWhenLapped | Vautlage/index.go:353-358 | taking a record of another key changes a key's answer exactly if it laps its newest record |
| IndexAgreement.OverflowExact | Vautlage/index.go:243-271 | an upsert fails exactly if all sixteen buckets from the home of the key on belong to other keys still in their cells; right after the publish of the key that takes more than sixteen cells, or fewer buckets than cells |
| IndexAgreement.AliveBucketsFit | Vautlage/index.go:284-291 | buckets that are not dead are at most as many as the cells |
| IndexAgreement.SmallRingsNeverOverflow | Vautlage/fabric.go:290-291 | with at most sixteen cells, and a bucket for each, ErrIndexFull is impossible |
| Gates.Gate.Init | Vautlage/gate.go:40-48 | accepts exactly low < high <= 100; then the gate starts open with zero counters; otherwise ErrConfig |
| Gates.Gate.Shut | Vautlage/gate.go:77-83 | closes, counts only a transition, keeps closings matched with openings |
| Gates.Gate.Release | Vautlage/gate.go:88-94 | opens, counts only a transition |
| Gates.Gate.ForceOpen | Vautlage/gate.go:98 | opens without counting |
| Hysteresis.PercentAtLeast | Vautlage/ring.go:330-332 | the rounded-down percentage reaches a mark exactly if the occupancy does |
| Hysteresis.CoolPaced | Vautlage/fabric.go:505-514 | cooling down takes another (high - low - 1) percent of consumption |
| Saturation.ClosedIffHot | Vautlage/fabric.go:490-523 | sequentially the gate is closed exactly if the counter is not zero exactly if some shard is hot |
| Saturation.OpenMeansRoom | Vautlage/fabric.go:389-408 | behind an open gate every ring has a free cell |
| Saturation.HysteresisBound | Vautlage/fabric.go:490-523 | k coolings of a shard mean k * (high - low - 1) * capacity < 100 * consumed; closings of the gate never exceed hot episodes |
| Saturation.HeatSteady | Vautlage/fabric.go:490-495 | markSaturated keeps latches, counter and gate in step |
| Saturation.CoolSteady | Vautlage/fabric.go:505-523 | so does markDrained |
| Shards.Shard.Ingest | Vautlage/fabric.go:410-421 | the record is appended and becomes addressable unless all sixteen buckets from its home on belong to other resident keys, which takes more than sixteen cells |
| Shards.Shard.Offer | Vautlage/fabric.go:399-421 | a shard takes a record exactly if it is not full |
| Shards.Shard.Lookup | Vautlage/fabric.go:435-446 | answers the newest record of the key per the log |
| Shards.Shard.Consume | Vautlage/fabric.go:594-605 | delivers exactly the front of the queue |
| Shards.Shard.QueueIs | Vautlage/fabric.go:594-605 | the queue is, in order, the log from head on, field by field as published with flag bit 0 set |
| Shards.Shard.TookMeans | Vautlage/fabric.go:410-421 | taking a request appends it to the log; it becomes addressable unless all sixteen buckets from its home on belong to other resident keys, which takes more than sixteen cells |
| Configs.Config.Normalize | Vautlage/fabric.go:97-134 | accepts exactly the sound configurations, fills in defaults, rounds shards up to the least power of two |
| Configs.RoundUp | Vautlage/fabric.go:101-107 | the doubling loop yields the least power of two not below the count |
| Configs.DoublingEndsExactly | Vautlage/fabric.go:103-106 | with 64-bit overflow the loop ends exactly up to 2^62 shards |
| Vaultages.Vaultage.New | Vautlage/fabric.go:243-342 | an engine results exactly if the configuration is accepted, every arena is obtained and the number of buckets does not wrap a 64-bit word; it is fresh, valid and steady, of the shape, marks, hash, checksums and epoch asked for, with every shard empty and the gate open; the first failure decides the error |
| Vaultages.Vaultage.Publish | Vautlage/fabric.go:375-428 | every refusal exactly; otherwise the next ticket and, at the end of the log of the shard the masked hash names, the record as given, field by field; whether the shard becomes hot and the gate shut; no other shard changes; never ErrShardFull in a steady engine |
| Vaultages.Vaultage.Place | Vautlage/fabric.go:397-427 | publish past the gate: the record as given at the end of the log, or a counted drop; whether the shard becomes hot and the gate shut |
| Vaultages.Vaultage.Append | Vautlage/fabric.go:397-421 | ticket, claim, record as given and index entry, or the dropped count |
| Vaultages.Vaultage.RouteMasks | Vautlage/fabric.go:356-358 | the shard of a key is its hash masked with the number of shards less one |
| Vaultages.Vaultage.Gauge | Vautlage/fabric.go:424-426 | the saturation test restores the sequential invariant; the shard becomes hot exactly if its occupancy reaches the high mark, and shuts the gate exactly if it was cold |
| Vaultages.Vaultage.MarkSaturated | Vautlage/fabric.go:490-495 | latches a cold shard, counts it and shuts the gate; otherwise nothing |
| Vaultages.Vaultage.MarkDrained | Vautlage/fabric.go:505-523 | clears the latch exactly if the shard is hot and at or below the low mark |
| Vaultages.Vaultage.Lookup | Vautlage/fabric.go:435-446 | the newest record of the key in its shard's log under the conditions of ResolveIsNewest; the record verifies |
| Vaultages.Vaultage.NewestIsHome | Vautlage/fabric.go:356-358 | of all records of a key, over the logs of all shards, the one with the largest ticket is the newest in the shard the key routes to |
| Vaultages.Vaultage.PublishedIsNewest | Vautlage/fabric.go:397-421 | after an accepted publish that one is the record published |
| Vaultages.Vaultage.Drain | Vautlage/fabric.go:658-686 | delivers, shard by shard and oldest first, everything or max records; what is kept is what was there without it; all verify; a shard is hot afterwards exactly if it was and is left above the low mark, so a drain without limit leaves no shard hot and the gate of a steady running engine open |
| Vaultages.Vaultage.DrainedMeans | Vautlage/fabric.go:669-685 | what each shard gave and what it keeps were its queue before; its log and index entries are as they were |
| Vaultages.Vaultage.DrainThenPublish | Vautlage/fabric.go:375-428 | after a drain without limit a steady running engine accepts the next well-formed publish |
| Vaultages.Vaultage.DrainShard | Vautlage/fabric.go:670-683 | Drain on one shard: up to the limit or until it is empty, after which it is hot exactly if it was and is above the low mark |
| Vaultages.Vaultage.ConsumeFrom | Vautlage/fabric.go:671-681 | one turn of a consumer keeps the engine steady |
| Vaultages.Vaultage.Stop | Vautlage/fabric.go:703-706 | Close clears running and forces the gate open |
| Vaultages.Vaultage.Work | Vautlage/fabric.go:592-620 | run alone after Close has cleared running, a worker handles its whole queue exactly once, in order, leaves the shard cold if there was anything to handle, and returns |
| Vaultages.Vaultage.Batch | Vautlage/fabric.go:593-605 | at most 256 records, fewer only if the queue is then empty |
| Layout.StrideExact | Vautlage/layout.go:246-248 | the stride is the least multiple of 64 that holds 64 bytes of header and the payload |
| Layout.RegionPartition | Vautlage/fabric.go:282-293 | cells with 64 bytes of header and the payload, and buckets of 32 bytes, are pairwise disjoint; the table follows the cells |
| Layout.FieldsAligned | Vautlage/layout.go:164-182 | every 64-bit field is 8-byte aligned, cells start on cache lines, no bucket straddles one |
| Layout.LayoutSound | Vautlage/fabric.go:282-320 | every cell and bucket lies inside the arena |
| Layout.ArenaHoldsRegion | Vautlage/arena.go:101-104 | the arena holds the request exactly up to 2 MiB below 2^64, and then with less than 2 MiB to spare |
| Arenas.TrimPartition | Vautlage/arena.go:124-158 | head slack, window and tail slack partition the raw mapping, on page boundaries |
| Arenas.NewArena | Vautlage/arena.go:91-196 | exactly when it succeeds and with which error it fails; on success exactly a window of whole 2 MiB pages on a 2 MiB boundary is mapped, with less than one page to spare; on failure exactly what a refused trim or a refused clean-up leaves |
| Arenas.LeftoverExact | Vautlage/arena.go:128-166 | with working clean-up a failed NewArena leaves nothing mapped, except exactly the tail slack when its trim was refused |
| Arenas.MapAndTrim | Vautlage/arena.go:128-166 | the second tier |
| Arenas.Arena.Close | Vautlage/arena.go:273-284 | unmaps the span once |
| Arenas.MapAndClose | Vautlage/arena.go:273-284 | creating an arena and closing it leaves the mapping as it was |
| Memory.Prefault | Vautlage/arena.go:206-217 | every page is written and stays zero |
| Memory.Zero | Vautlage/arena.go:248-253 | every byte becomes zero |
| Memory.CopyIntoPayload | Vautlage/layout.go:216-222 | exactly the payload bytes are overwritten |
| Memory.PayloadWriteIsLocal | Vautlage/layout.go:216-222 | such a write leaves the header, every other cell and every bucket as they were |

## Left out

- The weak memory model, as atomics are sequentially consistent by their own contract; clocks, tickers and backoff sleeps (timestamps are data handed in).
- System calls beyond an abstract map and unmap: mlock, madvise, thread affinity, page faults; their outcomes are parameters.
- Cache-line padding, allocation counts, Stats, the demo command and the benchmarks: no functional content.
- Lookup and upsert interleaved with publish at the grain of single atomics: the code accepts stale windows there. The index is sequential.
- The repeated key check at the end of lookup (Vautlage/index.go:380-384), the re-test of the counter after the release in markDrained, and the unpublished branch of dequeue appear in the interleaved engine or nowhere: run alone, they never fire.
- Retries of compare-and-swap loops in the sequential engine, since nobody else moves the words; the interleaved machine has them.
- The body of hashKey and the quality of its avalanche: the hash is a parameter. In the interleaved engine the shard of a call is arbitrary.
- The engine and the sequential ring on wrapping words: RingWords covers the ring's cursor and sequence words, elsewhere positions are unbounded.
- Tearing down arenas and nulling pointers at the end of Close, and what a publish still under way would meet then.
- Vaultages.Vaultage.New: takes the outcome of each NewArena as a parameter (Arenas.NewArena says when it succeeds), and does not connect the bytes a shard asks for, which wrap around in the source (Layout.ArenaHoldsRegion), with what it then holds.
- EngineDrain.WorkerTerminates: assumes that no publish is past its running check, since a publish stalled between claim and release store keeps a worker waiting.
- RingWords.WordStepRefines: needs what a thread remembers to be less than 2^63 positions old and, for the comparison of dequeue, no multiple of 2^64 in between; beyond that the words go wrong (RingWords.DequeueComparisonExact).
- EngineGate.GateCanRestShutOverCold: starts from any sound state with a producer between latch and addition and a drain about to clear that latch; GateRun.ShutOverCold reaches such a state.
- EngineHonest.CrossingShuts: assumes that no third thread is between latching and counting or about to open the gate, since those would settle the gate after it.
- Vaultages.Vaultage.Work: covers the loop once running is clear and nobody else moves, since before that it does not end; the interleaved worker is the subject of EngineDrain.WorkerTerminates and EngineRings.WorkerDeliversInOrder.
- Vaultages.Vaultage.Publish: takes a shard of one cell only in a steady engine, which every sequential run from New is; interleaved, one cell is unsound (RingCapacity.IntactIffTwoCells).
- Configs.Config.Normalize: takes at most 2^62 shards, as beyond that the source's doubling loop does not end (Configs.DoublingEndsExactly).
