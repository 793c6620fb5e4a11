# A verified model of the expert-streaming inference engine

This project models, in Dafny, the parts of the engine where state, concurrency or arithmetic make
correctness hard to see by reading, and proves what those parts are for. `dafny verify dfyconfig.toml`
checks all of it. One file models one component:

| file | component |
|---|---|
| `Prelude.dfy` | optional values, `f32` bit patterns under `total_cmp` (totalOrder, section 5.10 of IEEE 754-2019), small arithmetic |
| `PagedPool.dfy` | the block pool as a value: slabs, slots, the two free lists, overflow ids |
| `PagedProtocol.dfy` | allocate, write, append, release and shrink split at their lock boundaries, run by any number of threads; the ownership invariant |
| `PagedRefinement.dfy` | the pool refines independent append-only sequences, over every schedule |
| `PagedSequential.dfy` | complete operations: failure atomicity, the refusal rule, the high-water mark |
| `PagedRaces.dfy` | exactly when the sequential rules for refusals and for overflow capacity survive concurrency |
| `PagedKv.dfy` | `BlockPool` and `BlockManager` as classes over mutable arrays, tied to the value model |
| `WrrAdmission.dfy` | weighted round robin batch building over two channels |
| `RequestRegistry.dfy` | register / step / release with reference counts, every interleaving |
| `IdleEviction.dfy` | sessions, idle eviction, the pressure ladder |
| `PrepassGate.dfy` | the profitability gate of the routing pre-pass |
| `Ranking.dfy`, `DenseTopK.dfy`, `Gate.dfy` | bounded streaming insertion against sorting; dense top-k and argmax over any reduction tree; group-limited expert routing |
| `Q8Views.dfy` | Q8_0 rows, ranges, the block-caching iterator and the full decode |
| `Speculative.dfy` | speculative verification against the plain greedy loop |
| `BufferPool.dfy`, `BufferWakeup.dfy` | buffer conservation over both halves; the asynchronous wait protocol |
| `Lru.dfy`, `TransitionMatrix.dfy` | the offline cache simulator and the transition matrices |
| `Quantize.dfy`, `Clustering.dfy` | int8 quantisation, fp8 block rescaling, alias clustering |
| `TraceLayout.dfy`, `ErrorStats.dfy`, `PermutationWitness.dfy` | the semantic trace layout and its decoder, the error statistics, the permutation witness |

Locks are atomic steps, channels are sequences, arrivals and timeouts are nondeterministic, `Notify` holds
at most one permit. An `f32` that is only compared or copied is its bit pattern; where sums and products
matter the arithmetic is exact, except in `Q8Views` and `PermutationWitness`, where the float operations are
parameters and equality is bit for bit.

## Where the code differs from its documentation

The model follows the code. Each point below is a statement proved in the member it names. One more
difference needs no proof: the buffer pool's header says that both halves share one `Notify`, and the code has
two.

- `BlockPool` builds its free list from `capacity as u32`: `utilization` counts exactly the blocks in use if
  and only if `capacity < 2^32` (`PagedRefinement.UsedIsHeld`).
- The documented reading of the overflow cap and of the high-water mark holds for operations run one at a time
  (`PagedSequential.RefusedExactlyAtCap`, `PagedSequential.OverflowIsHighWaterMark`). When they interleave at
  their lock boundaries, refusals follow it if and only if there is at most one manager, or no cap within
  reach, or nothing to allocate, and the high-water mark if and only if there is at most one manager or the cap
  is at most one (`PagedRaces.RefusalsAreSequentialExactlyWhen`, `PagedRaces.CapacityIsPeakExactlyWhen`). The
  safety properties hold in every setting.
- Allocation without a cap is documented as infallible; the 31-bit id assertion stops it exactly when all 2^31
  overflow ids are in use (`PagedSequential.AbortsExactlyAtIdSpace`).
- The fair-share comment promises Audit a share of every batch. While neither channel is ever found empty, a
  batch of size `B` holds `floor((B-1)/5)` Audit requests, so Audit starves if and only if `B <= 5`
  (`WrrAdmission.ServeBatches`; `WrrAdmission.NeverEmptyExactlyWhen` says when a channel is never found empty).
- With `max_batch_size = 0` a batch still holds one request (`WrrAdmission.BuildBatch`).
- The idle threshold is cut to 64 bits of microseconds: from 2^64 on sessions are evicted too early
  (`IdleEviction.ThresholdIsHonoured`).
- The pre-pass gate is open at an average of exactly zero, where its comment closes it
  (`PrepassGate.OpenIffProfitable`).
- `greedy_argmax` starts from negative infinity, so a matrix whose scores are all negative NaNs yields row 0;
  the id is also cut to 32 bits (`DenseTopK.ArgmaxIsHeadOfRanking` is the exact condition).
- A routing decision can hold fewer than `top_k` experts (`Gate.DecisionLength`).
- `SpeculativeStepResult` describes `accepted_len` by the length of `accepted`; the exact relation, including
  the empty draft, is `Speculative.AcceptedCounts`.
- A release returns everything submitted in every interleaving if and only if the caller waited for its last
  reply (`RequestRegistry.ReleaseReturnsAllIffReplied`).
- `acquire` registers before its re-check "to avoid a lost wakeup". A waiter can still be stranded beside a free
  buffer if and only if at least two tasks acquire on the primary `Notify` and the pool has at least two
  buffers, the shadow half included (`BufferWakeup.StrandsExactlyWithTwoOfEach`).
- Promotions move buffers to the primary half for good (`BufferPool.PoolConserves`).
- `simulate_lru` raises `IndexError` for `k = 0` on a non-empty trace and never evicts for negative `k`
  (`Lru.SimulateLru`).
- Aliases are documented to point to smaller ids. They point to earlier scanned ones; the scan is by file name
  (`Clustering.OtherScansCanAliasUp`). Two files with the same id break the accounting
  (`Clustering.AccountsExactlyForDistinctIds`).

## Model

| member | source | states |
|---|---|---|
| `PagedPool.SlotFits` | rust-engine/src/block_pool.rs:476-495 | Every in-block slot of an existing block lies inside its slab, for all widths and capacities. |
| `PagedPool.SlotsDisjoint` | rust-engine/src/block_pool.rs:476-495 | Two different slots of a slab share no float. |
| `PagedPool.ReadAfterWriteSlot` | rust-engine/src/block_pool.rs:476-546 | A slot write is read back at that slot and changes no other slot of the slab. |
| `PagedPool.ReadAfterWriteKey` | rust-engine/src/block_pool.rs:476-531 | A key written to a block (primary or overflow) is read back from it; every other key slot of every existing block is unchanged. |
| `PagedPool.ReadAfterWriteValue` | rust-engine/src/block_pool.rs:476-546 | The same for values. |
| `PagedPool.ReadAfterGrow` | rust-engine/src/block_pool.rs:368-372 | Growing a slab by a zeroed block leaves every old slot as it was. |
| `PagedProtocol.StepKeepsInvariant` | rust-engine/src/block_pool.rs:335-400 | Every critical section of allocate, write, append, release and shrink, by any number of threads in any order, keeps the ownership and size invariant. |
| `PagedProtocol.PopPrimaryKeeps` | rust-engine/src/block_pool.rs:335-339 | The primary-list pop keeps the invariant: the id moves from the free list into one thread's hands. |
| `PagedProtocol.PopOverflowKeeps` | rust-engine/src/block_pool.rs:340-345 | The overflow-list pop keeps the invariant. |
| `PagedProtocol.GrowKeeps` | rust-engine/src/block_pool.rs:346-374 | The growth section, which re-checks nothing but the cap, keeps the invariant and never passes the cap. |
| `PagedProtocol.DrainKeeps` | rust-engine/src/block_pool.rs:380-400 | Releasing one block of a table keeps the invariant. |
| `PagedProtocol.ShrinkKeeps` | rust-engine/src/block_pool.rs:560-584 | The shrink keeps the invariant. |
| `PagedProtocol.ShrinkFindsAllFree` | rust-engine/src/block_pool.rs:560-584 | When the shrink goes ahead, every overflow id is on the free list. |
| `PagedProtocol.HeldOnce` | rust-engine/src/block_pool.rs:595-637 | Under the invariant an id in managers' hands is held once, by one manager. |
| `PagedProtocol.HeldExists` | rust-engine/src/block_pool.rs:595-637 | Every id held by anyone exists in its slab. |
| `PagedProtocol.TailIsWritable` | rust-engine/src/block_pool.rs:624-637 | The block an append is about to write exists and the slot is inside it. |
| `PagedRefinement.StepRefines` | rust-engine/src/block_pool.rs:335-400 | One critical section of one manager changes that manager's readable sequence exactly as its event says (append one token, clear, nothing) and no other manager's at all. |
| `PagedRefinement.RunRefines` | rust-engine/src/block_pool.rs:476-701 | Over every schedule of any number of managers and shrinks, each manager reads back exactly the tokens whose append succeeded since its last release, through recycling, growth and shrinking. |
| `PagedRefinement.RunAnswers` | rust-engine/src/block_pool.rs:624-637 | Over every schedule each requested append is answered exactly once and in request order. |
| `PagedRefinement.FreshWorldIsSound` | rust-engine/src/block_pool.rs:287-320 | Every pool the constructor accepts, with any number of empty managers, satisfies the invariant and nobody reads anything. |
| `PagedRefinement.EveryIdInOnePlace` | rust-engine/src/block_pool.rs:335-400 | After every schedule an id occurs exactly once over both free lists, in-flight hands and block tables if it exists and nowhere otherwise; overflow capacity never passes the configured cap. |
| `PagedRefinement.ShrinkIsSafe` | rust-engine/src/block_pool.rs:548-584 | A shrink never takes away a block that anyone holds: all held ids still exist afterwards. |
| `PagedRefinement.ShrinkSparesHeld` | rust-engine/src/block_pool.rs:560-584 | A shrink that goes ahead finds no overflow id in anyone's hands. |
| `PagedRefinement.ShrinkGoesAheadExactlyWhen` | rust-engine/src/block_pool.rs:560-584 | A shrink empties the overflow slab if and only if no manager holds an overflow block, whether primary blocks are free or not, and otherwise leaves the pool as it is. |
| `PagedRefinement.OthersKept` | rust-engine/src/block_pool.rs:140-156 | One manager's step leaves every slot readable by another manager as it was. |
| `PagedRefinement.TailSlotIsNew` | rust-engine/src/block_pool.rs:624-637 | The slot an append writes is none of the slots already readable. |
| `PagedRefinement.UsedIsHeld` | rust-engine/src/block_pool.rs:424-435 | Used blocks equal the blocks in managers' hands plus capacity minus its 32-bit truncation, so they are exact if and only if capacity < 2^32; with all managers idle the held part is the sum of ceil(seq_len / 16). |
| `PagedSequential.AllocateRefines` | rust-engine/src/block_pool.rs:335-374 | A complete allocate hands at most one block to its manager, keeps the invariant and changes nobody's sequence. |
| `PagedSequential.AppendRefines` | rust-engine/src/block_pool.rs:624-637 | A complete append adds exactly the token on success; on failure pool and manager are unchanged; no other manager sees a difference. |
| `PagedSequential.ReleaseRefines` | rust-engine/src/block_pool.rs:686-701 | A complete release_all (also run by Drop) empties its manager and nobody else sees a difference. |
| `PagedSequential.ShrinkRefines` | rust-engine/src/block_pool.rs:560-584 | A shrink changes nobody's sequence. |
| `PagedSequential.RefusedExactlyAtCap` | rust-engine/src/block_pool.rs:335-374 | Run alone, allocate refuses exactly when the primary list is empty and the overflow blocks in use equal the configured cap. |
| `PagedSequential.AbortsExactlyAtIdSpace` | rust-engine/src/block_pool.rs:335-374 | The 31-bit assertion stops allocate exactly when the primary list is empty, all 2^31 overflow ids are in use and the cap, if any, lies beyond them. |
| `PagedSequential.AllocatesFreeBlock` | rust-engine/src/block_pool.rs:335-374 | Allocate hands out a block nobody holds: from the overflow slab if and only if no primary block is free, and a new one only when no existing one is free; one more block is in use. |
| `PagedSequential.AllocateUndoesRelease` | rust-engine/src/block_pool.rs:335-400 | The free lists are stacks: allocating right after a release returns that block and restores the pool. |
| `PagedSequential.CapacityIsPeak` | rust-engine/src/block_pool.rs:340-374 | One complete operation moves overflow capacity to the peak of overflow blocks in use since the last shrink that found none in use. |
| `PagedSequential.OverflowIsHighWaterMark` | rust-engine/src/block_pool.rs:548-584 | Over every sequential run of appends, releases and shrinks overflow capacity equals that peak. |
| `PagedRaces.RefusedWithRoomLeft` | rust-engine/src/block_pool.rs:335-374 | For every accepted pool with at least two managers and a cap up to 2^31 there is a schedule after which an append is refused while every block of the pool is free. |
| `PagedRaces.CapacityPassesPeak` | rust-engine/src/block_pool.rs:340-374 | For every accepted pool with at least two managers and room for two overflow blocks there is a schedule that materialises two although at most one was ever in use. |
| `PagedRaces.RefusalsAreSequentialExactlyWhen` | rust-engine/src/block_pool.rs:335-374 | Over all schedules every refusal happens with the primary list empty and the cap's worth of overflow blocks in use, if and only if there is at most one manager, or no cap up to 2^31, or a cap of 0 and a capacity that truncates to no primary block. |
| `PagedRaces.CapacityIsPeakExactlyWhen` | rust-engine/src/block_pool.rs:340-374 | After every schedule overflow capacity is the peak of blocks in use since the last shrink that found none in use, if and only if there is at most one manager or the cap is at most 1. |
| `PagedRaces.WatchedIsRun` | rust-engine/src/block_pool.rs:560-584 | The observed runs are the runs of the protocol. |
| `PagedKv.BlockPool.WithThresholds` | rust-engine/src/block_pool.rs:287-320 | The constructor builds exactly the fresh pool, ready to be shared. |
| `PagedKv.BlockPool.Allocate` | rust-engine/src/block_pool.rs:335-374 | The in-place allocate computes the sequential allocate, result and new pool. |
| `PagedKv.BlockPool.Release` | rust-engine/src/block_pool.rs:380-400 | The in-place release pushes the id on the list of its own slab and changes nothing else. |
| `PagedKv.BlockPool.CopyInto` | rust-engine/src/block_pool.rs:480-494 | Copying into a slab in place overwrites exactly that range. |
| `PagedKv.BlockPool.WriteToken` | rust-engine/src/block_pool.rs:476-495 | Key and value land in their slot and nothing else of either slab changes. |
| `PagedKv.BlockPool.ReadKeyInto` | rust-engine/src/block_pool.rs:519-531 | Fills the buffer with the slot's key. |
| `PagedKv.BlockPool.ReadValueInto` | rust-engine/src/block_pool.rs:534-546 | Fills the buffer with the slot's value. |
| `PagedKv.BlockPool.ShrinkOverflowToFit` | rust-engine/src/block_pool.rs:560-584 | Drops the overflow slab and returns how many blocks went exactly when no overflow block is in use, which is when no manager holds one, and leaves every sequence as it is. |
| `PagedKv.BlockPool.Utilization` | rust-engine/src/block_pool.rs:424-435 | The exact ratio of used blocks (primary and overflow) to capacity. |
| `PagedKv.BlockPool.Pressure` | rust-engine/src/block_pool.rs:444-453 | Critical, then High, then Normal against the pool's own thresholds. |
| `PagedKv.PressureIsMonotone` | rust-engine/src/block_pool.rs:444-453 | Fewer used blocks never raise the pressure level. |
| `PagedKv.PressureLevels` | rust-engine/src/block_pool.rs:444-453 | Critical from the critical share of the capacity on, High from the high share up to it, Normal below both. |
| `PagedKv.BlockManager.constructor` | rust-engine/src/block_pool.rs:605-611 | A new manager joins the managers of its pool: the sharing invariant extends to it, it reads nothing and nobody else sees a difference. |
| `PagedKv.BlockManager.Append` | rust-engine/src/block_pool.rs:624-637 | On success the manager's view grows by exactly the token, on refusal or abort nothing changes, and the views of all other managers stay; both failures with their exact condition. |
| `PagedKv.BlockManager.PhysicalAddr` | rust-engine/src/block_pool.rs:679-684 | The block and offset of token i. |
| `PagedKv.BlockManager.KeyInto` | rust-engine/src/block_pool.rs:668-671 | Fills the buffer with the key of token i of the view. |
| `PagedKv.BlockManager.ValueInto` | rust-engine/src/block_pool.rs:674-677 | Fills the buffer with the value of token i of the view. |
| `PagedKv.BlockManager.ReleaseAll` | rust-engine/src/block_pool.rs:686-701 | The view becomes empty, its blocks are back in the pool, and other managers' views stay. |
| `WrrAdmission.Turn` | rust-engine/src/batch_scheduler.rs:1107-1130 | One class's turn only polls its channel, takes at most its weight, in channel order, and stops early only at a full batch or an empty channel. |
| `WrrAdmission.PollingIsFifo` | rust-engine/src/batch_scheduler.rs:1093-1130 | However a channel is polled and whatever arrives meanwhile: what waited and what arrived is what was received and what still waits, in this order. |
| `WrrAdmission.Drain` | rust-engine/src/batch_scheduler.rs:1093-1134 | Whatever arrives meanwhile: both channels are only polled, so each class stays FIFO and nothing is lost or duplicated; the batch grows by exactly what was received, does not outgrow its size and is left short only when both channels are empty; 4 * Audit <= Interactive while Interactive is never found empty, and with both queues backlogged Audit gets exactly floor(free slots / 5). |
| `WrrAdmission.RecvEither` | rust-engine/src/batch_scheduler.rs:1065-1091 | The blocking receive takes one request, Interactive preferred, whenever either channel holds one; Audit is polled only after Interactive was found empty. |
| `WrrAdmission.RecvInTime` | rust-engine/src/batch_scheduler.rs:1145-1156 | One poll of the timed select: an empty arm goes on or, once the deadline has passed or the channel is closed, ends the wait; ended by the Interactive arm, Audit is not polled; every empty arm is counted once. |
| `WrrAdmission.BuildBatch` | rust-engine/src/batch_scheduler.rs:1056-1158 | A whole batch, first request and late arrivals included: conservation and FIFO per class; size at most max(1, max_batch_size) (one request even for size 0); non-empty unless both channels are empty; a short batch leaves no Interactive request waiting, and Audit requests only when there is a timeout and the wait was ended; with a timeout a short batch has waited until the deadline, every poll that found time left included; 4 * Audit <= Interactive + 4 * (times Interactive was found empty); full with exactly floor((B-1)/5) Audit requests when neither channel was found empty, which holds with B requests waiting in each. |
| `WrrAdmission.ServeBatches` | rust-engine/src/batch_scheduler.rs:92-105 | Over any n batches 4 * Audit <= Interactive + 4 * (times Interactive was found empty); in every run in which neither channel is found empty Audit is served exactly n * floor((B-1)/5) requests, so it starves if and only if B <= 5. |
| `WrrAdmission.NeverEmptyExactlyWhen` | rust-engine/src/batch_scheduler.rs:1107-1130 | A channel is never found empty if and only if, at every poll, backlog and arrivals so far outnumber the polls before it. |
| `RequestRegistry.RunKeeps` | rust-engine/src/batch_scheduler.rs:180-226 | Every interleaving of any number of requests' tasks, callers and release helpers keeps the handle-count and content invariant. |
| `RequestRegistry.ReleaseAfterReplyReturnsKv` | rust-engine/src/batch_scheduler.rs:1388-1397 | A release that started after the caller had received its last reply returns the KV cache with exactly the submitted operations applied, in order, in every interleaving. |
| `RequestRegistry.ReadyCanRelease` | rust-engine/src/batch_scheduler.rs:192-226 | Once a caller holding its reply has begun its release, three accesses of its own complete it with exactly the submitted operations, in every schedule of everything else. |
| `RequestRegistry.NothingLeaks` | rust-engine/src/batch_scheduler.rs:192-226 | Once a released request has no task and no helper, nothing refers to its entry. |
| `RequestRegistry.LeftoversFinish` | rust-engine/src/batch_scheduler.rs:192-226 | From every reachable state a released request's task and detached helper can run to their end, and then nothing refers to its entry. |
| `RequestRegistry.StepIsAnswered` | rust-engine/src/batch_scheduler.rs:1343-1399 | Progress: five accesses of its task run a submitted operation exactly once on the request's cache and answer the caller, whatever every other request does meanwhile. |
| `RequestRegistry.AbandonedReleaseMayFail` | rust-engine/src/batch_scheduler.rs:1388-1397 | From every reachable state in which a caller holds its reply, and for every operation, there is a continuation that submits it, gives up and gets nothing back. |
| `RequestRegistry.ReleaseReturnsAllIffReplied` | rust-engine/src/batch_scheduler.rs:1388-1397 | For every reachable request and every operation the release returns everything submitted in every interleaving, if and only if the caller waited for the reply. |
| `RequestRegistry.CountersBalance` | rust-engine/src/batch_scheduler.rs:688-722 | Between calls, registrations equal releases plus live sessions in every reachable state. |
| `RequestRegistry.RegistrationsAreCounted` | rust-engine/src/batch_scheduler.rs:688-722 | registrations_total counts the requests that have registered, each once; a registered request is in the table and has a session, a released one is in neither. |
| `RequestRegistry.IdsAreNeverReused` | rust-engine/src/batch_scheduler.rs:181-186 | In every interleaving the ids of the registrations made are pairwise different if and only if there are at most 2^64 of them. |
| `IdleEviction.EvictionOrder` | rust-engine/src/batch_scheduler.rs:1432-1439 | The sorted candidates are Audit before Interactive and, within a class, longest idle first. |
| `IdleEviction.SortedEligible` | rust-engine/src/batch_scheduler.rs:1420-1439 | The candidate list names exactly the idle sessions that own a manager, each once, Audit first and within a class by last activity. |
| `IdleEviction.SessionTable.Touch` | rust-engine/src/batch_scheduler.rs:139-141 | Only the session's last activity changes. |
| `IdleEviction.SessionTable.TakeManager` | rust-engine/src/batch_scheduler.rs:1441-1445 | Taking a manager releases exactly its blocks and leaves all other managers' sequences. |
| `IdleEviction.SessionTable.RunIdleEviction` | rust-engine/src/batch_scheduler.rs:1415-1448 | A session loses its manager if and only if it has one and its last activity lies at least the threshold (cut to 64 bits) before the clock reading; the blocks return to the pool, the count is returned, and nothing else changes. |
| `IdleEviction.EvictedExactlyWhen` | rust-engine/src/batch_scheduler.rs:1420-1428 | The set of evicted sessions is given by that condition alone: manager, last activity, threshold and clock. |
| `IdleEviction.TouchProtects` | rust-engine/src/batch_scheduler.rs:139-146 | A session touched at t keeps its manager if and only if the threshold is not zero and the clock is below t plus the threshold. |
| `IdleEviction.EvictionRelievesPressure` | rust-engine/src/batch_scheduler.rs:1170-1191 | After an eviction used blocks are those of the remaining managers, and the pressure level is not higher. |
| `IdleEviction.ThresholdIsHonoured` | rust-engine/src/batch_scheduler.rs:1420 | The configured threshold decides for every session and clock reading if and only if it is below 2^64 microseconds. |
| `IdleEviction.HugeThresholdEvictsActive` | rust-engine/src/batch_scheduler.rs:1420 | A threshold of exactly 2^64 microseconds evicts a session that was active this instant. |
| `IdleEviction.SuspendedSinceCritical` | rust-engine/src/batch_scheduler.rs:1161-1197 | Speculation is suspended exactly when a Critical level has been seen and no Normal one since. |
| `PrepassGate.Gate.ShouldRun` | rust-engine/src/batch_scheduler.rs:385-395 | Open, or every 32nd call while closed. |
| `PrepassGate.Gate.Record` | rust-engine/src/batch_scheduler.rs:398-401 | One step of the moving average. |
| `PrepassGate.OneProbeIn32` | rust-engine/src/batch_scheduler.rs:373-395 | Over every run the probes let through are floor(closed batches / 32), however often the gate reopens in between. |
| `PrepassGate.OpenIffProfitable` | rust-engine/src/batch_scheduler.rs:377-401 | The gate is open exactly while the age-weighed net benefit of all reports is not negative (the documentation closes it at zero). |
| `PrepassGate.ReopensExactlyWhen` | rust-engine/src/batch_scheduler.rs:398-401 | One report reopens a closed gate exactly when its benefit is at least three times the deficit. |
| `PrepassGate.OneReportOpensExactlyWhen` | rust-engine/src/batch_scheduler.rs:398-401 | After a report the gate is open if and only if 200 microseconds per useful fetch plus three quarters of the older reports cover the nanoseconds spent. |
| `Ranking.InsertBounded` | rust-engine/src/dense_tensor.rs:736-750 | The in-place bounded insertion is insertion at the ranked place, then the cut. |
| `Ranking.RankingIsUnique` | rust-engine/src/dense_tensor.rs:720-726 | Any ranked permutation of the candidates is the ranking, so "sort" is one function. |
| `Ranking.SortIsRanked` | rust-engine/src/dense_tensor.rs:720-726 | The reference sort is ranked: nothing is listed after a candidate it beats. |
| `Ranking.SortIsOrdered` | rust-engine/src/dense_tensor.rs:720-726 | The reference sort lists larger scores first and smaller ids first among equal ones. |
| `Ranking.TopKExactlyWhen` | rust-engine/src/dense_tensor.rs:720-750 | A candidate is in the top k if and only if fewer than k candidates score higher, or as high with a smaller id. |
| `Ranking.StreamIsTopK` | rust-engine/src/dense_tensor.rs:552-565 | Streaming bounded insertion ends with the top k of everything seen. |
| `Ranking.CutThenInsert` | rust-engine/src/dense_tensor.rs:736-750 | What was cut off before an insertion cannot matter after it. |
| `Ranking.JoinIsTopK` | rust-engine/src/dense_tensor.rs:495-518 | Inserting one side's top k into the other's gives the top k of both. |
| `DenseTopK.ParallelTasks` | rust-engine/src/dense_tensor.rs:520-535 | The number of tasks is between 1 and the number of rows when the parallel path is taken. |
| `DenseTopK.TasksAreMost` | rust-engine/src/dense_tensor.rs:520-535 | The rows are split exactly for 2^18 to 2^64 - 1 elements in two or more rows, with two or more threads and outside a worker: into the largest number of tasks that threads, rows and 2^16 elements per task allow. |
| `DenseTopK.ChunksCoverRows` | rust-engine/src/dense_tensor.rs:495-535 | The ceil-division chunks cover every row exactly once and in order, even when trailing chunks start past the end. |
| `DenseTopK.TopKRange` | rust-engine/src/dense_tensor.rs:552-565 | A range scan is the top k of its rows. |
| `DenseTopK.ReduceTopK` | rust-engine/src/dense_tensor.rs:501-516 | Any reduction tree, with identities anywhere, gives the top k of its tasks' rows. |
| `DenseTopK.TopKLogits` | rust-engine/src/dense_tensor.rs:495-518 | Sequential or parallel, for every task count and reduction tree: sort all rows by score descending and id ascending, take k. |
| `DenseTopK.RowInTopK` | rust-engine/src/dense_tensor.rs:495-518 | A row is returned if and only if fewer than k rows score higher, or as high at a smaller index. |
| `DenseTopK.GreedyArgmax` | rust-engine/src/dense_tensor.rs:459-485 | Sequential or parallel, for every tree: the same id. |
| `DenseTopK.ArgmaxRange` | rust-engine/src/dense_tensor.rs:537-550 | The range scan returns the best of its rows and the starting pair. |
| `DenseTopK.BestOfAll` | rust-engine/src/dense_tensor.rs:728-734 | The best over all rows and the starting pair is the head of the ranking, or the starting pair. |
| `DenseTopK.ArgmaxIsHeadOfRanking` | rust-engine/src/dense_tensor.rs:459-485 | The returned row heads the ranking (no larger score, no equal one earlier) if and only if some score is at least negative infinity and a row below 2^32 heads it, or row 0 does. |
| `DenseTopK.ArgmaxIs` | rust-engine/src/dense_tensor.rs:459-485 | The id returned: the best row cut to 32 bits, or 0 when its score is below negative infinity in the total order. |
| `DenseTopK.BestRowHeads` | rust-engine/src/dense_tensor.rs:720-734 | Exactly one row heads the ranking: the first of the sorted rows. |
| `DenseTopK.ArgmaxMissesNegativeNans` | rust-engine/src/dense_tensor.rs:459-550 | Two rows scoring negative NaNs: row 1 ranks first, row 0 is returned. |
| `Gate.LinearGate.GroupFilterShape` | rust-engine/src/gating.rs:335-345 | Groups are filtered if and only if there are at least two, 0 < topk_group < n_group and they divide the experts evenly. |
| `Gate.TopTwoAreLargest` | rust-engine/src/gating.rs:361-372 | The scan finds the two largest scores of a group. |
| `Gate.GroupScoreIs` | rust-engine/src/gating.rs:361-374 | The score of a group is its best plus its second best score (plus zero when the second is infinite). |
| `Gate.GroupScoreAlone` | rust-engine/src/gating.rs:361-374 | With one score above negative infinity it is that score plus zero. |
| `Gate.ScanTopTwo` | rust-engine/src/gating.rs:361-372 | The loop computes that scan for every group. |
| `Gate.SelectTopGroups` | rust-engine/src/gating.rs:352-376 | The groups kept are the first topk_group of the groups sorted by score and id. |
| `Gate.ListedIsKept` | rust-engine/src/gating.rs:352-376 | A group is kept if and only if fewer than topk_group groups have a larger group score, or as large a one and a smaller number. |
| `Gate.FilterThenSort` | rust-engine/src/gating.rs:713-731 | Dropping non-finite scores commutes with sorting. |
| `Gate.StreamingIsReference` | rust-engine/src/gating.rs:684-764 | Streaming group-limited selection chooses the same experts in the same order as the masked stable sort. |
| `Gate.SelectExperts` | rust-engine/src/gating.rs:425-441 | The expert loop computes that streaming selection. |
| `Gate.WeighExperts` | rust-engine/src/gating.rs:443-475 | The weights are computed from the unbiased scores of the chosen experts. |
| `Gate.RouteWithScratch` | rust-engine/src/gating.rs:395-476 | The whole routing decision through reused scratch buffers equals the reference decision. |
| `Gate.ChosenExactlyWhen` | rust-engine/src/gating.rs:395-476 | An expert is chosen if and only if its biased score is finite, its group (if groups are filtered) has fewer than topk_group groups ahead of it by group score and number, and fewer than top_k such experts are ahead of it by biased score and id. |
| `Gate.ChosenInOrder` | rust-engine/src/gating.rs:425-441 | The chosen experts are distinct and listed by biased score, equal scores by id. |
| `Gate.WeightIsShare` | rust-engine/src/gating.rs:443-475 | Each weight is the unbiased score over the sum of the chosen ones (when normalising and that sum is positive) times the scaling factor (when finite). |
| `Gate.SumSplits` | rust-engine/src/gating.rs:455-460 | Sums of finite weights add up part by part. |
| `Gate.WeightsSumToFactor` | rust-engine/src/gating.rs:455-474 | Normalising and scaling any weights with a positive sum makes them sum to the scaling factor, in exact arithmetic. |
| `Gate.DecisionSumsToFactor` | rust-engine/src/gating.rs:443-475 | The weights of every decision of a normalising gate whose chosen scores have a positive sum add up to the scaling factor. |
| `Gate.BiasOnlySelects` | rust-engine/src/gating.rs:403-454 | The weights of a decision are those that the gate without its bias gives to the chosen experts. |
| `Gate.DecisionLength` | rust-engine/src/gating.rs:425-475 | Fewer than top_k experts come back exactly when fewer than top_k are eligible. |
| `Q8Views.DecodeBlock` | rust-engine/src/inference.rs:894-914 | The block decoder, element by element. |
| `Q8Views.DecodeAll` | rust-engine/src/inference.rs:959-980 | The full decode is the blocks' decodes in order, truncated. |
| `Q8Views.DecodeInvertsEncode` | rust-engine/src/inference.rs:894-980 | Weight k of an encoded stream is code k % 32 of block k / 32, in two's complement, at that block's little-endian 16-bit scale. |
| `Q8Views.StretchOfDecode` | rust-engine/src/dense_tensor.rs:676-694 | Every weight of a block is the weight of the full decode at its flat position, and the block lies inside the bytes. |
| `Q8Views.CopyRange` | rust-engine/src/dense_tensor.rs:676-694 | The copied range is the matching slice of the full decode, for ranges straddling any number of blocks; only blocks inside the bytes are read. |
| `Q8Views.RowDot` | rust-engine/src/dense_tensor.rs:696-717 | The row dot product is the left-to-right dot product with that row of the full decode, bit for bit under any float operations. |
| `Q8Views.DotIsLinear` | rust-engine/src/dense_tensor.rs:696-717 | In exact arithmetic the dot product is linear in the vector. |
| `Q8Views.DotReadsWeight` | rust-engine/src/dense_tensor.rs:696-717 | In exact arithmetic the k-th unit vector reads weight k. |
| `Q8Views.FromQ8Bytes` | rust-engine/src/dense_tensor.rs:303-326 | A weight is built exactly when shape and byte size fit in 64 bits and the byte count is exactly that of its blocks. |
| `Q8Views.ToF32Vec` | rust-engine/src/dense_tensor.rs:380-389 | to_f32_vec is the full decode. |
| `Q8Views.RowDequantInto` | rust-engine/src/dense_tensor.rs:400-414 | The row buffer holds the row's slice of the full decode, for both storage kinds. |
| `Q8Views.RowsAreFlat` | rust-engine/src/dense_tensor.rs:400-414 | The rows, concatenated, are the full decode. |
| `Q8Views.MatVecInto` | rust-engine/src/dense_tensor.rs:422-441 | Every output of the Q8_0 product is the dot product with its row. |
| `Q8Views.DenseWeightIter.Next` | rust-engine/src/dense_tensor.rs:605-627 | The block-caching iterator yields the weight at its offset and None after the last, keeping the cache truthful. |
| `Q8Views.Collect` | rust-engine/src/dense_tensor.rs:391-398 | Draining the iterator yields the full decode in order. |
| `Speculative.StepSpeculative` | rust-engine/src/draft.rs:320-377 | For any draft: tokens, KV state and error are those of the plain greedy loop cut after the confirmed prefix, and accepted_len is the number of confirmed drafts. |
| `Speculative.GreedySteps` | rust-engine/src/draft.rs:320-377 | The plain greedy loop is a chain of states: each token comes from one step fed the token before it at the next position; it ends after n steps or with the error and the state of the first failure. |
| `Speculative.GreedyComposes` | rust-engine/src/draft.rs:356-368 | Two greedy runs one after the other are one greedy run. |
| `Speculative.ChainIsGreedy` | rust-engine/src/draft.rs:26-38 | Any chain of speculative calls, with any drafts, generates exactly the greedy sequence, leaves its KV state and reports its error, and each successful call makes progress. |
| `Speculative.AcceptedCounts` | rust-engine/src/draft.rs:278-298 | How many tokens a call returns, and that accepted_len is the longest common prefix of drafts and returned tokens. |
| `BufferPool.RunConserves` | rust-engine/src/buffer_pool.rs:276-369 | Over every run of acquires, promotions and drops no buffer is lost or duplicated, and each promotion moves exactly one buffer's home. |
| `BufferPool.PoolConserves` | rust-engine/src/buffer_pool.rs:13-24 | Every buffer is in exactly one place after any run; promotions drain the shadow half for good, and once all are promoted no shadow buffer can be acquired again. |
| `BufferPool.AcquireSucceedsExactlyWhen` | rust-engine/src/buffer_pool.rs:276-312 | After any run an acquire succeeds if and only if fewer guards of its half are out than the half has buffers, promotions counted, and it takes one buffer off the list. |
| `BufferPool.AcquireUndoesDrop` | rust-engine/src/buffer_pool.rs:276-369 | The buffer dropped last is handed out next, from the half its guard belongs to; a promoted buffer from the primary half. |
| `BufferPool.BufferPool.TryAcquirePrimary` | rust-engine/src/buffer_pool.rs:276-283 | Pops the last free primary buffer into a primary guard, or changes nothing. |
| `BufferPool.BufferPool.TryAcquireFromShadow` | rust-engine/src/buffer_pool.rs:304-312 | The same on the shadow list, and None without one. |
| `BufferPool.BufferPool.PromoteShadow` | rust-engine/src/buffer_pool.rs:364-369 | Only the guard's home changes. |
| `BufferPool.BufferPool.DropGuard` | rust-engine/src/buffer_pool.rs:451-476 | The buffer returns to its home list, or to the primary list if the shadow list is gone. |
| `BufferWakeup.TwoTasksCanStrand` | rust-engine/src/buffer_pool.rs:319-370 | With two or more acquiring tasks and two or more buffers in both halves together a schedule, with promotions if needed, strands one task beside a free buffer. |
| `BufferWakeup.StrandsExactlyWithTwoOfEach` | rust-engine/src/buffer_pool.rs:319-370 | No schedule, promotions from the shadow half included, strands a waiter on the primary Notify if and only if at most one task acquires on it or both halves together have at most one buffer. |
| `BufferWakeup.OneTaskIsNotified` | rust-engine/src/buffer_pool.rs:451-459 | With one acquiring task a parked waiter beside a free buffer means that a dropper stands between its push and its notify_one, in every schedule. |
| `Lru.RecencyIsByLastUse` | scripts/compute_transition_matrix.py:118-140 | The reference order lists exactly the ids of the trace, once each, by last use. |
| `Lru.AccessIsWindow` | scripts/compute_transition_matrix.py:127-139 | One access of the bounded deque keeps it the last k entries of the reference order. |
| `Lru.Touch` | scripts/compute_transition_matrix.py:127-139 | The loop body, with in_set mirroring the deque. |
| `Lru.SimulateLru` | scripts/compute_transition_matrix.py:118-140 | The simulator returns the hits defined by the k most recently used ids; IndexError exactly for k = 0 on a non-empty trace; negative k never evicts. |
| `Lru.LargerContainsSmaller` | scripts/compute_transition_matrix.py:118-140 | Stack property: a cache holds the most recent part of what any larger one holds. |
| `Lru.CachedExactlyWhen` | scripts/compute_transition_matrix.py:118-140 | An id is cached if and only if it was used and fewer than k other ids have been used since. |
| `Lru.HitsAreMonotone` | scripts/compute_transition_matrix.py:118-140 | Hits never decrease with cache size. |
| `TransitionMatrix.CountMoves` | scripts/compute_transition_matrix.py:84-95 | The dictionaries hold exactly the number of times one leading expert follows another, per layer. |
| `TransitionMatrix.MaxIdIsSeen` | scripts/compute_transition_matrix.py:84-90 | The size of a layer's matrix comes from the largest id seen in any of its records. |
| `TransitionMatrix.LeadersAre` | scripts/compute_transition_matrix.py:84-95 | The leaders of a layer are the first experts of exactly its non-empty records, in order. |
| `TransitionMatrix.MovesArePlaces` | scripts/compute_transition_matrix.py:84-95 | A count is the number of places where one leader directly follows another. |
| `TransitionMatrix.RowConserves` | scripts/compute_transition_matrix.py:98-106 | The moves out of an expert, summed over targets, are its departures: nothing is lost. |
| `TransitionMatrix.CountsConserve` | scripts/compute_transition_matrix.py:84-95 | Every non-empty record of a layer but its last is counted exactly once. |
| `TransitionMatrix.RowsSumToOne` | scripts/compute_transition_matrix.py:107-113 | Rows sum to 1, or to 0 without observations. |
| `TransitionMatrix.LayersAreStochastic` | scripts/compute_transition_matrix.py:97-115 | The same at the size each layer's matrix is built with. |
| `TransitionMatrix.FillMatrix` | scripts/compute_transition_matrix.py:98-106 | Matrix and row totals after the counts are poured in, in any order. |
| `TransitionMatrix.NormaliseRows` | scripts/compute_transition_matrix.py:107-113 | Every cell becomes its share of the row. |
| `TransitionMatrix.EntryIsFrequency` | scripts/compute_transition_matrix.py:107-113 | An entry times the departures of its row is the number of moves. |
| `TransitionMatrix.BuildTransitionMatrices` | scripts/compute_transition_matrix.py:81-115 | A layer has a matrix exactly when two of its records are non-empty; it spans every id seen there and holds the observed frequencies. |
| `Quantize.RoundIsNearest` | scripts/extract_mixtral_experts.py:234 | Rounding is to the nearest integer, halves to even. |
| `Quantize.QuantizationError` | scripts/extract_mixtral_experts.py:220-235 | For every tensor the clip alters no rounded code, codes stay in [-127, 127], and the error is at most scale / 2, i.e. max_abs / 254 unless the tensor is zero. |
| `Quantize.ExtremesAreExact` | scripts/extract_mixtral_experts.py:220-235 | Zeros and the extreme value are reconstructed exactly, the extreme with code 127 or -127. |
| `Quantize.MaxSurvives` | scripts/extract_mixtral_experts.py:220-235 | The reconstructed tensor has the original's largest magnitude. |
| `Quantize.QuantizeIsStable` | scripts/extract_mixtral_experts.py:220-235 | Quantising a reconstructed tensor gives the same scale and codes. |
| `Quantize.QuantizeIsSymmetric` | scripts/extract_mixtral_experts.py:220-235 | Negating the tensor negates the codes and keeps the scale. |
| `Quantize.ScaleTile` | scripts/extract_mixtral_experts.py:436-442 | One tile is scaled in place and nothing else. |
| `Quantize.DequantBlockwise` | scripts/extract_mixtral_experts.py:409-443 | Every element is decoded and multiplied once, by the scale of its own block; a scale grid of another shape is refused and no other. |
| `Quantize.ScaledAndTile` | scripts/extract_mixtral_experts.py:429-442 | Scaling multiplies, and tile b of an axis is the indices from b * block up to the next tile. |
| `Clustering.ClusterExperts` | scripts/compute_expert_aliases.py:155-173 | The clustering loop with its early break computes the clustering. |
| `Clustering.EachHasItsPlace` | scripts/compute_expert_aliases.py:155-173 | With distinct ids every expert is canonical and similar to no earlier canonical, or the alias of the earliest similar canonical in scan order. |
| `Clustering.ClustersAreSound` | scripts/compute_expert_aliases.py:151-173 | Canonicals are pairwise below the threshold; each alias points straight to a canonical scanned earlier that it is similar to, without chains or cycles. |
| `Clustering.EveryIdPlaced` | scripts/compute_expert_aliases.py:155-173 | Canonicals and alias keys together are exactly the ids seen, whatever the files. |
| `Clustering.AccountsExactlyForDistinctIds` | scripts/compute_expert_aliases.py:65-81 | The two tables account for every file once if and only if no two files carry the same id. |
| `Clustering.AscendingScanAliasesDown` | scripts/compute_expert_aliases.py:155-173 | In an ascending scan every alias is to a smaller id, as the documentation says. |
| `Clustering.OtherScansCanAliasUp` | scripts/compute_expert_aliases.py:65-81 | In any other scan (file names sort lexicographically) equal weights of two experts make an alias to a larger id. |
| `TraceLayout.AcceptedExactlyWhenItFits` | rust-engine/src/gpu_native_expert_permutation_semantic_parity.rs:46-107 | A geometry is accepted if and only if the layer exists, all sizes are positive, top_k <= num_experts, and 4(2 d_model + num_experts + 2 top_k + top_k d_model) fits in 64 bits. |
| `TraceLayout.AcceptedTiles` | rust-engine/src/gpu_native_expert_permutation_semantic_parity.rs:46-107 | An accepted layout is six back-to-back sections of exactly that total. |
| `TraceLayout.SectionsPartition` | rust-engine/src/gpu_native_expert_permutation_semantic_parity.rs:25-43 | Every byte of [0, total) and no other is in exactly one section; sections are 4-byte aligned. |
| `TraceLayout.ParseInvertsEncode` | rust-engine/src/gpu_native_expert_permutation_semantic_parity.rs:109-141 | Parsing the little-endian encoding of a trace, with any padding after it, gives the trace back. |
| `TraceLayout.EncodeInvertsParse` | rust-engine/src/gpu_native_expert_permutation_semantic_parity.rs:109-141 | Encoding what was parsed gives back the first total_bytes bytes. |
| `TraceLayout.RowIs` | rust-engine/src/gpu_native_expert_permutation_semantic_parity.rs:129-138 | Route output i is the i-th row of its section. |
| `TraceLayout.ParseReads` | rust-engine/src/gpu_native_expert_permutation_semantic_parity.rs:109-141 | Where each part is read: little-endian words from byte 0, then 4 d_model, 4(d_model + num_experts) for the ids, 4 top_k further for the weights, and the last 4 d_model bytes for the output. |
| `TraceLayout.ParseReadsOutput` | rust-engine/src/gpu_native_expert_permutation_semantic_parity.rs:129-138 | Component j of route output i is the word at 4(d_model + num_experts + 2 top_k + i d_model + j). |
| `ErrorStats.TallyPair` | rust-engine/src/gpu_native_expert_permutation_semantic_parity.rs:249-272 | One pair folded into the running totals. |
| `ErrorStats.Compare` | rust-engine/src/gpu_native_expert_permutation_semantic_parity.rs:223-293 | The evidence is that of the vectors: exact counts, sums over the finite pairs, maximum, first worst index, largest relative error; an error exactly for empty or unequal lengths. |
| `ErrorStats.EvidenceCounts` | rust-engine/src/gpu_native_expert_permutation_semantic_parity.rs:235-270 | Each count of the evidence is the number of positions it is named for. |
| `ErrorStats.MeansOfOne` | rust-engine/src/gpu_native_expert_permutation_semantic_parity.rs:257-283 | The evidence of one finite pair: the distance of its values and its square. |
| `ErrorStats.MeansAddUp` | rust-engine/src/gpu_native_expert_permutation_semantic_parity.rs:257-283 | Means weighed by their numbers of finite pairs add up over any split of the vectors. |
| `ErrorStats.RelativeToLeft` | rust-engine/src/gpu_native_expert_permutation_semantic_parity.rs:264-269 | A relative error times the magnitude of the left value is the absolute error. |
| `ErrorStats.SquareOfSum` | rust-engine/src/gpu_native_expert_permutation_semantic_parity.rs:259-260 | sum^2 <= n * sum of squares. |
| `ErrorStats.MeanRmsMax` | rust-engine/src/gpu_native_expert_permutation_semantic_parity.rs:257-283 | mean^2 <= rms^2 <= max^2, and all three are present exactly when some pair is finite. |
| `ErrorStats.RootOrder` | rust-engine/src/gpu_native_expert_permutation_semantic_parity.rs:281-283 | Hence mean <= RMS <= maximum. |
| `PermutationWitness.SameMembership` | rust-engine/src/gpu_native_expert_permutation_semantic_parity.rs:688-697 | True exactly when the two lists hold the same ids, each as often. |
| `PermutationWitness.OrderDoesNotMatter` | rust-engine/src/gpu_native_expert_permutation_semantic_parity.rs:721-733 | If two neighbouring additions can always be swapped, the accumulated sum does not depend on the order. |
| `PermutationWitness.Accumulate` | rust-engine/src/gpu_native_expert_permutation_semantic_parity.rs:723-731 | The accumulation loop computes the sum in the given order, for any multiply-add. |
| `PermutationWitness.PermutationOnlyWitness` | rust-engine/src/gpu_native_expert_permutation_semantic_parity.rs:699-758 | Exactly the well-formed selections have a witness; its canonical order is the ids strictly ascending, and its comparison is that of the sum in rank order with the sum in id order, rounding included. |
| `PermutationWitness.NoDifferenceIsEquality` | rust-engine/src/gpu_native_expert_permutation_semantic_parity.rs:223-293 | The comparison reports no difference if and only if the two vectors are equal. |
| `PermutationWitness.NeverDiffersExactlyWhenCommuting` | rust-engine/src/gpu_native_expert_permutation_semantic_parity.rs:699-758 | Reordering changes no bit of the sum, whatever is selected, if and only if the multiply-add commutes after everything it can have accumulated. |
| `PermutationWitness.ExactCommutes` | rust-engine/src/gpu_native_expert_permutation_semantic_parity.rs:723-731 | Exact arithmetic commutes. |
| `PermutationWitness.ExactSumsAdd` | rust-engine/src/gpu_native_expert_permutation_semantic_parity.rs:723-731 | In exact arithmetic the accumulated sum is the sum of the products. |
| `PermutationWitness.RoundedDoesNotCommute` | rust-engine/src/gpu_native_expert_permutation_semantic_parity.rs:723-731 | Rounding every product and sum to 24 significant bits, ties to even, does not, so some selection makes the two orders differ. |

## Left out

- Wall-clock time, the async runtime and the thread pool themselves: arrivals, timeouts and schedules are arbitrary instead.
- Model compute, SSD reads, `warm_with` and `peek_experts`: a step is a deterministic function of token, position and KV state; warming has no effect on results.
- Floating-point rounding outside `Q8Views` and `PermutationWitness`, softmax, sigmoid and SIMD kernels; scores enter as given bit patterns and the bias addition is a parameter.
- Half-precision scales as numbers: widening an f16 pattern is a parameter of `Q8Views`.
- Aborts of the code are preconditions of the methods that would abort (token width in `write_token`, index below `seq_len`, matching vector lengths); only the 31-bit id assertion is an outcome of its own.
- `usize` overflow of the grown overflow slab and of `pos + i`: allocations that large fail first.
- Bit 31 of a block id is written as arithmetic (`2^31 + index`) instead of a bitwise or.
- A channel closed before the first request of a batch is modelled as one that stays empty; shutdown errors are not modelled.
- The idle-eviction class holds the pool and its managers as one value rather than as `PagedKv` objects; attaching a manager to a session is an operation the code does not show.
- The registry treats the entries of different requests as independent, which the sharded map provides; `RequestRegistry.IdsAreNeverReused` says up to how many registrations.
- `PooledBuffer` contents, page alignment and io_uring registration: buffers are identities.
- Negative expert ids and malformed lines in traces; the trace reader is not part of this model.
- The file reader, cosine and threshold of the clustering script: similarity is any relation.
- `Quantize.DequantBlockwise`: the fp8 lookup table is a parameter, and a block edge of zero or less is not modelled.
- The SHA-256 digests and the reported strings of the error evidence; the RMS error is represented by its square.
- `from_f32`, `matmat_into` and the float matvec kernel: the first only asserts its length, the second repeats the product per row, the third is a SIMD kernel.
- `rust-engine/src/config.rs`, `rust-engine/src/architecture.rs`, `rust-engine/src/distributed.rs`, `rust-engine/src/dequant.rs`, manifests, telemetry counters and report serialisation: they would only add easy members.
