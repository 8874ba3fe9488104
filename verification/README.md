# KeInFS, verified in Dafny

This project models four parts of KeInFS and proves what they promise.

- **The KAS granule allocator** (`Spans`, `Records`, `Greedy`, `Planner`, `Reserve`, `Shortfall`, `Allocator`,
  `Answers`, `FastFinalize`, `Recycle`, `Visits`, `Conservation`, `Store`). Each target keeps a list of free granule spans. A
  greedy planner turns spans into reservations over distinct failure domains; reservations are then
  claimed from bins, finalized, released, reclaimed and expired.
- **Leadership and failover** (`Leader`, `Cluster`, `Failover`, `Tearing`, `Agreement`, `Handout`, `Runs`,
  `Grants`, `Receipts`, `Settlements`, `Refusals`). Any number of leader-resident processes share one database. A lease record carries an
  epoch, and every allocator commit is fenced by the epoch its process holds.
- **The database layout** (`Keys`, `Persistence`, `Batching`, `Saving`, `Loading`). Length-prefixed keys, prefix
  ranges, chunked span lists, byte-bounded batches, paged scans.
- **Rendezvous placement** (`Placement`), **client byte paths** (`StripeReads`, `Coherence`) and
  **erasure coding** (`Galois`, `Linear`, `DecodePlans`, `PlanBuilder`, `Erasure`).

`Common` holds options, byte strings and sorting.

## How the pieces fit

Operations that change state are methods of the classes in `Store`, `StripeReads` and `Erasure`. Each is
proved equal to a function of the old state. `Leader` collects those functions for one process and one
database, `Cluster` lets any number of processes interleave them, and `Runs` states what holds in every
state of every run. `Failover` proves that each step keeps a holder's cache safe to go on from, also after
an operation that was refused halfway; `Tearing` does the same for a persist that stops between two of its
commits; `Agreement` says when the cache is the database itself. `Batching` says where a persist can stop,
from the sizes of its units and the 4 MiB budget of a transaction; `Visits` says which granules a reclaim
can get to, whatever the order in which its hash map yields the targets. `Grants`, `Receipts` and
`Settlements` say what answers are worth: when a lease is granted, and what is durable once an operation
has answered.

The main results:

- `Runs.NoDoubleAllocation`, `Runs.CachesCover`, `Runs.EpochsRise`, `Runs.NoDoubleHandout`,
  `Runs.ClaimServes`: safety of every run with failovers, refused operations, processes that die in the
  middle of a persist, any interleaving and any clock readings.
- `Grants.GrantWaitsForExpiry`, `Grants.LeaseStands`: no run takes over a lease that is live at the grant
  reading.
- `Receipts.ReservedIsDurable`, `Receipts.ClaimedIsDurable`, `Settlements.FinalizedIsDurable`,
  `Settlements.ReleasedIsDurable`, `Settlements.ReclaimedIsDurable`, `Settlements.ReapedIsDurable`,
  `Settlements.FencedIsRefused`: in every run, what an `Ok` says is durable, and whoever is fenced changes
  nothing and does not answer `Ok` to a write.
- `Runs.CachesAgree`: when a holder's cache is the durable state, with the exact conditions in
  `Agreement.ReleaseAgreesIff`, `Agreement.FinalizeAgreesIff` and `Agreement.ReclaimAgreesIff`.
- Reserve.ReserveBatch: planner safety for every grouping, and with one target per failure domain a batch
  as large as any reservations that could be made.
- FastFinalize.FastFinalizeRefines: the metadata-only finalize equals the general one.
- Loading.SaveAndReload: saving and loading is lossless, whatever the batches and pages, and a save that
  stops early leaves exactly a shorter save, cut at the boundary of a transaction.
- Placement.MinimalReshuffle: losing targets disturbs at most that many choices, for any grouping.
- Erasure.LoseAndRebuild: any two lost fragments are rebuilt exactly; the field laws and the absence of
  singular survivor matrices are proved, not assumed.
- `StripeReads.KfcCore.ReadRangedCached`, `Coherence.ReadsFollowCommits`: cached reads are exact slices,
  and never older than a commit that returned before they began.

## Assumptions

- Leader-resident mode; one allocation shard. The clock, lost lease calls and reservation ids are arguments;
  ids are new, generated ones and those a client supplies. The encoded sizes of write units are arguments.
- A commit fails only at the fence or together with its process. So a persist is applied whole, fenced, or
  stopped between two of its commits with the process dead. A process that is fenced between two commits
  looks the same to the database: it no longer passes the fence.
- A process runs one operation at a time, and its renewer and its refreshes do not run inside one. The
  source keeps operations apart but not the renewer: `Refusals.RenewalInsideOperation` is a plan that
  reserves a granule twice because its process lost the lease and won it back before persisting. A process
  that does not hold the lease may load any mixture of old and new state.
- Target records are not rewritten by unfenced control-plane calls inside a run.
- A run has fewer than 2^64 - 1 steps, so the epoch counter does not reach its top.
- Commit markers land only on granules of live reservations, and no marker lands between the reaper's read
  of the markers and its commit.
- The callers of the process that passes the fence keep three conditions (nothing is asked of calls that
  reach any other process). A release that is carried out selects only unmarked granules, and one that is
  refused for a bad index selects nothing before it (`Cluster.ReleaseSafe`). A reclaim names a marked or
  reserved granule only behind one of the same target that is out of range (`Cluster.ReclaimSafe`). A
  release or expiry whose persist stops writes each target it frees granules on in the same 4 MiB
  transaction as the reservations they come from (`Cluster.TornSafe`), as every persist does that fits one
  transaction (`Tearing.SmallReleaseKept`). `Refusals.ReleaseCoversIff`, `Refusals.ReclaimCoversIff` and
  `Tearing.TornReleaseIff` show that each is exactly what safety needs.
- Hashes are functions: the tie-break of the planner and the rendezvous score are arguments. JSON
  encoding is left out, and stored values are the decoded records.
- The ISA-L encoder multiplies matrix rows with byte columns, its inverse is a true inverse that fails
  only on singular matrices, and its Reed-Solomon matrix is the identity over a row of ones and a row of
  powers of 2.

## Where the code does less than it says

- A release batch that is refused because of a bad index has already freed granules in memory for the
  mutations before it, and nothing is persisted. `Refusals.ReleaseCoversIff` and
  `Agreement.ReleaseAgreesIff` say exactly when the leader may go on and when its cache is still the
  database; `Refusals.RefusedReleaseDoubleAllocates` shows a granule reserved twice otherwise.
- A refused finalize drops reservations from memory only. The ledger stays sound, but the leader forgets
  them: `Agreement.FinalizeAgreesIff`, `Refusals.RefusedFinalizeForgets`.
- A reclaim that hits an unknown target or an index out of range keeps in memory what it freed before and
  persists nothing. What that is depends on the hash map: `Refusals.OrderDecides`. Of the caller's list it
  is any granule in range with none out of range before it on its own target, so
  `Agreement.ReclaimAgreesIff` states when cache and database agree after every order. Asking again then
  frees nothing: `Refusals.RefusedReclaimSticks`.
- Reclaim does not look at reservations: `Visits.ReclaimSoundIff`, `Refusals.ReclaimTakesReserved`.
- A persist over 4 MiB is several transactions, targets before reservations. A release that stops between
  a target and the reservation it frees leaves granules durably free and reserved:
  `Tearing.TornReleaseIff`, and `Refusals.TornReleaseDoubleAllocates` for a target with 250 000 free spans.
  A release that fits one transaction cannot: `Tearing.SmallReleaseKept`. Every other operation only leaks:
  `Tearing.TornStep`. (The source leaves a crash in the middle of a persist to a reset.)
- The read-modify-write seed of an object longer than 4 MiB with stripes wider than 4 MiB holds only the
  first 4 MiB, because the short-read test uses the already widened window: `StripeReads.SeedCompleteIff`,
  `StripeReads.SeedCutsShort`.
- A prefix of only 0xFF bytes gets a range that misses its extensions: `Keys.RangeIsPrefixIff`,
  `Keys.TopPrefixMisses`. No encoded key is such a prefix.
- The epoch saturates, and a takeover at the top does not advance the fence: `Runs.TakeoverAdvancesIff`,
  `Refusals.TopEpochSharesFence`.
- Ranking failure domains by their best target does not fill a fleet whose domains hold several: four
  reservations fit where `Shortfall.GreedyFallsShort` gets three at most, and `Shortfall.PlanLopsided`
  bounds it for a family of such fleets.
- Placement keeps surviving targets chosen but not always at the same fragment index:
  `Placement.SurvivorKeepsIndexIff`, `Placement.LostDomainShifts`.

## Model

| member | source | states |
|---|---|---|
| `Spans.AllocateOne` | poc/kas/src/fdb_store.rs:2927-2936 | takes the least free granule and exactly that one, and keeps the list canonical |
| `Spans.ReleaseGranule` | poc/kas/src/fdb_store.rs:2938-2955 | append, sort and merge of a granule that is not free gives the canonical list with exactly that granule added |
| `Spans.MergeTouching` | poc/kas/src/fdb_store.rs:2944-2954 | merging sorted disjoint spans keeps the free set and leaves no two spans touching |
| `Spans.ReleasedAdds` | poc/kas/src/fdb_store.rs:2938-2955 | a release adds one granule to the free set and one to the count, and keeps the list canonical |
| `Spans.CanonicalUnique` | poc/kas/src/fdb_store.rs:2923-2961 | two canonical lists with the same free set are equal |
| `Spans.CountIsSize` | poc/kas/src/fdb_store.rs:2923-2925 | the summed span lengths of a canonical list are the size of its free set |
| `Spans.AllocateThenRelease` | poc/kas/src/fdb_store.rs:2927-2955 | allocating and releasing restores the list |
| `Spans.ReleaseOrderIrrelevant` | poc/kas/src/fdb_store.rs:2938-2955 | two releases commute |
| `Planner.SortMembers` | poc/kas/src/fdb_store.rs:2878-2886 | a permutation sorted by free granules, then id |
| `Planner.SortDomains` | poc/kas/src/fdb_store.rs:2866-2876 | a permutation in which of any two domains the earlier has the larger head, or on a tie the smaller hash, or then the smaller key |
| `Planner.SelectDomains` | poc/kas/src/fdb_store.rs:2811-2820 | the first k domains with a head, or fewer than k domains have a free granule |
| `Planner.TakeHead` | poc/kas/src/fdb_store.rs:2823-2847 | takes the least free granule of the domain's head and restores the member order |
| `Planner.PlanRound` | poc/kas/src/fdb_store.rs:2810-2848 | one reservation over k distinct domains from the freest heads, or too few domains are left |
| `Shortfall.PlanLopsided` | poc/kas/src/fdb_store.rs:2790-2864 | with two large targets alone in their domains and all others in one domain, two-fragment batches stay below the two targets' free granules |
| `Shortfall.GreedyFallsShort` | poc/kas/src/fdb_store.rs:2790-2864 | a fleet with room for four reservations of which the planner makes at most three, whatever the tie-break |
| `Planner.PlanReservationBatch` | poc/kas/src/fdb_store.rs:2790-2864 | k placements in distinct domains each, all granules distinct and free before, free sets lose exactly those, stops early only for want of domains, the first from the freest heads, optimal for single-target domains |
| `Greedy.GreedyKeepsFeasible` | poc/kas/src/fdb_store.rs:2810-2848 | using the k largest heads never spoils a schedule that was still possible |
| `Greedy.StopIsOptimal` | poc/kas/src/fdb_store.rs:2790-2864 | stopping at the batch size or for want of heads gives the largest R with the sum of min(free, R) at least k*R |
| `Greedy.SupplyOfPermutation` | poc/kas/src/fdb_store.rs:2866-2876 | the supply does not depend on the order of the heads, hence not on the tie-break |
| `Reserve.GroupByDomain` | poc/kas/src/fdb_store.rs:2733-2788 | groups exactly the eligible targets by failure domain, and fails exactly when an eligible target has no domain rule |
| `Reserve.BuildDomains` | poc/kas/src/fdb_store.rs:2766-2788 | the sorted candidate domains represent the grouped targets |
| `Reserve.WriteBack` | poc/kas/src/fdb_store.rs:1460-1474 | exactly the dirty targets get the planner's spans and count |
| `Reserve.ReserveBatch` | poc/kas/src/fdb_store.rs:1410-1480 | errors exactly on zero fragments or an unusable domain; otherwise the batch's granules were free, are distinct and spread, the table loses exactly them, and with one target per failure domain no reservations that could be made number more |
| `Reserve.AnyPlanIsFeasible` | poc/kas/src/fdb_store.rs:2790-2864 | any reservations over distinct failure domains out of distinct free granules fit the supply of the free counts |
| `Reserve.DrivesArePerDomain` | poc/kas/src/fdb_store.rs:2733-2764 | with drive domains every target is alone in its failure domain |
| `Reserve.EligibleIff` | poc/kas/src/fdb_store.rs:2741-2762 | eligible means healthy, active, with room, on the shard asked for, not excluded or banned, and among the required ones if any are named |
| `Reserve.DomainKeyMeaning` | poc/kas/src/fdb_store.rs:2909-2921 | two targets have different keys exactly when they are different drives, or on different servers or racks |
| `Reserve.SpreadMeaning` | poc/kas/src/fdb_store.rs:2733-2788 | a planned reservation is on usable targets, no two on the same drive, server or rack |
| `Reserve.NoneLeftOut` | poc/kas/src/fdb_store.rs:2811-2820 | when the planner stops short, fewer than k usable targets are left in different domains |
| `Reserve.PlannedIsReserved` | poc/kas/src/fdb_store.rs:1441-1480 | a plan on the candidates means the same for the table they were copied from |
| `Reserve.ReserveKeepsSound` | poc/kas/src/fdb_store.rs:1441-1480 | inserting a planned batch keeps every granule in one reservation and out of the free spans |
| `Allocator.NormalizeMeaning` | poc/kas/src/fdb_store.rs:2963-2990 | refused exactly on an out-of-range index; otherwise sorted, unique and exactly the indexes asked for, none meaning all |
| `Allocator.SelectionSplits` | poc/kas/src/fdb_store.rs:1711-1736 | selected and unselected granules are disjoint and together the whole record |
| `Allocator.ReturnAllFrees` | poc/kas/src/fdb_store.rs:2992-3029 | frees exactly the placements that are not committed and marks every changed target dirty |
| `Allocator.MutateAllMeans` | poc/kas/src/fdb_store.rs:1631-1784 | when a batch is accepted, what it frees, what it leaves, and that its writes are exactly its changes |
| `Allocator.RejectedBatchClean` | poc/kas/src/fdb_store.rs:1663-1762 | a refused batch leaves memory alone if and only if nothing before the bad mutation names a live reservation |
| `Allocator.AbsentBatch` | poc/kas/src/fdb_store.rs:1663-1675 | late finalizes and releases change nothing, persist nothing and answer with synthetic records |
| `Answers.MutateAllAnswers` | poc/kas/src/fdb_store.rs:1663-1762 | an accepted batch answers each mutation in turn: finalize with the placements asked for and state Finalized, release with the others, in their old order, with id and expiry kept and the record gone once none are left |
| `Answers.SelectedPicks` | poc/kas/src/fdb_store.rs:1694-1698 | the kept placements are those at exactly the positions asked for, in order |
| `Answers.OthersPicked` | poc/kas/src/fdb_store.rs:1725-1736 | the remaining placements are those at exactly the other positions, in order, and none remain exactly on a full release |
| `Answers.RefusalIsInvalid` | poc/kas/src/fdb_store.rs:1663-1762 | in sound memory every refusal is an invalid argument |
| `Allocator.Ledger` | poc/kas/src/fdb_store.rs:2992-3029 | free, reserved and in-use granules are disjoint and cover every target, and free counts are right |
| `Conservation.FinalizeMoves` | poc/kas/src/fdb_store.rs:1679-1699 | finalize moves everything its reservations hold to in use, also when only a part is kept |
| `Conservation.ReleaseMoves` | poc/kas/src/fdb_store.rs:1700-1738 | release moves the selected granules to free, except committed ones, which become in use |
| `Conservation.ReserveMoves` | poc/kas/src/fdb_store.rs:1441-1480 | reserve moves exactly the planned granules from free to reserved |
| `Conservation.ReclaimMoves` | poc/kas/src/fdb_store.rs:2603-2635 | reclaim moves exactly the granules before the first one out of range from in use to free and counts those that moved |
| `FastFinalize.CheckAllMeaning` | poc/kas/src/fdb_store.rs:1569-1590 | the first pass succeeds exactly on distinct ids whose live reservations are finalized whole, and refuses exactly when the first other mutation repeats an id or has a bad index |
| `FastFinalize.FastFinalizeRefines` | poc/kas/src/fdb_store.rs:1555-1629 | when taken, its replies, memory and deletes are those of the general path; when it refuses, so does the general path |
| `Recycle.DrainIds` | poc/kas/src/fdb_store.rs:1527-1552 | no id is claimed twice and claimed ids have left the queue |
| `Recycle.DrainRecords` | poc/kas/src/fdb_store.rs:1527-1552 | claimed records are live, unexpired and recorded with their new expiry |
| `Recycle.DrainQueue` | poc/kas/src/fdb_store.rs:1523-1553 | takes from the front and falls short only when the queue is empty |
| `Recycle.DrainServes` | poc/kas/src/fdb_store.rs:1527-1552 | the claimed ids are the first `want` of the queue that exist, are Reserved and unexpired, in order, and what is left holds all the others |
| `Recycle.DroppedIsDead` | poc/kas/src/fdb_store.rs:1531-1543 | an id dropped without being claimed is absent, not Reserved, or has an expiry that has passed |
| `Recycle.ClaimMeaning` | poc/kas/src/fdb_store.rs:1510-1553 | a claim serves the first live ids, nothing is popped after the last of them, and each gets the expiry min(now + ttl, 2^64 - 1), or keeps its own without a ttl |
| `Recycle.ReclaimFrees` | poc/kas/src/fdb_store.rs:2603-2635 | frees every granule up to the first one out of range, counts the ones that were not free, marks changed targets, and fails with the right error exactly when there is one out of range |
| `Visits.VisitedIsReached` | poc/kas/src/fdb_store.rs:2603-2635 | whatever the order of the targets, a reclaim gets only to granules in range with none out of range named before them on their target |
| `Visits.ReachedIsVisited` | poc/kas/src/fdb_store.rs:2603-2635 | for each of those some order of the targets gets to it |
| `Visits.ReclaimSoundIff` | poc/kas/src/fdb_store.rs:2576-2655 | reclaim keeps the ledger sound in every order of the targets if and only if the caller's list reaches no reserved granule |
| `Recycle.OrderSoundIff` | poc/kas/src/fdb_store.rs:2603-2635 | one visiting order keeps the ledger sound if and only if no granule before its first one out of range is reserved |
| `Recycle.ExpireMeaning` | poc/kas/src/fdb_store.rs:2657-2730 | the reaper drops its whole batch and frees its granules except those with a commit marker |
| `Runs.EpochsRise` | poc/kas/src/fdb_store.rs:3152-3174 | over grants and commits epochs never fall, an epoch has one owner, and one process at most passes the fence |
| `Runs.CommitFollowsGrant` | poc/kas/src/fdb_store.rs:870-934 | a committed batch's epoch was granted to its writer and no higher epoch was granted before the commit |
| `Runs.SelfRenewalKeepsTerm` | poc/kas/src/fdb_store.rs:1328-1384 | a live holder's renewal keeps the epoch, the term and the loaded state |
| `Runs.TakeoverAdvancesIff` | poc/kas/src/fdb_store.rs:3152-3174 | taking over an expired lease advances the epoch exactly below the counter's top |
| `Grants.GrantIff` | poc/kas/src/fdb_store.rs:3152-3174 | a grant is refused exactly while another process's lease is live; otherwise the record names the new owner, the epoch and an expiry 30 seconds on |
| `Grants.LiveLeaseRefuses` | poc/kas/src/fdb_store.rs:1287-1384 | while another process's lease is live, asking writes nothing and grants nothing; without a term the answer is false, with one the term is given up |
| `Grants.FreshTermWaits` | poc/kas/src/fdb_store.rs:1328-1340 | with more than 15 seconds of its term left a process does not ask |
| `Grants.FreeLeaseGrants` | poc/kas/src/fdb_store.rs:1287-1322 | with no live lease of another process an answered call makes the process leader, with nothing loaded |
| `Grants.TermKeptIff` | poc/kas/src/fdb_store.rs:1341-1384 | a process that asks keeps its term exactly when it is granted the same epoch, and otherwise gives it up |
| `Grants.GrantWaitsForExpiry` | poc/kas/src/fdb_store.rs:3152-3174 | in every run the lease of any other process had run out at the reading of the grant that replaced it |
| `Grants.LeaseStands` | poc/kas/src/fdb_store.rs:3152-3174 | in every run a lease keeps owner and epoch as long as no grant reading is past its end |
| `Runs.CachesAgree` | poc/kas/src/fdb_store.rs:1287-1408 | whoever passes the fence and is loaded has the durable targets, and durable reservations, in its cache, if every step since the epoch began has been clean |
| `Runs.TakeoverUnloads` | poc/kas/src/fdb_store.rs:1287-1408 | a new epoch leaves no loaded process that passes the fence, so a takeover ends any disagreement |
| `Runs.CachesCover` | poc/kas/src/fdb_store.rs:1410-1508 | in every run a holder's cache offers no granule that is durably reserved or marked, and knows only durable reservations |
| `Runs.NoDoubleAllocation` | poc/kas/src/fdb_store.rs:1410-1508 | in every state of every run no granule is in two reservations, free and reserved, or free and committed, and the ledger is complete |
| `Runs.NoDoubleHandout` | poc/kas/src/fdb_store.rs:2254-2441 | no id is handed out twice, none waits in a bin once handed out, none waits in two places |
| `Runs.ClaimServes` | poc/kas/src/fdb_store.rs:2254-2330 | in every run a claimed record was durable, Reserved, without an expiry that has passed and new to every client, is durable with its new expiry, and shares no granule with any other durable reservation or the free spans |
| `Runs.HandedOutDisjoint` | poc/kas/src/fdb_store.rs:2254-2441 | in every run any two handed-out reservations that are still live hold disjoint granules, none of them free |
| `Runs.LoadsForget` | poc/kas/src/fdb_store.rs:418-483 | a process that has just loaded has nothing waiting in its bins |
| `Receipts.ReservedIsDurable` | poc/kas/src/fdb_store.rs:1410-1508 | in every run a reserve answers Ok exactly with its batch, all durable, out of granules in no other reservation and not free; fenced with something planned it answers Aborted, and an error leaves the database alone |
| `Receipts.RefilledIsDurable` | poc/kas/src/fdb_store.rs:2379-2432 | the same for a refill, and the ids are queued behind those that wait exactly when it answers Ok |
| `Receipts.ClaimedIsDurable` | poc/kas/src/fdb_store.rs:2254-2330 | in every run a claim at the holder answers with the first live reservations of the bin, durable with their new expiry; elsewhere it answers with nothing or Aborted and writes nothing |
| `Settlements.FinalizedIsDurable` | poc/kas/src/fdb_store.rs:2523-2544 | in every run the holder refuses a finalize exactly on a repeated id or bad index, and otherwise each answer is what finalize promises, the reservation is durably gone, and no target changes |
| `Settlements.ReleasedIsDurable` | poc/kas/src/fdb_store.rs:1631-1784 | the same for release: each answer is the durable record, and every granule asked for is durably free |
| `Settlements.RecordIsDurable` | poc/kas/src/fdb_store.rs:1727-1762 | the remainder of a partial release is durable as answered, with id, state and expiry kept |
| `Settlements.ReapedIsDurable` | poc/kas/src/fdb_store.rs:2657-2730 | in every run the holder's reaper takes only reservations whose expiry has passed, drops them durably and frees exactly their unmarked granules |
| `Settlements.ReclaimedIsDurable` | poc/kas/src/fdb_store.rs:2576-2655 | in every run the holder's reclaim errs exactly on a granule out of range; otherwise it answers with the number of granules that were not free and makes them durably free |
| `Settlements.FencedIsRefused` | poc/kas/src/fdb_store.rs:870-934 | in every run an operation of a process that does not pass the fence changes nothing durably, and does not answer Ok if it had something to write |
| `Runs.StepKeeps` | poc/kas/src/fdb_store.rs:1865-1897 | every step of every process keeps the fence, the safety of the holder's cache, the ledger and the bins |
| `Agreement.ReleaseAgreesIff` | poc/kas/src/fdb_store.rs:1663-1784 | a release leaves cache and database equal exactly when it repeats an id, has no bad index, or names nothing that exists before its first bad index |
| `Agreement.FinalizeAgreesIff` | poc/kas/src/fdb_store.rs:2523-2544 | the same for finalize, or some mutation repeats an id or has a bad index while all before it are distinct and finalize whole records |
| `Agreement.ReclaimAgreesIff` | poc/kas/src/fdb_store.rs:2603-2652 | in every order reclaim errs exactly on a granule out of range; every order leaves cache and database equal exactly when all granules are in range, or every one in range with none out of range before it on its target was free already |
| `Agreement.CleanStep` | poc/kas/src/fdb_store.rs:1865-1897 | every step that is clean in this sense leaves a holder's cache the database |
| `Refusals.ReleaseCoversIff` | poc/kas/src/fdb_store.rs:1700-1784 | the leader may go on after a release exactly when it freed no marked granule or was refused before it freed anything |
| `Refusals.ReclaimCoversIff` | poc/kas/src/fdb_store.rs:2576-2655 | the leader may go on after a reclaim in every order of the targets exactly when the caller's list reaches no marked and no reserved granule |
| `Refusals.OrderDecides` | poc/kas/src/fdb_store.rs:2605-2614 | one list, an unknown target and a reserved granule: one order frees the granule in memory, the other frees nothing |
| `Refusals.ReclaimTakesReserved` | poc/kas/src/fdb_store.rs:2615-2635 | an accepted reclaim of a reserved granule leaves it free and reserved |
| `Refusals.RefusedReleaseDoubleAllocates` | poc/kas/src/fdb_store.rs:1663-1784 | a refused release followed by a reserve leaves one granule in two durable reservations |
| `Refusals.RefusedFinalizeForgets` | poc/kas/src/fdb_store.rs:1663-1699 | after a refused partial finalize the leader answers a release of a live reservation as done and frees nothing |
| `Refusals.RefusedReclaimSticks` | poc/kas/src/fdb_store.rs:2603-2635 | after a refused reclaim the same granule, reclaimed again, counts as free already and stays in use durably |
| `Refusals.TornReleaseDoubleAllocates` | poc/kas/src/fdb_store.rs:789-845 | a release on a target with 250 000 free spans takes two transactions, and a stop between them lets the next leader reserve a reserved granule |
| `Refusals.TopEpochSharesFence` | poc/kas/src/fdb_store.rs:3152-3174 | at the top of the counter a takeover leaves the replaced process passing the fence |
| `Refusals.RenewalInsideOperation` | poc/kas/src/fdb_store.rs:1328-1384 | a process that loses and wins back the lease between planning and persisting commits a granule that is reserved |
| `Tearing.TornReserve` | poc/kas/src/fdb_store.rs:794-845 | whatever part of a reserve's writes has landed, the ledger is sound |
| `Tearing.TornBatchSound` | poc/kas/src/fdb_store.rs:794-845 | the same for finalize, and for a release if no granule was freed whose reservation was not written |
| `Tearing.TornReleaseIff` | poc/kas/src/fdb_store.rs:794-845 | every stop that the transactions allow leaves the ledger sound if and only if each target's freeing unit is in one transaction with the units of the reservations it frees |
| `Tearing.FitsOneCommit` | poc/kas/src/fdb_store.rs:831-845 | a persist of at most 4 MiB lands whole or not at all |
| `Tearing.SmallReleaseKept` | poc/kas/src/fdb_store.rs:831-845 | so a release of at most 4 MiB meets that condition |
| `Tearing.TornStep` | poc/kas/src/fdb_store.rs:794-845 | a process that dies in the middle of a persist leaves the fence, the ledger and every cache as they must be |
| `Tearing.WritesAreDurable` | poc/kas/src/fdb_store.rs:704-853 | without a tear an operation at the holder makes exactly the modelled writes durable |
| `Failover.RenewShape` | poc/kas/src/fdb_store.rs:1287-1384 | a renewal writes at most the lease and believes only an epoch it was granted |
| `Failover.RenewReloads` | poc/kas/src/fdb_store.rs:1287-1408 | a process is loaded only under the term it was loaded in |
| `Failover.PersistKeeps` | poc/kas/src/fdb_store.rs:704-853 | a persist after which cache and database fit keeps the fence, the caches and the ledger, whether it commits or is fenced |
| `Failover.ReserveCovers` | poc/kas/src/fdb_store.rs:1441-1497 | a planned batch written from a safe cache leaves the cache safe and the ledger sound, also for targets the cache and the database differ on |
| `Failover.BatchCovers` | poc/kas/src/fdb_store.rs:1663-1784 | the same for an accepted batch of mutations on a part of the durable reservations |
| `Failover.ReclaimCovers` | poc/kas/src/fdb_store.rs:2603-2652 | the same for a reclaim, carried out or refused halfway |
| `Failover.RefusedFinalize` | poc/kas/src/fdb_store.rs:1663-1699 | a refused finalize has dropped reservations from memory and nothing else |
| `Failover.ExpireStep` | poc/kas/src/fdb_store.rs:2657-2730 | the reaper keeps the fence, the caches and the ledger, also when expiry beats finalize |
| `Handout.MutateShrinksBins` | poc/kas/src/fdb_store.rs:3031-3049 | finalize and release only take ids out of the bins |
| `Handout.MutateDropsLive` | poc/kas/src/fdb_store.rs:3031-3049 | an accepted batch takes out of the bins exactly the live reservations it names |
| `Handout.DropMeaning` | poc/kas/src/fdb_store.rs:3031-3049 | removing an id removes nothing else, keeps every queue's order, and drops exactly the bins it empties |
| `Handout.ClaimTakes` | poc/kas/src/fdb_store.rs:1510-1553 | what a claim hands out was waiting in the bin and waits nowhere any more |
| `Store.Database.TryAcquireLease` | poc/kas/src/fdb_store.rs:1216-1264 | one transaction that writes the lease exactly as the grant decision says |
| `Store.Database.CommitWriteOps` | poc/kas/src/fdb_store.rs:870-934 | applies all writes under the lease's epoch and nothing under any other |
| `Store.KasStore.constructor` | poc/kas/src/fdb_store.rs:344-372 | a new process holds no term and has nothing loaded |
| `Store.KasStore.StepDown` | poc/kas/src/fdb_store.rs:1391-1408 | drops the term and marks everything stale |
| `Store.KasStore.AcquireLease` | poc/kas/src/fdb_store.rs:1287-1322 | the node and the lease become what the acquire function says, also when the call is lost |
| `Store.KasStore.RenewLease` | poc/kas/src/fdb_store.rs:1328-1384 | the node and the lease become what the renew function says, also when the call is lost |
| `Store.KasStore.RefreshTargetState` | poc/kas/src/fdb_store.rs:418-437 | loads the targets and forgets reservations and bins |
| `Store.KasStore.RefreshFullState` | poc/kas/src/fdb_store.rs:439-483 | loads targets and live reservations, forgets bins, drops dead durable records |
| `Store.KasStore.EnterLeased` | poc/kas/src/fdb_store.rs:1865-1897 | renews, refuses without a term, and refreshes exactly when something is not loaded |
| `Store.KasStore.PersistState` | poc/kas/src/fdb_store.rs:704-853 | refuses without a term, commits under the held epoch, or is fenced |
| `Store.KasStore.ClaimReadyBinRecords` | poc/kas/src/fdb_store.rs:1510-1553 | the pop loop leaves the state and the records of the claim function |
| `Store.KasStore.ClaimBatch` | poc/kas/src/fdb_store.rs:2254-2330 | claims in memory, then persists the expiry bumps under the fence |
| `Store.KasStore.ReleaseRecordPlacements` | poc/kas/src/fdb_store.rs:2992-3029 | the loop returns placements as the return function says and stops at an unknown target |
| `Store.KasStore.RemoveFromBins` | poc/kas/src/fdb_store.rs:3031-3049 | drops the id from every bin and drops empty bins |
| `Store.KasStore.ApplyOne` | poc/kas/src/fdb_store.rs:1663-1762 | one pass of the mutation loop |
| `Store.KasStore.ApplyReservationMutations` | poc/kas/src/fdb_store.rs:1631-1784 | duplicate check, mutation loop and persist give the mutation function's memory, database and reply |
| `Store.KasStore.TryFinalizeMetadataOnly` | poc/kas/src/fdb_store.rs:1555-1629 | the two passes and the persist give the fast finalize's memory, database and reply |
| `Store.KasStore.FinalizeReservationsBatch` | poc/kas/src/fdb_store.rs:2523-2544 | fast path first, general path when it gives way |
| `Store.GroupByTarget` | poc/kas/src/fdb_store.rs:2605-2613 | one group for each target named, its granules in the order of the call |
| `Store.KasStore.ReclaimTargetGranules` | poc/kas/src/fdb_store.rs:2576-2655 | the visit is one block per target named, in call order, the targets in some order, and the outcome is the reclaim function's for it |
| `Store.KasStore.ReleaseExpired` | poc/kas/src/fdb_store.rs:2657-2730 | picks the first expired ids in order and releases them whole, sparing marked granules |
| `Store.KasStore.ReserveBatchCommon` | poc/kas/src/fdb_store.rs:1410-1508 | an empty batch is answered with nothing; otherwise plans exactly when the request can be planned, records the plan and persists it under the fence |
| `Store.KasStore.RefillBin` | poc/kas/src/fdb_store.rs:2379-2432 | one refill round queues the new ids only once they are durable |
| `Store.PlanIsEnabled` | poc/kas/src/fdb_store.rs:1410-1508 | every plan under new ids is a reserve step of the cluster |
| `Store.PlanNumbers` | poc/kas/src/fdb_store.rs:2849-2858 | planned reservations carry the ids given and expire ttl from now, each a millisecond after the one before, or never without a ttl |
| `Keys.Encode` | poc/kas/src/fdb_schema.rs:98-110 | namespace, version, prefix and length-prefixed segments |
| `Keys.KeyPrefixIff` | poc/kas/src/fdb_schema.rs:98-110 | a key is a prefix of another exactly when kind and segments are |
| `Keys.PrefixRangeEnd` | poc/kas/src/fdb_schema.rs:112-124 | the loop finds the range end |
| `Keys.RangeIsPrefixIff` | poc/kas/src/fdb_schema.rs:112-124 | the range holds exactly the extensions of the prefix if and only if the prefix has a byte below 0xFF |
| `Keys.TopPrefixMisses` | poc/kas/src/fdb_schema.rs:112-124 | the range of the prefix 0xFF misses 0xFF 0x01 |
| `Keys.EncodedRange` | poc/kas/src/fdb_schema.rs:98-124 | the range of an encoded prefix is exactly its extensions |
| `Persistence.ChunkKeyFacts` | poc/kas/src/fdb_schema.rs:29-42 | chunk keys name one target and one index, and only a target's own prefix covers them |
| `Persistence.RecordWriteIsOutside` | poc/kas/src/fdb_store.rs:3133-3150 | a write without spans touches no span key |
| `Persistence.RewriteStores` | poc/kas/src/fdb_store.rs:743-773 | clearing and rewriting leaves exactly the new list under a target and every other list alone |
| `Saving.TargetUnitStores` | poc/kas/src/fdb_store.rs:3133-3150 | a target's write unit stores its record, and its spans when asked to, and nothing else |
| `Saving.SaveStores` | poc/kas/src/fdb_store.rs:794-829 | the write units together, bookkeeping included, leave exactly the saved content |
| `Saving.ForeignKinds` | poc/kas/src/fdb_schema.rs:53-96 | service instances, bin members and the state stamp are stored apart from targets, spans and reservations |
| `Batching.SameBatchIff` | poc/kas/src/fdb_store.rs:831-845 | two units are in one transaction exactly when no stop lies between them |
| `Saving.PersistUnits` | poc/kas/src/fdb_store.rs:831-845 | what lands is a prefix of the units cut at the boundary of a transaction, all of them unless a commit fails, all or none if they fit the budget, and a batch over the budget is a single unit |
| `Saving.UnitsOfPart` | poc/kas/src/fdb_store.rs:783-829 | the first units of a save are the units of a shorter save |
| `Loading.ReadPage` | poc/kas/src/fdb_store.rs:572-598 | a page is the whole range or a non-empty beginning of it |
| `Loading.ScanRangeValues` | poc/kas/src/fdb_store.rs:559-613 | a paged scan returns every value of the range once and in key order |
| `Loading.AssembleSpans` | poc/kas/src/fdb_store.rs:188-204 | reassembling the chunks gives back the lists that were split |
| `Loading.LoadAllTargets` | poc/kas/src/fdb_store.rs:671-689 | loading yields every stored record with its span list |
| `Loading.LoadActiveReservations` | poc/kas/src/fdb_store.rs:505-526 | loading yields exactly the stored records that are Reserved, and the ids of exactly the others |
| `Loading.CleanupIsBenign` | poc/kas/src/fdb_store.rs:439-460 | deleting those, even if it stops part-way, changes no target and no Reserved record |
| `Loading.SaveAndReload` | poc/kas/src/fdb_store.rs:505-853 | saved targets come back exactly, others unchanged, a save without spans changes no span list, and exactly the Reserved records come back; after a failed commit the same for the part before the boundary it stopped at |
| `Loading.SavedIsApplied` | poc/kas/src/fdb_store.rs:704-853 | a save of a leader's writes changes the content as the failover model says |
| `Loading.PartIsLanded` | poc/kas/src/fdb_store.rs:704-853 | a layout that lists a save's targets and sizes its units is one of the failover model's, and what the save leaves after its first n units is what that layout says landed |
| `Placement.ScoredTargets` | poc/keinctl/src/placement.rs:162-192 | exactly the usable targets, strictly ordered by score and id |
| `Placement.PickDistinctDomains` | poc/keinctl/src/placement.rs:272-309 | the best target of each of the first n domains, best domain first; fails exactly on an unspecified domain |
| `Placement.PlaceStripe` | poc/keinctl/src/placement.rs:206-233 | n ranked targets, or the number of usable domains when they are too few |
| `Placement.RankedCandidates` | poc/keinctl/src/placement.rs:246-265 | every usable domain's best target in rank order |
| `Placement.ChosenIff` | poc/keinctl/src/placement.rs:272-309 | a target is chosen, at the index of its rank, exactly when it is its domain's best and fewer than n domains are ahead |
| `Placement.HigherScoreFirst` | poc/keinctl/src/placement.rs:184-190 | chosen targets are healthy, usable and not excluded; an earlier one outscores a later one, the rest of its failure domain, and every target of a domain left out, ties going to the smaller id |
| `Placement.RanksPrefix` | poc/keinctl/src/placement.rs:206-265 | a shorter placement is a prefix of a longer one |
| `Placement.RosterOrderIrrelevant` | poc/keinctl/src/placement.rs:162-192 | the order of the roster does not matter |
| `Placement.RanksSpread` | poc/keinctl/src/placement.rs:272-309 | chosen targets are distinct and in distinct failure domains |
| `Placement.SurvivorStays` | poc/keinctl/src/placement.rs:206-309 | losing other targets keeps a chosen target chosen |
| `Placement.MinimalReshuffle` | poc/keinctl/src/placement.rs:206-309 | losing a set of targets changes at most that many chosen ones, for any grouping into domains |
| `Placement.LosingTargets` | poc/keinctl/src/placement.rs:162-192 | removing, excluding and marking unusable all only shrink the usable set |
| `Placement.SurvivorKeepsIndexIff` | poc/keinctl/src/placement.rs:272-309 | a surviving target keeps its fragment index exactly when every domain ahead of it stays ahead |
| `Placement.LostDomainShifts` | poc/keinctl/src/placement.rs:272-309 | losing a whole domain moves every target ranked behind it up by one |
| `Placement.GroupsAsAllocator` | poc/keinctl/src/placement.rs:69-96 | placement and allocator group targets into the same failure domains |
| `StripeReads.ClampedMeaning` | poc/kfc-core/src/core.rs:797-845 | byte i of a ranged read is the object's byte offset + i, up to the end of the range or the object |
| `StripeReads.KfcCore.ReadRangedCached` | poc/kfc-core/src/core.rs:797-845 | returns exactly the bytes from offset to the end of the range or object, from any mix of hits and misses, and leaves the cache exact |
| `StripeReads.KfcCore.ReadStripes` | poc/kfc-core/src/core.rs:820-844 | the stripe loop ends and collects the exact range |
| `StripeReads.KfcCore.FetchStripe` | poc/kfc-core/src/core.rs:853-920 | returns the exact stripe and keeps every cached stripe exact |
| `StripeReads.KfcCore.PutTierB` | poc/kfc-core/src/core.rs:941-949 | inserts unless the generation moved or the payload is empty |
| `StripeReads.KfcCore.InvalidateKey` | poc/kfc-core/src/core.rs:986-1000 | bumps the generation and drops exactly the key's stripes |
| `StripeReads.KfcCore.CommitHandle` | poc/kfc-core/src/core.rs:1201-1252 | a dirty staged handle is published and its key invalidated, leaving only exact stripes; a clean or ranged handle and a failed upload change nothing |
| `StripeReads.KfcCore.SeedRmwBuffer` | poc/kfc-core/src/core.rs:1164-1199 | the copy loop ends with the whole object, or its first 4 MiB when stripes are wider |
| `StripeReads.SeedCompleteIff` | poc/kfc-core/src/core.rs:1164-1199 | the seed is the object if and only if stripes or object fit 4 MiB, and otherwise its first 4 MiB |
| `StripeReads.SeedCutsShort` | poc/kfc-core/src/core.rs:1164-1199 | a 5 MiB object in 8 MiB stripes is seeded with its first 4 MiB |
| `Coherence.InvStep` | poc/kfc-core/src/core.rs:853-1000 | every step of readers, writers and invalidations keeps cached and in-flight stripes current |
| `Coherence.NoStaleStripes` | poc/kfc-core/src/core.rs:941-1000 | the cache never holds bytes read before the last invalidation of their key |
| `Coherence.ReadsFollowCommits` | poc/kfc-core/src/core.rs:1236-1244 | a read begun after a commit returned is never served an older version |
| `Linear.GF256IsLawful` | poc/keisal/src/lib.rs:116-118 | bytes under exclusive-or and carry-less multiplication modulo 0x11d keep all the field laws the codec uses |
| `Linear.MatricesAssociate` | poc/kee/src/isa_l_backend.rs:192-212 | a combination of rows times a vector is the same combination of the products |
| `DecodePlans.PickSources` | poc/kee/src/isa_l_backend.rs:168-180 | the first eight fragments that are not missing |
| `DecodePlans.GeneratorPowers` | poc/keisal/src/lib.rs:94-100 | the last generator row starts at 1 and doubles from entry to entry |
| `DecodePlans.SurvivorsRegular` | poc/kee/src/isa_l_backend.rs:187-192 | the rows that survive at most two losses are never singular, so no plan fails |
| `DecodePlans.DecodeRowRecovers` | poc/kee/src/isa_l_backend.rs:194-213 | a decode row computes its missing fragment from the survivors of any data |
| `PlanBuilder.BuildDecodePlan` | poc/kee/src/isa_l_backend.rs:164-226 | a plan exists and works for every erasure of at most two fragments |
| `PlanBuilder.BuildDecodePlans` | poc/kee/src/isa_l_backend.rs:146-162 | every non-empty erasure has its own working plan |
| `PlanBuilder.ErasureKey` | poc/kee/src/isa_l_backend.rs:233-239 | the key is the set of missing indexes |
| `PlanBuilder.KeysDiffer` | poc/kee/src/isa_l_backend.rs:233-239 | different erasures have different keys |
| `Erasure.PrepareShards` | poc/kee/src/isa_l_backend.rs:241-269 | each refusal, blank ids included, and otherwise the padded object and zeroed parity whatever the buffers held |
| `Erasure.EncodeInto` | poc/kee/src/isa_l_backend.rs:54-66 | the buffers end up with the ten fragments of the object |
| `Erasure.EncodedIsCodeword` | poc/kee/src/isa_l_backend.rs:54-66 | every byte is its generator row times its column of data bytes |
| `Erasure.JoinedIsObject` | poc/kee/src/isa_l_backend.rs:266-268 | the data fragments joined and cut are the object |
| `Erasure.Reconstruct` | poc/kee/src/isa_l_backend.rs:68-122 | each refusal, and otherwise exactly the codeword the present fragments come from |
| `Erasure.LoseAndRebuild` | poc/kee/src/isa_l_backend.rs:54-123 | encode, lose any two, rebuild: every fragment and the object come back |

## Left out

- The FoundationDB client, gRPC and NATS plumbing, FUSE replies, statistics and command-line tools: no logic of their own.
- Per-operation lease mode: the lease record is cleared after each operation, so epochs repeat and fence nothing by themselves.
- Registering targets, heartbeats and lifecycle changes inside a run: they write target records without a fence.
- A commit that fails for another reason while its process lives and holds the lease: memory is then ahead of the database, as after a refused release.
- Resetting the allocator, and durable bin members: bins are never read back from the database.
- Exactly which fleets with several targets per failure domain the planner fills: it is optimal with one target per domain, and `Shortfall` shows fleets where it is not; the condition between the two is not characterized.
- The outer loop and watermarks of a bin refill: only one round is modelled.
- The Tier-C disk cache, single-flight gates, cache budget and eviction order: any stripes may be evicted at any time.
- The software Reed-Solomon backend, other erasure profiles, and the ISA-L tables.
- Topology epochs, health rollups, committed-granule key encoding, configuration.
- Spans.AllocateOne: like the other functions that take a mutable vector, it is modelled as taking and returning the vector's value; aliasing is not modelled.
- Placement.ScoredTargets: states nothing about a roster that repeats a target id, where the outcome would depend on sort stability.
- Placement.PickDistinctDomains: states nothing about a roster that repeats a target id, where the outcome would depend on sort stability.
- Placement.PlaceStripe: states nothing about a roster that repeats a target id, where the outcome would depend on sort stability.
- Placement.RankedCandidates: states nothing about a roster that repeats a target id, where the outcome would depend on sort stability.
- Loading.LoadAllTargets: states nothing about a database with rows that do not decode.
- Store.KasStore.ReserveBatchCommon: asks for cached targets whose spans and counts are consistent, which every loaded holder has.
- Store.KasStore.PersistState: is one commit; the batches of a persist are in `Saving.PersistUnits` and their failures in `Tearing`.
- Store.KasStore.ClaimBatch: does not model the deferred deletes of durable bin members, which no load reads.
- Store.KasStore.RefillBin: does not model the second fenced persist, of durable bin members, which no load reads.
- StripeReads.KfcCore.FetchStripe: does not model the disk tier and the single-flight gate.
- StripeReads.KfcCore.PutTierB: does not model the write-back of evicted stripes to the disk tier.
- StripeReads.KfcCore.CommitHandle: does not model the refusal of an unknown handle number, nor an upload that reports an error although the object was published.
- StripeReads.KfcCore.InvalidateKey: does not model the disk tier's removal.
- StripeReads.KfcCore.CommitHandle: does not model an unknown file handle, nor an upload that fails after it has landed.
- Erasure.Reconstruct: the refusal for too few present fragments is not modelled, because ten slots with at most two missing have eight.
