# Verification of the DNS seeder's engine

A Dafny model of the stateful parts of simply-kaspa-dnsseeder: the peer store with its
hand-maintained attempt index, the probe scheduler with its worker pool, the persistence of
probe results, the per-IP rate limiter, and the read side (DNS snapshot and answers, HTTP
list and lookup, response cache, store summary). Check everything with
`dafny verify dfyconfig.toml`.

## How it is organised

| module | models |
|---|---|
| `Common`, `Net`, `Index` | 64-bit arithmetic, addresses and their stored keys, the order of the attempt index |
| `Peers` | records, probing rules, and every store transaction by its effect on a plain map |
| `Store`, `Summaries` | the store class with table and index; the one-pass summary |
| `PeerFilter`, `Freshness`, `Dns`, `PeerList`, `PeersCache` | what clients are shown |
| `RateLimit` | the limiter, with histories of checks and sweeps |
| `WorkerPool` | the pool as a machine of atomic steps |
| `Probe`, `Crawler` | the whole crawler as a machine: clock, table, pool, tick, HTTP submissions |
| `TickProgress`, `DispatchSpacing`, `Provenance` | theorems over all runs of that machine |
| `ReachableRuns` | runs of it that break a property |
| `AddressCollection` | the rounds and the time budget of one probe |

The form follows the program. Objects updated in place are classes (`Store.PeerStore`,
`RateLimit.RateLimiter`, `PeersCache.PeersCache`) whose methods are proved against functions
on values. Code whose point is interleaving (pool, tick, two-step persistence, cache
requests) is a total step function over values: a step that is not enabled changes nothing,
so "for every sequence of steps" means "for every interleaving".

## Reading the model

- A transaction is atomic. Each operation of `PeerStore` takes a `fault` flag standing for any
  database error; it then returns an error and changes nothing. A row is
  either a record or undecodable (`Corrupt`).
- Clock readings, the outcome of network waits, what a peer reports, the parse of a text and
  the random sample are parameters. Public routability and the user-agent parser are
  arbitrary functions (`Policy.routable`, `Filter.parse`).
- Table scans visit rows in arbitrary order where the result does not depend on it. The index
  range scan is ordered by attempt time and then by the key bytes. Keys are encoded as
  bincode's standard configuration does (enum tag, raw octets, variable-length little-endian
  port); injectivity is proved.
- `Windows.Valid` bounds `stale_good` by a quarter of `i64::MAX`, because the release build
  checks the multiplication at `store/src/peer_store.rs:533` and aborts beyond it.
  `PeerFilter.Comparable` says the same of the subtractions in `Filter::matches`;
  `Provenance.ScansNeverOverflow` shows that no run violates it.
- The table of a `Crawler` run is by construction what `PeerStore.Replay` makes of the run's
  commits in order (`Crawler.PeersAreCommitted`).
- Release builds abort on panic, so no step models unwinding. The move `Restart` is the
  process ending at any point and starting again: store and clock stay, everything else is
  lost, and the store is reopened.
- A run starts on any rows that opening the store leaves (`Crawler.TableOk`), so it may follow
  runs under other configurations; `map[]` is a new store.

## Where the code does not keep a property

- Two dispatches of a peer can be closer together than its re-probe threshold. A tick reads the
  clock once, and scans and commits before it dispatches, so what is spaced is the ticks' dates
  (`DispatchSpacing.DispatchSpacing`). On the clock the distance can fall short by the first
  tick's lag and no more (`DispatchSpacing.ClockSpacing`), and does at every lag
  (`ReachableRuns.LagShortensSpacing`). Without a lag it is kept in every configuration
  (`DispatchSpacing.PromptDispatchesApart`), and wherever there is a threshold for unanswered
  peers exactly then (`ReachableRuns.AlwaysClockApartIff`).
- A peer that answered its latest probe can be due before 80% of the serving window is over: the
  scheduler may store the attempt, dated by its tick, after the worker has stored the answer
  (`ReachableRuns.AttemptStoredAfterAnswer`). `Peers.DueWhileServedIff` says exactly when a peer
  is due and served; the last fifth of the window is never lost (`Peers.ReprobeBeforeExpiry`).
- After a restart under a stricter port policy old rows can starve the crawler: barred peers are
  fetched, rejected and never attempted, so they stay at the head of the index until they are
  pruned. Fewer than three due ones per thread do no harm (`TickProgress.TickProgress`); eight
  per thread that come first stop every tick (`TickProgress.OldBarredPeersStarve`,
  `ReachableRuns.StricterPolicyStarves`).
- Even the ticks' dates are closer if an HTTP submission reads the clock before a dispatch and
  commits after it: `ReachableRuns.LateSubmissionShortensSpacing` is a reachable run.
  `DispatchSpacing.AttemptDateKeptIff` says exactly which runs keep the date of a dispatch, and
  `DispatchSpacing.SpacingKeptIff` that this date decides the spacing.
- A peer's first sighting moves if a probe that read the store before the peer was stored
  commits afterwards (`ReachableRuns.LateSubmissionMovesFirstSeen`);
  `Provenance.FirstSeenKeptIff` is the exact condition on a run, `Provenance.FirstSeenKept` a
  condition on its first state that is enough.
- A prune can remove a peer inside the serving window if a seeding batch dated before a
  success commits after it (`Peers.LateBatchPrunesServedPeer`, and as a run of the crawler
  `ReachableRuns.LateGossipPrunesServedPeer`);
  `Peers.ServedPeerPrunedIff` says exactly when, `Provenance.SeenAlongIff` which runs keep a peer
  clear of it, `Peers.PruneKeepsServed` that commit order excludes it.
- With a serving window that reaches back to the epoch (`now <= stale_good`), peers that never
  answered are served and listed but not found by lookup (`Dns.SeededPeerServed`,
  `PeerList.SeededPeerListedNotFound`; exactly when: `PeerFilter.NeverSuccessfulServedIff`,
  `PeerList.ListedButNotFoundIff`).
- A sweep by a concurrent caller with a later clock reading can refill an exhausted bucket. As
  long as checks are dated at or after the sweeps before them no sweep is noticed
  (`RateLimit.SweepTransparent`); for any earlier date there is a history in which it does
  (`RateLimit.OvertakenCheckSeesSweep`; for given buckets exactly when:
  `RateLimit.SweepVisibleIff`).

Comments in the source that the code does not follow, where the model follows the code:
`crawler/src/probe/initializer.rs:177-180` speaks of the first successful batch, but an empty
batch does not count; `common/src/rate_limit.rs:10` speaks of successful calls, but every call
counts towards a sweep, the first one included; the `else` arm at
`crawler/src/worker_pool.rs:112` is never taken, because the cancellation arm is never disabled.

## Model

| member | source | states |
|---|---|---|
| `Common.SatSub` | store/src/peer_store.rs:511 | saturating subtraction: the exact difference, or the end of the type it passed |
| `Common.DurationToMs` | common/src/time.rs:24-26 | never negative, exact below `i64::MAX` |
| `Net.CanonicalizeIp` | common/src/time.rs:14-19 | the result is canonical, and unchanged exactly if the input was |
| `Net.CanonicalizeMeans` | common/src/time.rs:14-19 | exactly `::ffff:0:0/96` changes, each address to the IPv4 host of its last four octets |
| `Net.NetFrom` | crawler/src/probe/runner.rs:118-123 | canonical IP, same port, identity exactly on canonical addresses |
| `Net.AcceptableMeans` | crawler/src/model.rs:65-80 | routable, not in 224/4 or ff00::/8, on the default port if strict and otherwise on 1 to 32767 |
| `Net.EncodeKeyInjective` | store/src/peer_store.rs:496-498 | two addresses with the same stored key are the same address |
| `Net.KeyLayout` | store/src/peer_store.rs:496-498 | the bytes of a key: family, octets, port in one byte or three |
| `Net.LexLessMeans` | store/src/peer_store.rs:13-14 | byte order: at the first difference the smaller byte, or the end, comes first |
| `Index.BeforeMeans` | store/src/peer_store.rs:13-14 | older attempts come first, equal ones in the byte order of their keys |
| `Index.AscendingIsOrdered` | store/src/peer_store.rs:13-14 | the index order leaves one listing of a set of entries, so "oldest first" is a single list |
| `Peers.ValidMeans` | store/src/peer_store.rs:532-534 | the windows for which the multiplication by four does not overflow `i64` |
| `Peers.GoodThreshold` | store/src/peer_store.rs:532-534 | the integer part of four fifths of the window |
| `Peers.CeilingCoversEligible` | store/src/peer_store.rs:368-369 | no eligible record of either class lies beyond the scan ceiling, at any `i64` times |
| `Peers.CeilingIsLeast` | store/src/peer_store.rs:368-369 | a live record at or below the ceiling would be due in one of the two classes |
| `Peers.UnansweredDueIff` | store/src/peer_store.rs:507-529 | a peer that never answered is due exactly `stale_bad` after its attempt, if it was first or last seen since the cutoff |
| `Peers.DueWhileServedIff` | store/src/peer_store.rs:504-518 | a live peer that has answered is due and served exactly from a threshold after its dated attempt to the end of the window after its answer |
| `Peers.ReprobeBeforeExpiry` | store/src/peer_store.rs:500-518 | if its dated attempt is not after its answer it is due throughout the last fifth of the window, and exactly from 80% on if the dates agree |
| `ReachableRuns.AttemptStoredAfterAnswer` | crawler/src/scheduler.rs:232-244 | for every delay a reachable run in which the attempt of an answered dispatch is dated that long before the answer |
| `Peers.DueAddresses` | store/src/peer_store.rs:354-392 | the due list repeats nobody, names only eligible peers, and names all of them unless it is full |
| `Peers.DueOldestFirst` | store/src/peer_store.rs:354-392 | the due list is in order of attempt, and a full one leaves out nobody with an older attempt |
| `Peers.BatchRefinesSingleSeeding` | store/src/peer_store.rs:265-317 | one batch leaves the table that seeding its addresses one at a time leaves |
| `Peers.BatchIgnoresOrder` | store/src/peer_store.rs:269-271 | order and repetition of the addresses do not matter |
| `Peers.GossipRescuesIff` | store/src/peer_store.rs:259-261 | a fresh sighting saves a peer from pruning exactly unless it once answered and not since the cutoff |
| `Peers.PruneKeepsDue` | store/src/peer_store.rs:394-422 | pruning at `c` changes no due list taken at a cutoff of `c` or later |
| `Peers.PrunedMeans` | store/src/peer_store.rs:520-529 | removed is exactly who answered, but not since the cutoff, or was neither first nor last seen since it |
| `Peers.AttemptedMeans` | store/src/peer_store.rs:210-251 | an attempt dates a known record and nothing else; an unknown address is new, attempted and never seen |
| `Peers.SeenMeans` | store/src/peer_store.rs:288-313 | a batch dates the sighting of known records and nothing else; unknown addresses are new, seen and never attempted |
| `Peers.DeletedMeans` | store/src/peer_store.rs:194-200 | the row is gone and every other as before |
| `Peers.OnlyUpsertDatesSuccess` | store/src/peer_store.rs:253-261 | attempts, sightings, deletions and prunes never change a success date, first sighting or id; new rows start with none |
| `Peers.ServedPeerPrunedIff` | store/src/peer_store.rs:520-529 | a peer inside the serving window is pruned exactly if both its sighting dates are before the cutoff |
| `Peers.PruneKeepsServed` | crawler/src/scheduler.rs:289-297 | in every commit-ordered run no prune removes a peer inside the serving window, if that window is no longer than `dead_after` |
| `Peers.LateBatchPrunesServedPeer` | store/src/peer_store.rs:279-317 | a concrete log, out of commit order: sighting at 1, answer at 100, a batch read at 5, and a prune that removes the served peer |
| `ReachableRuns.LateGossipPrunesServedPeer` | crawler/src/probe/runner.rs:93-110 | the same as a reachable run of the crawler, with a serving window no longer than `dead_after` |
| `Store.PeerStore.Open` | store/src/peer_store.rs:67-103 | from any rows and any old index: the decodable rows, with an exact index |
| `Store.PeerStore.Reopen` | store/src/peer_store.rs:96-102 | the same for a store that is already there |
| `Store.PeerStore.PurgeUndecodable` | store/src/peer_store.rs:130-154 | exactly the undecodable rows go, and their number is returned |
| `Store.PeerStore.RebuildAttemptIndex` | store/src/peer_store.rs:109-125 | an exact index from any previous one; the count is the number of records |
| `Store.PeerStore.Upsert` | store/src/peer_store.rs:157-175 | keeps the index exact; the record is stored under its address and every other row as before, or nothing changes on error |
| `Store.PeerStore.Get` | store/src/peer_store.rs:177-185 | the stored record, nothing, or an error on a fault or an undecodable row |
| `Store.PeerStore.Delete` | store/src/peer_store.rs:188-206 | keeps the index exact; row and index entry gone, every other row as before, and whether there was one |
| `Store.PeerStore.RecordAttempt` | store/src/peer_store.rs:210-251 | keeps the index exact; dates the attempt of a known record or creates a new one, every other row as before; error exactly on a fault or an undecodable row |
| `Store.PeerStore.SeenBatch` | store/src/peer_store.rs:279-317 | keeps the index exact; all or nothing, row by row as in `SeenMeans`; the count is the number of distinct unknown addresses |
| `Store.SeenTxn` | store/src/peer_store.rs:288-313 | the batch loop succeeds exactly if every known address decodes, and then gives table, index and count |
| `Store.PeerStore.PruneDead` | store/src/peer_store.rs:397-422 | keeps the index exact; exactly the rows of `PrunedMeans` go, the rest stay as they were, and their number is returned |
| `Store.PruneTxn` | store/src/peer_store.rs:402-418 | scan and removals in one transaction leave the live rows with an exact index |
| `Store.PeerStore.Replay` | store/src/peer_store.rs:109-422 | for every sequence of transactions, aborts and reopenings: exact index, and the table of the plain map |
| `Store.PeerStore.DueForProbe` | store/src/peer_store.rs:357-392 | the bounded index scan returns exactly the first `max` eligible records of a full table scan, oldest attempt first, leaving out nobody older; error exactly on a fault, and never for `max` 0 |
| `Store.PeerStore.CollectMatching` | store/src/peer_store.rs:329-352 | every matching record once and nothing else, or an error on a fault |
| `Store.PeerStore.Summarize` | store/src/peer_store.rs:426-468 | each bucket counts the rows of its kind; the average is the exact integer mean age and at most the window; error on a fault |
| `Summaries.UnansweredBuckets` | store/src/peer_store.rs:431-443 | what `total`, `stub` and `failed` count, in the rows' dates |
| `Summaries.FamilyBuckets` | store/src/peer_store.rs:444-463 | what `stale`, `v4` and `v6` count |
| `Summaries.ValidityBuckets` | store/src/peer_store.rs:453-459 | what `good` and `filtered` count |
| `Summaries.AgeMeans` | store/src/peer_store.rs:444-452 | what a record adds to the average: its age if recent and not dated ahead |
| `Store.KeyedByAddressAlways` | store/src/peer_store.rs:156-158 | after any commits every record is filed under its own address |
| `Summaries.BucketsPartition` | store/src/peer_store.rs:23-27 | total is the sum of the five buckets, and v4 + v6 = good + filtered = fresh |
| `Summaries.GoodCountsServed` | store/src/peer_store.rs:424-459 | with the serving filter, `good` is the number of listed peers that ever answered |
| `PeerFilter.NeverSuccessfulServedIff` | store/src/filter.rs:22-64 | a peer that never answered matches a serving filter exactly if it is valid, of the family if one is asked for, and the window reaches back to the epoch |
| `PeerFilter.MatchesMeans` | store/src/filter.rs:45-87 | the matching records by their dates, family, port and versions |
| `PeerFilter.AtLeastMeans` | store/src/filter.rs:66-87 | versions compare as numbers with the components as digits |
| `Freshness.TopFreshest` | dns/src/serving_cache.rs:98-99 | sort and truncate: the right number, newest first, none twice, nothing omitted strictly fresher than anything kept |
| `Dns.SelectedAreServable` | store/src/filter.rs:45-87 | the DNS filter selects exactly the peers that answered within the window, of the family, on the port, and recent enough in version |
| `Dns.PickFreshest` | dns/src/serving_cache.rs:82-101 | IPs of the freshest matching peers, one family, no IP twice; empty if the scan fails |
| `Dns.BuildSnapshot` | dns/src/serving_cache.rs:75-80 | each half from its own scan of the store as it then is, with its own clock reading; empty if that scan fails |
| `Dns.SeededPeerServed` | store/src/filter.rs:45-64 | a concrete peer that never answered and is selected for DNS, at a present-day clock with a window longer than it |
| `Dns.SampleAddressRecords` | dns/src/handler.rs:160-174 | exactly min(max, pool) distinct records, each with the very octets of an address of the pool |
| `Dns.BuildAnswers` | dns/src/handler.rs:89-103 | per query type; AAAA is never empty and is the sentinel only when nothing can be drawn |
| `Dns.BuildAnswer` | dns/src/handler.rs:145-158 | answers per query type, NS exactly for address queries, SOA exactly when there is no answer, and when that is |
| `Dns.AnswersAreServable` | dns/src/handler.rs:160-174 | the octets of every drawn record are the IP of a stored peer that answered within the window, if the window does not reach the epoch |
| `PeerList.LookupAgreesWithList` | web/src/http/handlers/peers.rs:123-140 | lookup finds a peer exactly if the untruncated list has it |
| `PeerList.ListedMeans` | web/src/http/handlers/peers.rs:82-97 | with `all` whoever ever answered, otherwise whoever passes the window and both floors |
| `PeerList.ListedButNotFoundIff` | web/src/http/handlers/peers.rs:93-95 | otherwise, of all peers, exactly the valid ones that never answered are listed but not found |
| `PeerList.SeededPeerListedNotFound` | web/src/http/handlers/peers.rs:123-140 | the same peer is listed but not found |
| `PeerList.ComputeList` | web/src/http/handlers/peers.rs:82-105 | the served list is the 1000 freshest of the untruncated list, newest first; error on a failing scan |
| `PeerList.ValidateSubmission` | web/src/http/handlers/peers.rs:168-186 | a token is spent first; an accepted address is canonical and acceptable; each refusal has its reason |
| `PeersCache.PeersCache.Get` | web/src/runtime/peers_cache.rs:35-40 | drops exactly the expired entries and returns the body of the key |
| `PeersCache.PeersCache.Put` | web/src/runtime/peers_cache.rs:42-50 | replaces the entry of the key |
| `PeersCache.HitMeans` | web/src/runtime/peers_cache.rs:35-40 | a lookup hits exactly if the key has an entry younger than the TTL, and then that one |
| `PeersCache.StoredIsServed` | web/src/runtime/peers_cache.rs:52-66 | a body just stored answers the next request for its key |
| `PeersCache.FailedNeverReplies` | web/src/runtime/peers_cache.rs:61-65 | in every run a request whose computation failed is never answered with a body |
| `PeersCache.RepliesAreFresh` | web/src/runtime/peers_cache.rs:52-66 | over all interleavings: one entry per key, at most four; one computation and one reply per request; every reply is for the key asked, and carries the body this request computed, or one from the cache stored less than the TTL before |
| `RateLimit.RateLimiter.Check` | common/src/rate_limit.rs:42-65 | disabled at capacity 0; otherwise the answer and the history of a query and, every 1024th call, a sweep |
| `RateLimit.RateLimiter.MaybeSweep` | common/src/rate_limit.rs:67-72 | counts the call with 64-bit wrap-around and sweeps when due |
| `RateLimit.SweepTransparent` | common/src/rate_limit.rs:42-72 | for every history in which no check is dated before an earlier sweep, sweeping changes no answer, whatever the schedule |
| `RateLimit.SweepVisibleIff` | common/src/rate_limit.rs:46-72 | otherwise a sweep is visible to a check exactly if it evicts an exhausted bucket the check still falls into |
| `RateLimit.OvertakenCheckSeesSweep` | common/src/rate_limit.rs:46-72 | for every check dated before a sweep there are limits and a history, each sweep made by a caller after its own check, in which it is visible |
| `RateLimit.RateBound` | common/src/rate_limit.rs:42-65 | one address gets at most (k+1)·capacity grants in any half-open interval of k windows |
| `RateLimit.DeniedIffWindowSpent` | common/src/rate_limit.rs:52-61 | a check is denied exactly if the window it falls into has already granted its capacity |
| `WorkerPool.InFlightExactlyOwned` | crawler/src/worker_pool.rs:60-117 | in every uncancelled run an address is in flight exactly if one of producer, queue, dispatcher and workers owns it, and only one does; queue and workers within their limits |
| `WorkerPool.WorkerOwnsAlone` | crawler/src/worker_pool.rs:69-85 | in every run, shutdown included, the address of an unfinished worker is in flight, owned by it alone, and neither queued, nor in the dispatcher's hand, nor being enqueued |
| `WorkerPool.NoDoubleProbe` | crawler/src/worker_pool.rs:69-85 | in every run, shutdown included, no two unfinished workers are on one address |
| `WorkerPool.SendOutcome` | crawler/src/worker_pool.rs:74-79 | an enqueue is refused as full exactly when four addresses per thread wait, and otherwise queued last |
| `WorkerPool.InsertOutcome` | crawler/src/worker_pool.rs:69-73 | an address in flight is a duplicate, any other is taken |
| `WorkerPool.WithdrawOutcome` | crawler/src/worker_pool.rs:76-83 | a refused address is in flight no longer |
| `WorkerPool.ReceiveOutcome` | crawler/src/worker_pool.rs:102-110 | the dispatcher takes the longest waiting address exactly if fewer than `threads` tasks run |
| `WorkerPool.QueueIsFifo` | crawler/src/worker_pool.rs:60-117 | in every uncancelled run what was queued is what was taken, in order, and then what still waits |
| `WorkerPool.InFlightDrains` | crawler/src/worker_pool.rs:98-146 | nothing gets stuck: from every running state some run of the pool's own steps ends with nothing queued, worked on or in flight |
| `WorkerPool.ShutdownEnds` | crawler/src/worker_pool.rs:88-117 | from every running state cancellation can be followed to the end of the dispatcher with no task left, and enqueues then find the pool closed |
| `WorkerPool.GaugeCountsGuards` | crawler/src/worker_pool.rs:127-146 | in every run the gauge is the number of live guards, at most the in-flight size, positive when a guard drops, zero after the dispatcher ends |
| `WorkerPool.InFlightBound` | crawler/src/worker_pool.rs:22-24 | at most five addresses per thread are in flight between enqueues |
| `WorkerPool.StepKeepsInv` | crawler/src/worker_pool.rs:60-146 | every step of producer, dispatcher, worker or shutdown keeps ownership, gauge and limits |
| `Probe.PeerIdFromBytes` | crawler/src/model.rs:53-58 | sixteen bytes, zero-padded or cut |
| `Probe.PeerRecordFromVersion` | crawler/src/model.rs:22-48 | one clock reading in all three lifecycle dates, the first sighting kept, every reported field, a subnetwork id only of 20 bytes, filed under the canonical address |
| `Probe.Discovered` | crawler/src/probe/runner.rs:93-106 | only acceptable canonical addresses, and every acceptable advertised one, port 0 read as the default |
| `Probe.DiscoveredWasAdvertised` | crawler/src/probe/runner.rs:93-106 | nothing but hosts that were advertised, on the advertised port or, for port 0, the default |
| `Probe.Bootstrapped` | crawler/src/scheduler.rs:266-279 | only acceptable canonical addresses, and every acceptable seed |
| `Probe.BootstrappedWasSeed` | crawler/src/scheduler.rs:266-279 | nothing but seeds, on their own ports |
| `Crawler.StoredAddressesAcceptable` | crawler/src/model.rs:65-80 | in every run every stored address is canonical and files its own record, and is acceptable unless it was in the store at the start |
| `Crawler.PersistWritesScheduledKey` | crawler/src/probe/runner.rs:74-89 | a scheduled probe's success is written under exactly the scheduled address |
| `Crawler.RestartIsFreshStart` | store/src/peer_store.rs:96-102 | a restart is the initial state on the stored rows |
| `Crawler.FailedScanEndsTick` | crawler/src/scheduler.rs:221-226 | a tick whose scan fails is over with nothing changed |
| `Crawler.SubmissionsIndependent` | crawler/src/probe/runner.rs:61-72 | no step but a restart loses a submission or touches one that is not its own |
| `Crawler.SubmissionsJoin` | web/src/http/handlers/peers.rs:168-186 | an accepted submission joins those under way, a refused one changes nothing |
| `Crawler.SlotHeldUntilDone` | crawler/src/worker_pool.rs:119-125 | a scheduled probe keeps its slot until it has failed or its result is dealt with |
| `Crawler.FailedReadEndsProbe` | crawler/src/probe/runner.rs:79-89 | a read that fails or does not decode ends the probe without a write |
| `Crawler.DeletionRemoves` | store/src/peer_store.rs:188-206 | a committed deletion removes the peer under its canonical address |
| `Crawler.PruneTickRemovesIff` | crawler/src/scheduler.rs:289-297 | a prune removes exactly who answered, but not within `dead_after`, or was not seen within it |
| `Crawler.GossipIsStored` | crawler/src/probe/runner.rs:93-117 | every acceptable advertised address is stored, seen at the batch's clock reading |
| `Crawler.StepKeepsInv` | crawler/src/scheduler.rs:212-297 | every step keeps pool ownership, the table in order, and everything on its way into it acceptable |
| `TickProgress.TickProgress` | crawler/src/scheduler.rs:212-263 | in every run, on any store, a finished tick accounts for every candidate, and if it came to the end without dispatching and fewer than three due peers per thread are barred, every other due peer was in flight at its scan |
| `TickProgress.TickProgressUnbarred` | crawler/src/scheduler.rs:212-263 | on a store that agrees with the policy such a tick found every due peer in flight |
| `TickProgress.StarvingTick` | crawler/src/scheduler.rs:229-252 | a tick whose candidates are all barred rejects them and leaves the whole state as it was |
| `TickProgress.OldBarredPeersStarve` | crawler/src/scheduler.rs:221-235 | eight barred due peers per thread ahead of all others in the index make the next tick such a tick |
| `ReachableRuns.MixedReached` | crawler/src/model.rs:65-80 | a reachable store under the loose port policy with eight peers on other ports |
| `ReachableRuns.StricterPolicyStarves` | crawler/src/scheduler.rs:229-252 | restarted on it under the strict policy, at any later time, the crawler starves although an acceptable peer is due and nothing in flight |
| `TickProgress.ReachableHealthy` | crawler/src/scheduler.rs:221-252 | every reachable state satisfies the tick invariant behind that |
| `DispatchSpacing.DispatchSpacing` | crawler/src/scheduler.rs:212-244 | in every run two ticks that dispatch an address are dated at least its re-probe threshold apart, if it is not removed, its attempt is stored (no fault, no restart first) and no submission dated before the first commits in between |
| `DispatchSpacing.ClockSpacing` | crawler/src/scheduler.rs:213-240 | the dispatches themselves are then at least that threshold less the first tick's lag apart on the clock |
| `ReachableRuns.LagShortensSpacing` | crawler/src/scheduler.rs:213-240 | for every configuration with a threshold for unanswered peers, every acceptable address and every lag a reachable run, without submission, fault, removal or restart, in which they are exactly that far apart |
| `ReachableRuns.AlwaysClockApartIff` | crawler/src/scheduler.rs:213-240 | in every such configuration dispatches with a given first lag are always a threshold apart on the clock exactly if the lag is zero |
| `DispatchSpacing.PromptDispatchesApart` | crawler/src/scheduler.rs:213-240 | in every configuration dispatches without a first lag are always a threshold apart on the clock |
| `DispatchSpacing.AttemptDateKeptIff` | crawler/src/probe/runner.rs:61-89 | in every run, once the attempt of a dispatch is stored and while the peer is not removed, it stays dated at or after the dispatch exactly if every committing submission of it is dated so |
| `DispatchSpacing.SpacingKeptIff` | store/src/peer_store.rs:507-518 | with that date every later tick that finds the peer due keeps the distance; with an earlier one some tick does not |
| `ReachableRuns.LateSubmissionShortensSpacing` | crawler/src/probe/runner.rs:61-89 | a reachable run in which a late submission brings the dates of two dispatching ticks to 300 ms under thresholds of 800 and 1000 ms |
| `Provenance.SuccessWasProbed` | crawler/src/probe/runner.rs:74-89 | in every run a success date that the store did not have at the start is that of a successful probe of that very address |
| `Provenance.SeenAlongIff` | store/src/peer_store.rs:288-313 | while a peer stays stored, its last sighting stays at or after its last answer exactly if every committing batch that names it is dated so |
| `Provenance.SeenIsNotPruned` | store/src/peer_store.rs:520-529 | a peer seen since it answered is not pruned inside the serving window |
| `Provenance.FirstSeenKept` | crawler/src/model.rs:34 | in every run a stored peer keeps its first sighting until it is removed, if no probe of it under way had read another one |
| `Provenance.FirstSeenKeptIff` | crawler/src/probe/runner.rs:79-89 | while a peer stays stored, its first sighting stays the same exactly if every probe that commits had read that same one |
| `ReachableRuns.LateSubmissionMovesFirstSeen` | crawler/src/probe/runner.rs:79-89 | a reachable run in which a submission that read an empty store moves the first sighting from 1000 to 1500 |
| `Provenance.ScansNeverOverflow` | store/src/filter.rs:45-53 | in every run no stored date is ahead of the clock and no filter scan overflows |
| `Provenance.ServedPeersWereProbed` | dns/src/serving_cache.rs:16-18 | whatever a DNS snapshot selects answered within the serving window, to a probe of the run at that address or before the run |
| `AddressCollection.CollectAddresses` | crawler/src/probe/initializer.rs:181-228 | the outcome of `OutcomeMeans`, after exactly the waits and delays of the rounds entered |
| `AddressCollection.OutcomeMeans` | crawler/src/probe/initializer.rs:181-228 | success or each refusal by the first round without a batch and what the batches before it hold: over 2500, none left, malformed, transport failure with or without addresses |
| `AddressCollection.CollectedIsUnion` | crawler/src/probe/initializer.rs:177-228 | a success is exactly the union of the batches before the first round without one, at most 2500 addresses |
| `AddressCollection.DoProbe` | crawler/src/probe/initializer.rs:60-176 | however a probe ends, its time is exactly that of the messages and rounds it went through, within the lifetime less the slack; the first failed message decides |
| `AddressCollection.LifetimeMeans` | crawler/src/probe/initializer.rs:66-69 | the lifetime: four waits, per round a wait and 250 ms, and 15 s of slack |

## Left out

- redb, bincode, tokio, DashMap and the p2p library: atomic transactions, a FIFO bounded channel and a set with atomic insert and remove are taken as given.
- `WorkerPool` and the tick of `Crawler` are step functions over values rather than classes, because their point is the interleaving; aliasing of the shared handles is not modelled.
- Orderly shutdown is in `WorkerPool` only: in `Crawler` the process ends abruptly (`Restart`), and writes that outlive a cancelled probe are not modelled.
- Rows of an older schema appear in `PeerStore.Open` only, and a run of `Crawler` has one configuration; a restart under another one begins a new run on the same rows.
- Wiping an incompatible database file (`store/src/peer_store.rs:77-84`) leaves an empty store, the start of a run.
- Seeding and gossip in `Crawler` may happen at any time with any earlier clock reading, not only as part of the probe that brought the addresses; this allows more runs than the program has.
- The `pending` map of `KaspadProbe`, router and hub teardown, handshake contents and the watchdog task.
- `Dns.SampleAddressRecords`: the sample is any choice of distinct positions; its distribution is not modelled.
- `Freshness.TopFreshest`: the order among equally fresh peers is left open, also where the HTTP list uses a stable sort.
- `ServingCache::load` and `store`, a snapshot swapped under a lock: only an easy member.
- `PeerList.ComputeList`: the JSON encoding of the records and its error are not modelled.
- DNS request parsing and refusal, TLS, routing, authentication, OpenAPI, metrics snapshots, DTOs, logging, CLI and statistics.
- `web/src/router.rs` and `web/src/handlers/peers.rs` are not compiled into the program; the files under `web/src/http` are modelled.
