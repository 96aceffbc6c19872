# Verified model of PariNS

PariNS is a forwarding DNS server. This project models the parts of it in which a
step may not be wrong, and proves what they promise for every input, every run and
every reachable state:

- **The answer cache** (`Networks`, `Scopes`, `CacheTypes`, `Responses`, `Knowledge`,
  `Sharing`, `ShardState`, `Shards`, `Budgets`, `Caches`, `Runs`, `Windows`). A shard is a class whose
  methods are the locked regions of the cache. Its invariant ties the two indexes, the
  budgets and the counters together, and ties every resident entry to a history of all
  answers, failures, restores and invalidations. The main results: a lookup returns
  the *last* answer that the whole history holds for the asked subnet; at most one
  entry can serve a lookup; a learned answer stands on disjoint agreeing networks that
  nothing contradicted; a revocation, an invalidation and an epoch check take effect
  in one step, and no answer places a learned entry again before the cooldown of a
  revocation ends. An answer is found for exactly its lifetime or, stale, its retention, and
  storing one evicts nothing that it does not need the place of. `Runs.Run` states what any
  sequence of operations leaves.
- **Clean snapshots** (`Snapshot`, `Persistence`). What is saved and restored never
  lives longer, comes back for exactly the whole seconds it had left, keeps its order
  of use below every later use, and a restore that fails takes back exactly what it
  admitted. Writing and restoring are composed into one round trip, in which every record
  comes back or is accounted for.
- **The rate limiter** (`Limiter`). The bounded table of sources refines an unbounded
  one that never forgets, so reclaiming entries never gives a source more than burst
  plus rate times time. A reclaimable entry cannot be missed for ever.
- **The weighted upstream scheduler** (`Scheduler`). Every window of one round is
  exact, wherever it starts.
- **The catalog of filter subscriptions** (`Catalogs`, `Stores`). Files, directory
  syncs and power losses are explicit: whatever a power loss leaves as the catalog,
  it leaves its objects. An object that an installation reports as installed outlasts a
  power loss, because a preparation starts only after a collection synced what was there.
- **Shared in-flight work** (`Flights`). A state machine of atomic steps, in which
  other callers leave between the steps of a join.
- **Response filtering** (`ResponseFilter`). The worklist decides reachability.

Code that changes things in place is a class with `modifies` clauses, or a method with
a loop, proved against functions and predicates on values. Ghost fields (`past`,
`fate`) hold the history that the properties speak about.

## How to read the model

- One locked region is one atomic step. Timestamps given to one shard do not decrease
  in lock order (`past.latest <= now`); the limiter's table integrity holds for any
  timestamps, and its rate bound while they do not decrease (`ordered`).
- `Shards.Shard.Valid` is kept by every method. What it implies is stated by
  `WithinBudgets`, `RefreshesSettleOnce`, `ListsFollowUse`, `HitsHaveTime`,
  `FoundInItsWindow`, `FailureInItsWindow`, `NoneBeforeCooldownEnds`, `RecordsAfterInvalidation` and `Lookup`.
- Names are sequences of lowercase labels, addresses are bit strings, times are
  nanoseconds as `nat`, and a response is a record of its sections.

## Properties that fail, and exactly when they hold

**A restart on an uncertain commit.** At the interface of the store, a new process
reads the renamed catalog and does not know that its rename was never synced.
`Stores.CollectsAfterUncertainRestart` is a run in which its collection then removes an
object that only the older catalog selects, so a power loss may leave a catalog without
its object. The exact conditions:

- `Restart` keeps a backed store sound if and only if the catalog on disk is all that a
  power loss may leave.
- A complete `CollectOrphans` keeps a backed store backed if and only if every intact
  object that a possible catalog selects is selected by the current one or pinned. A
  sound store stays sound.

The service has no such run. At start and after a freeze it opens the store and commits
the references of the configuration (src/filter_subscriptions/service.rs:203-204 and
342-343), which `Stores.Store.Reopen` models. An operation that finds the store closed
opens it, reconciles and then commits the references
(src/filter_subscriptions/service/operations.rs:168-175 with
src/filter_subscriptions/service.rs:720-721), which `Stores.Store.SyncRoots` models. Both
are shown to leave a sound store, whatever was uncertain before.

**The order of use after a restore into a shard that holds entries.** A restored record
goes to the end of its list even if its stamp is newer than the uses there.
`Shards.RestoresOutOfOrder` is such a run: two snapshots restored one after the other.
It exists at the interface of the cache only, since a process takes at most one snapshot
(src/cache_persistence.rs:88-92).
`Shards.Shard.Restore` states when it happens: lists that were in order are in order
afterwards if and only if the stamp is older than the last use of every entry of the
same partition. The flag `recency` of `ListsFollowUse` is kept exactly under that
condition by a restore, and by every other operation without any; `Runs.Run` states this
for whole runs, and `Persistence.RestoreSnapshot` that the flag always survives a restore
into an empty cache.

## Model

| member | source | states |
|---|---|---|
| `Networks.OverlapIsCommonAddress` | src/cache.rs:1239-1241 | the test "one network holds the other's first address" holds if and only if some address is in both |
| `Networks.SharedAddressNests` | src/cache.rs:1239-1241 | networks are laminar: two that share an address are nested |
| `Networks.OverlapNests` | src/cache.rs:1239-1241 | networks overlap only by nesting |
| `Networks.InsideIsSubnet` | src/ecs.rs:219-241 | the prefix test decides exactly whether every address of one network is one of the other |
| `Scopes.OverlapSymmetric` | src/cache.rs:1237-1250 | the overlap of namespaces does not depend on the order of its arguments |
| `Scopes.MatchingScopesOverlap` | src/cache.rs:1237-1250 | two namespaces that serve one outgoing subnet always overlap, so storing one removes the other |
| `Scopes.OverlapIsCommonGround` | src/cache.rs:1237-1250 | two namespaces overlap if and only if they are the same or speak for a common address |
| `Scopes.PlainMatches` | src/ecs.rs:219-241 | a query without a subnet is served without one only, and one for privacy by privacy of its family only |
| `Scopes.SubnetMatches` | src/ecs.rs:219-241 | a network serves exactly the subnets inside it, an exact source exactly its own subnet, the learned namespace exactly its family |
| `Scopes.PrepareBoundsDisclosure` | src/ecs.rs:68-133 | the subnet sent upstream is truncated, no longer than configured, and covers the real peer unless privacy was asked for |
| `Scopes.PrepareExactly` | src/ecs.rs:68-133 | exactly when a query is malformed or refused, and bit by bit what is sent for it otherwise |
| `Scopes.StorageScopeServesItsQuery` | src/ecs.rs:135-175 | every namespace a response assigns serves the query that caused it and is never the learned one |
| `Scopes.StoredServesExactly` | src/ecs.rs:135-175 | a response is stored for exactly the subnet that was sent or, with an echo, exactly the subnets inside the echoed scope |
| `Scopes.EchoBelongs` | src/ecs.rs:149-175 | a response belongs to the query if and only if it echoes nothing, or the sent subnet with a scope no longer than it |
| `Scopes.LearnedServesItsQuery` | src/ecs.rs:219-241 | an answer reclassified as learned still serves its own query |
| `Scopes.ReplyScopeIsSound` | src/ecs.rs:243-258 | the scope echoed to a client never exceeds what was sent nor what the entry covers |
| `Scopes.ReplyScopeExactly` | src/ecs.rs:243-258 | the echoed prefix names exactly the addresses of the entry's network, and for a learned answer those of the client's subnet |
| `Responses.FollowChain` | src/cache.rs:1360-1390 | the loop that builds links and counts hops computes where the chain ends |
| `Responses.ChainEndIff` | src/cache.rs:1360-1390 | the chain checks pass if and only if the answers, duplicates aside, are one simple path from the question to a name that owns no link |
| `Responses.ChainLifetime` | src/cache.rs:1360-1411 | the loop over the authorities computes the lifetime that `ChainSoaIff` and `ChainSoaIsLeast` describe |
| `Responses.ChainSoaIff` | src/cache.rs:1392-1410 | a chain's end is proved negative if and only if every SOA covers it and all are one record |
| `Responses.ChainSoaIsLeast` | src/cache.rs:1392-1410 | that lifetime is the least of all SOA records |
| `Responses.PlainSoaIsLeast` | src/cache.rs:1307-1321 | a plain negative answer has a lifetime if and only if some SOA covers the question, and it is the least of those |
| `Responses.PrepareResponse` | src/cache.rs:1292-1358 | the loops of preparation compute the message, lifetime and sign that `PrepareIff` describes, or the first reason to refuse |
| `Responses.AnswersIff` | src/cache.rs:1284-1290 | a response is positive if and only if it is NOERROR and some answer has the asked type |
| `Responses.NegativeIff` | src/cache.rs:1307-1321 | a negative response has a lifetime if and only if the authorities prove it for the question or for the end of the alias chain |
| `Responses.PrepareIff` | src/cache.rs:1292-1358 | stored if and only if complete, unbarred, with all bounds above zero and, if negative, proved; positive exactly with an answer of the asked type; the lifetime is the smallest of the policy's bound, all TTLs and, if negative, the negative cap and the proof; every stored TTL is given |
| `Responses.RefusalReasons` | src/cache.rs:1292-1358 | each reason to refuse a response, exactly when it is given |
| `Responses.CappedExactly` | src/cache.rs:1332-1350 | the capped lifetime is the smallest of the bound and all TTLs, and each TTL is what capping makes of it |
| `Responses.CapAll` | src/cache.rs:1332-1350 | lowering the lifetime record by record computes the capped message and its least lifetime |
| `Responses.CappedShape` | src/cache.rs:1332-1350 | capping succeeds exactly without barred records, keeps every record and leaves none below the lifetime |
| `Responses.CappedFloor` | src/cache.rs:1332-1350 | a floor under every record, the cap and the bound is a floor under the lifetime |
| `Responses.CappedCeiling` | src/cache.rs:1332-1350 | no stored record outlives the policy |
| `Knowledge.AnswerIsLast` | src/cache.rs:808-822 | no resurrection: a resident answer is the last answer the history holds for every subnet it serves, kept or not |
| `Knowledge.FailureIsLast` | src/cache.rs:920-942 | a resident failure is the last one for its subnets that no later answer replaced |
| `Knowledge.MatchEnds` | src/cache.rs:808-822 | an answer for any subnet that an entry serves ends the entry |
| `Knowledge.OneCandidate` | src/cache.rs:201-228 | at most one resident entry can serve a lookup, with or without stale answers, so the ranking never decides |
| `Knowledge.WrittenAfterInvalidation` | src/cache.rs:758-764 | epoch linearisation: a resident entry that an invalidation names was written by work whose epoch counts it |
| `Knowledge.AnswerKeeps` | src/cache.rs:810-852 | the partition of namespaces and the history survive an answer that supersedes, stored or not |
| `Knowledge.FailureKeeps` | src/cache.rs:920-960 | they survive a failure, which joins only answers already past their lifetime |
| `Knowledge.RestoreKeeps` | src/cache.rs:786-807 | they survive a restored record, which is admitted only where nothing overlaps it |
| `Knowledge.InvalidateKeeps` | src/cache.rs:1068-1105 | they survive an invalidation of every entry it names |
| `Sharing.UnequalSpansAreDisjoint` | src/cache/sharing.rs:351-365 | with disjoint samples the two blocks that decide a promotion share no address |
| `Sharing.SpanIff` | src/cache/sharing.rs:351-365 | two networks are of one block if and only if their first sixteen bits agree, or thirty-two for IPv6 |
| `Sharing.TakesPart` | src/cache/sharing.rs:110-145 | answers without a subnet, for privacy and of scope zero change, revoke and teach nothing; an explicit network revokes exactly if its class has a record outside a cooldown; a missing one is learned or filed as it came |
| `Sharing.TablesTogether` | src/cache/sharing.rs:42-49 | the tables of all shards together hold twice the entries, between 1024 and 65536, and less than one more for each shard |
| `Sharing.NextSamplesKeep` | src/cache/sharing.rs:222-255 | a full list gives up the sample that expires first, and otherwise only what the new network overlaps |
| `Sharing.NextSamplesBacked` | src/cache/sharing.rs:222-255 | the samples after an agreeing answer are disjoint, unexpired and uncontradicted |
| `Sharing.PromotionBacked` | src/cache/sharing.rs:256-264 | enough samples of two spans are a promotion that the history bears out |
| `Sharing.LearnedIsSound` | src/cache/sharing.rs:110-270 | an answer filed as learned stands on enough pairwise disjoint valid networks, two in disjoint blocks, with no disagreeing answer since |
| `Sharing.AgreementGathers` | src/cache/sharing.rs:218-268 | fewer of them are gathered, each once |
| `Sharing.AgreementIsLearned` | src/cache/sharing.rs:218-268 | learning happens: as many agreeing answers as configured, from disjoint networks not all of one block, make the last one learned |
| `Sharing.Table.Observe` | src/cache/sharing.rs:110-270 | one answer in, by its namespace: one that says nothing about networks changes nothing; otherwise the next phase of its record, learned if and only if that record is shared and agrees or its evidence can be promoted, revoked if and only if it contradicts; the history grows by it and bears every record out; the class becomes the most recent, and only a full table loses a record, the least recently used |
| `Sharing.Table.Gather` | src/cache/sharing.rs:218-268 | a missing-ECS answer meets gathering evidence: it revokes if and only if valid evidence disagrees, promotes if and only if enough agree with it, and otherwise joins the samples |
| `Sharing.Table.Meet` | src/cache/sharing.rs:181-268 | the record of its class makes an answer learned, or is revoked by it, under exact conditions, and becomes the stated next phase |
| `Sharing.Table.Override` | src/cache/sharing.rs:124-145 | an explicit nonzero scope revokes what was shared and starts a cooldown |
| `Sharing.Table.Shrink` | src/cache/sharing.rs:156-171 | the table gives up records from the least recently used end, and no more than the capacity asks for |
| `Sharing.Table.Invalidate` | src/cache/sharing.rs:306-345 | an invalidation forgets exactly the records it names, and every record left was born after each one that names it |
| `ShardState.RemovedGood` | src/cache.rs:370-387 | removing an entry keeps both indexes, charges, counters and refresh accounts equal to the resident set |
| `ShardState.InsertedGood` | src/cache.rs:1022-1055 | so does publishing one, at the front or, with a restored stamp, at the end |
| `ShardState.InsertedInOrderIff` | src/cache.rs:1051-1055 | a restored entry keeps the lists in order of use if and only if its stamp is older than every use in its list |
| `ShardState.DemotedFalls` | src/cache.rs:1051-1055 | a falling list with an entry at its end still falls if and only if the stamp is older than all in it |
| `ShardState.TouchedGood` | src/cache.rs:575-592 | so does a use, which moves the entry to the front and settles its refresh |
| `ShardState.ReleasedGood` | src/cache.rs:138-142 | so does a reader that lets go of an entry, whose bytes count until then |
| `Shards.Shard.constructor` | src/cache.rs:282-322 | an empty shard is valid and has its portion of the budgets |
| `Shards.Shard.WithinBudgets` | src/cache.rs:964-1064 | neither partition exceeds its entries or bytes, bytes held by readers included |
| `Shards.Shard.RefreshesSettleOnce` | src/cache.rs:127-136 | admitted refreshes, which `Admit` counts one by one, are exactly the useful, the unused and those whose entries are resident |
| `Shards.Shard.ListsFollowUse` | src/cache.rs:575-579 | while no restore broke it, each list falls strictly in last use and both hold every entry |
| `Shards.Shard.HitsHaveTime` | src/cache.rs:600-631 | a fresh hit leaves every record at least one second: what was stored less the whole seconds since |
| `Shards.Shard.FoundInItsWindow` | src/cache.rs:827-832 | in every reachable state an answer is found in its namespace for exactly its lifetime, and by a stale fallback also for the stale retention, if it is positive and the policy allows it |
| `Shards.Shard.FailureInItsWindow` | src/cache.rs:201-228 | in every reachable state a failure is found for exactly its lifetime, and never by a stale fallback |
| `Shards.Shard.NoneBeforeCooldownEnds` | src/cache.rs:766-822 | over whole runs, after every revocation since when its record stayed, no answer places a learned entry of the class before the cooldown ends, and until then none is resident but from a snapshot |
| `Shards.Shard.RecordsAfterInvalidation` | src/cache/sharing.rs:306-345 | the work that started a learned record read its epoch after every invalidation that names the class |
| `Shards.Shard.Remove` | src/cache.rs:370-387 | takes one entry out of both indexes and settles its refresh as unused |
| `Shards.Shard.Sweep` | src/cache.rs:812-822 | removes exactly the chosen variants of one key, and says whether there were any |
| `Shards.Shard.Prune` | src/cache.rs:405-417 | removes exactly the key's entries past their retention |
| `Shards.Shard.MakeRoom` | src/cache.rs:1004-1021 | evicts from the end of its own partition's list only, nothing if the entry fits, and no more than needed: with the last one back it would not fit |
| `Shards.Shard.MakeVariantRoom` | src/cache.rs:988-1003 | below the variant ceiling nothing changes; at it exactly one variant goes, the least used of the same sign; fails exactly when there is none |
| `Shards.Shard.Clear` | src/cache.rs:964-1021 | makes room first in the bucket, then in the partition, and no more than needed; an entry that fits both costs nothing, at the ceiling one variant; or it says which of the three causes it was: too large, the variant ceiling, or bytes that readers hold |
| `Shards.Shard.Place` | src/cache.rs:964-1064 | publishes under the next id or not at all; what it costs and why it is refused are exact: nothing below the ceiling with a slot and the bytes to spare, one variant at the ceiling, and only entries of its own partition |
| `Shards.Shard.Classify` | src/cache.rs:766-785 | the namespace an answer is stored under, what it does to the records and their history, and the promotion of its own fingerprint that justifies a learned one |
| `Shards.Shard.Supersede` | src/cache.rs:810-852 | removes every overlapping entry, then stores the answer or not; a revocation starts a cooldown and a stored refresh is counted |
| `Shards.Shard.Conclude` | src/cache.rs:808-852 | stores an answer once its namespace is decided and enters it in the history with its cooldown and refresh |
| `Shards.Shard.Admit` | src/cache.rs:706-852 | an answer of the current epoch supersedes all it overlaps and is stored or refused with a reason, an older one changes nothing, not even what was learned; a revocation leaves no learned entry and starts a cooldown that later answers keep; every loss is explained: once only what it does not supersede is left, an answer that fits its partition and its bucket costs no other entry |
| `Shards.Shard.AdmitFailure` | src/cache.rs:870-960 | a failure is refused beside a fresh answer, never costs a positive answer its place, costs no other entry if it fits its partition and bucket once older failures of its namespace are gone, and leaves order of use, refreshes, cooldowns and readers alone |
| `Shards.Shard.Lookup` | src/cache.rs:535-600 | the result is the only entry that can serve, and the last answer or failure of the history for that subnet |
| `Shards.Shard.Touch` | src/cache.rs:575-592 | a hit becomes the most recent use and settles its refresh as useful only if fresh |
| `Shards.Shard.Release` | src/cache.rs:138-142 | the bytes of a removed entry are free once its last reader lets go |
| `Shards.Shard.Restore` | src/cache.rs:786-807 | a restored record loses nothing that is retained; it is stored if and only if it can be prepared and has room, and keeps the order of use if and only if its stamp is older |
| `Shards.Shard.PutBack` | src/cache.rs:790-807 | a restored entry is inserted if and only if it has room and overlaps nothing |
| `Shards.Shard.Invalidate` | src/cache.rs:1068-1105 | removes exactly the entries the filter names and counts them, and forgets what was learned about them |
| `Shards.Shard.Unload` | src/cache/persistence.rs:441-458 | removes exactly the entries admitted above the floor |
| `Shards.SelectedIsLast` | src/cache.rs:201-228 | what selection picks from a bucket is the last answer or failure of the history |
| `Shards.ReadBack` | src/cache.rs:706-852 | an answer stored for its own response's namespace, or as learned, is what the same query finds at once |
| `Shards.RestoresOutOfOrder` | src/cache.rs:1051-1055 | a run of two restores that leaves a list out of order |
| `Budgets.PortionsAddUp` | src/cache.rs:282-322 | the portions of the shards add up to the whole, and no two differ by more than one |
| `Budgets.ShardsShareTheWhole` | src/cache.rs:282-322 | entries and bytes of all partitions of all shards add up to the configured totals |
| `Budgets.PartitionsShareByPercent` | src/cache.rs:282-322 | the negative partitions together have the configured percentage of entries and bytes, the positive ones the rest |
| `Budgets.ShardCountIsLargest` | src/cache.rs:291-305 | the shard count is the largest one within the configuration that leaves every shard an entry and a kilobyte of each partition in use |
| `Caches.Cache.constructor` | src/cache.rs:282-356 | every shard gets its portion, limits, policies and table, and shares nothing with another |
| `Caches.Cache.WithinConfiguredTotals` | src/cache.rs:282-322 | the whole cache never exceeds the configured entries and bytes |
| `Caches.Cache.Admit` | src/cache.rs:706-852 | from response to decision: bypass, incomplete responses and old epochs change nothing; the rest supersedes, teaches, revokes, cools, counts and evicts as its shard does, and no other shard is touched |
| `Caches.Cache.AdmitFailure` | src/cache.rs:870-960 | from SERVFAIL to decision, with the lifetime capped by the policy and no entry evicted without need |
| `Caches.Cache.Lookup` | src/cache.rs:446-600 | a bypassed key finds nothing; any other finds the last knowledge of its shard, whose history it leaves alone |
| `Caches.Cache.Invalidate` | src/cache.rs:1068-1105 | one step over all shards: the epoch moves on, all named entries and records go, the count is theirs, and cooldowns end only with their records |
| `Caches.LearnedGoesTogether` | src/cache.rs:1068-1105 | an invalidation takes learned entries and their records together, exactly those of the named key and of the family of a named network, and of the others exactly the named namespace |
| `Caches.Cache.Release` | src/cache.rs:138-142 | a dropped handle frees the bytes of a removed entry and changes nothing else |
| `Caches.ClearAll` | src/cache.rs:1068-1105 | every shard is cleared before any is let go |
| `Runs.Take` | src/cache.rs:446-1105 | one operation of any kind keeps order of use, refresh counts, history and cooldowns of every shard |
| `Runs.Run` | src/cache.rs:446-1105 | any run in order of time: lists follow use, stored refreshes are settled once or wait, and no revocation is disregarded before its cooldown ends while the record stays |
| `Windows.StoreThenLook` | src/cache.rs:446-852 | an answer stored at one time is what a lookup of its namespace finds later, with its message, for exactly its lifetime or, for a stale fallback, the stale retention more; then nothing is found |
| `Windows.FailThenLook` | src/cache.rs:446-960 | a stored failure is what a lookup of its namespace finds for exactly the smaller of its TTL and the negative cap, and no stale fallback finds it |
| `Snapshot.PreparedIsReplayable` | src/cache.rs:1292-1358 | what preparation stores can be prepared again |
| `Snapshot.AgedPreparesAgain` | src/cache/persistence.rs:195-204 | an aged answer is neither refused nor shortened below what it had left, whatever its kind |
| `Snapshot.ShorterIsReplayable` | src/cache.rs:743-753 | a shorter lifetime, as a restore may impose, can be saved again |
| `Snapshot.RoundTrip` | src/cache/persistence.rs:257-276 | saved and restored, an answer is admitted if whole seconds are left, and for exactly those |
| `Snapshot.DeadlineNeverMoves` | src/cache/persistence.rs:257-276 | on the wall clock a restored answer never expires later than the saved one |
| `Snapshot.FreshHitTtls` | src/cache.rs:613-631 | a fresh hit's records have lost exactly the whole seconds of its age and keep at least one; a stale hit has the configured TTL |
| `Persistence.SavedComesBack` | src/cache/persistence.rs:257-290 | a resident answer that is saved and restored in time has the same records, section by section, each TTL less the age and the offline time, both rounded up, and then capped as storage caps it; on the wall clock no record outlives the saved one; its lifetime is what it had left |
| `Persistence.ReadmittedIsPreparable` | src/cache.rs:743-753 | whatever a restore prepares can be stored |
| `Persistence.InsertFalls` | src/cache/persistence.rs:248-248 | inserting by last use keeps the order falling |
| `Persistence.UsesOnce` | src/cache/persistence.rs:230-248 | no answer of a list is collected twice |
| `Persistence.Collect` | src/cache/persistence.rs:230-248 | the entries to save are exactly the answers of all shards, most recent use first |
| `Persistence.Write` | src/cache/persistence.rs:212-300 | the records are the first entries of that order that have a whole second left, within the ceilings of records, lines and bytes |
| `Persistence.WrittenIfItFits` | src/cache/persistence.rs:257-300 | nothing that could be written is left out: no whole second left, a line above the ceiling, or no room in the snapshot |
| `Persistence.LoadOne` | src/cache/persistence.rs:405-434 | one record is admitted under its stamp, or skipped because it cannot be prepared or has no place, and no earlier one is touched |
| `Persistence.LiftAll` | src/cache/persistence.rs:388-400 | every shard's clock is above all stamps of the restore |
| `Persistence.UnloadAll` | src/cache/persistence.rs:441-458 | what the restore admitted goes, and nothing else |
| `Persistence.RestoreSnapshot` | src/cache/persistence.rs:329-438 | each admitted record is there at the end with the stamp of its place, below every later use; each skipped one cannot be prepared or has no place; an error leaves what was there before |
| `Persistence.StillNoRoom` | src/cache.rs:790-807 | a restore never makes room for a record that had none |
| `Persistence.SaveAndRestore` | src/cache/persistence.rs:212-438 | the whole round trip: every record is of a resident answer of the saved cache, and comes back with its message aged record by record, its sign, retention and charge, for exactly the seconds it had left; or it had none, its key is bypassed, or its partition or bucket had no place |
| `Limiter.RateBound` | src/limits.rs:102-115 | in every window every source of a well-formed log is admitted at most burst plus rate times the window, however often its entry was reclaimed |
| `Limiter.Limiter.WithinRate` | src/limits.rs:183-247 | so is every source of a limiter whose requests came in order of time |
| `Limiter.CreditConservation` | src/limits.rs:102-115 | credit plus admissions never exceeds a full bucket plus what was refilled |
| `Limiter.RefillTwice` | src/limits.rs:102-115 | refilling in two steps is refilling in one |
| `Limiter.LevelRises` | src/limits.rs:102-115 | between admissions a source's level rises by exactly its rate, up to the burst |
| `Limiter.QueryCostsOne` | src/limits.rs:224-246 | an admitted query costs its source exactly one query and no other source anything |
| `Limiter.OneBudget` | src/limits.rs:168-181 | two peers share a budget if and only if they are clients of one family with the same first bits, as many as its prefix |
| `Limiter.MappedIsIpv4` | src/limits.rs:168-181 | an IPv4-mapped peer is the IPv4 client, every other peer is itself |
| `Limiter.SweptKeepsLevel` | src/limits.rs:196-208 | reclaiming a full idle entry changes no source's level |
| `Limiter.Limiter.Reclaim` | src/limits.rs:194-211 | the sweep looks at no more than sixteen entries, drops the first that is idle and full, and turns the queue otherwise |
| `Limiter.Limiter.ReclaimableIsIdle` | src/limits.rs:194-211 | an entry may be dropped if and only if its source holds no permit and has its whole burst back |
| `Limiter.Limiter.Open` | src/limits.rs:194-223 | a source gets an entry unless the table is full and nothing scanned can go; a known source leaves table and queue alone |
| `Limiter.Limiter.Enter` | src/limits.rs:193-223 | keeps the account of newcomers that a full table refused in a row |
| `Limiter.Limiter.Acquire` | src/limits.rs:183-247 | each denial exactly for its cause; a grant spends one token of the unbounded reference; the latest time moves on; the row of refused newcomers grows, stays or ends |
| `Limiter.Limiter.Charge` | src/limits.rs:224-246 | spends from the entry or denies, and counts the permit |
| `Limiter.Limiter.Release` | src/limits.rs:137-149 | a dropped permit always finds its entry with a counter above zero |
| `Limiter.Run` | src/limits.rs:137-247 | any run of requests in order of time and of dropped permits: the log is exactly the granted queries, and every window of every source is within its rate |
| `Limiter.QueueReaches` | src/limits.rs:196-208 | each refusal brings every entry sixteen places forward |
| `Limiter.EntryIsMet` | src/limits.rs:196-208 | as many refusals as a scan takes meet every entry |
| `Limiter.Limiter.ReclaimableIsFound` | src/limits.rs:194-211 | over whole runs: of a row of refused newcomers as long as a scan takes, one met every entry of the table when it could not be dropped |
| `Scheduler.Pool.Pick` | src/upstreams.rs:349-364 | one selection keeps the scores those of its run of picks and chooses the first largest |
| `Scheduler.ScoreClosedForm` | src/upstreams.rs:349-364 | a score is what the endpoint earned less what it was given |
| `Scheduler.ScoresSumToZero` | src/upstreams.rs:349-364 | the scores always add up to zero |
| `Scheduler.ScoreAboveMinusTotal` | src/upstreams.rs:349-364 | no score reaches minus the total weight |
| `Scheduler.ScoreBounds` | src/upstreams.rs:349-364 | every score stays between minus the total and the total times the other endpoints |
| `Scheduler.ScoresFitMachineWord` | src/upstreams.rs:161-171 | with the weights a configuration allows no score overflows, not even while raised |
| `Scheduler.NearShare` | src/upstreams.rs:349-364 | at every moment an endpoint is less than one pick above its share |
| `Scheduler.RoundIsExact` | src/upstreams.rs:349-364 | one round hands every endpoint exactly its weight and resets every score |
| `Scheduler.RoundsRepeat` | src/upstreams.rs:349-364 | the schedule is periodic |
| `Scheduler.AnyWindowIsExact` | src/upstreams.rs:349-364 | every window of one round's length is exact, wherever it starts |
| `Catalogs.ChoiceOf` | src/filter_subscriptions/store.rs:503-509 | a catalog's choice for a fingerprint is its record's digest |
| `Catalogs.TrimFailsIff` | src/filter_subscriptions/store.rs:482-493 | trimming fails if and only if the pinned and retained records outside all references need more than the slots |
| `Catalogs.TrimKeeps` | src/filter_subscriptions/store.rs:482-493 | it keeps every referenced, pinned and retained record, evicts oldest first, and stops at the limit |
| `Catalogs.RecordsFit` | src/filter_subscriptions/store.rs:1022-1030 | the bound on all records follows from the bounds on references and on the rest |
| `Catalogs.SameChoices` | src/filter_subscriptions/store.rs:463-480 | statuses never change a choice |
| `Catalogs.StatusOfOne` | src/filter_subscriptions/store.rs:463-480 | exactly the record of the fingerprint gets the status |
| `Catalogs.FewerChoices` | src/filter_subscriptions/store.rs:693-702 | dropping records changes the choices exactly when it changes the records, so the length test of a collection is exact |
| `Catalogs.SameRevisionSameChoices` | src/filter_subscriptions/store.rs:498-518 | in one run revisions never fall, and two catalogs of one revision choose the same objects |
| `Stores.Store.constructor` | src/filter_subscriptions/store.rs:193-228 | a first start has the empty catalog on disk |
| `Stores.Store.PowerLoss` | src/filter_subscriptions/store.rs:193-241 | a backed store survives a power loss sound: every record's object is there and verified, or was damaged before |
| `Stores.Store.Restart` | src/filter_subscriptions/store.rs:193-241 | a restart reads the catalog that is there; it is sound if and only if that is all a power loss may leave |
| `Stores.Store.Reopen` | src/filter_subscriptions/service.rs:203-204 | a store that the service opens is sound, whatever was uncertain before |
| `Stores.Store.SyncRoots` | src/filter_subscriptions/service.rs:710-722 | an operation of the service begins on a sound store, opened for it or open, whatever was uncertain |
| `Stores.Store.BeginStaging` | src/filter_subscriptions/store.rs:268-306 | a preparation starts if and only if a complete collection and its sync made every object last that is left |
| `Stores.Store.InstallObject` | src/filter_subscriptions/store.rs:321-384 | installs exactly when the staged bytes are verified and the object is new, verified or selected and to be repaired; what it reports as installed outlasts a power loss |
| `Stores.Store.CheckBatch` | src/filter_subscriptions/store.rs:412-421 | a batch passes if and only if every record is valid, verified and of its own fingerprint |
| `Stores.Store.TrimPrepared` | src/filter_subscriptions/store.rs:482-493 | the eviction loop computes the specified trimming |
| `Stores.Store.CommitCatalog` | src/filter_subscriptions/store.rs:635-680 | the one commit point: the catalog changes as a whole or not at all, and an unsynced rename keeps both outcomes possible |
| `Stores.Store.CommitSelection` | src/filter_subscriptions/store.rs:498-518 | the revision moves on exactly if some choice differs |
| `Stores.TargetIsFrom` | src/filter_subscriptions/store.rs:422-437 | a batch keeps one record per fingerprint, invents none and keeps all of its own |
| `Stores.StatusOfEach` | src/filter_subscriptions/store.rs:422-437 | every record of a batch gets the last status that names it, and keeps its own if none does |
| `Stores.BatchBacked` | src/filter_subscriptions/store.rs:397-439 | a committed batch is backed if and only if its objects outlast a power loss |
| `Stores.Store.CommitBatch` | src/filter_subscriptions/store.rs:397-439 | commits if and only if the revision, objects and trimmed catalog allow it; it is sound if and only if the batch lasts, as objects do that were installed and pinned |
| `Stores.Store.SetReferences` | src/filter_subscriptions/store.rs:443-459 | new references trim what they no longer name, and make no revision by themselves |
| `Stores.Store.UpdateStatus` | src/filter_subscriptions/store.rs:463-480 | exactly the named record gets the status, no choice and no revision changes |
| `Stores.Store.ReconcileSync` | src/filter_subscriptions/store.rs:617-626 | a sync makes the catalog on disk the only possible one |
| `Stores.Store.CollectOrphans` | src/filter_subscriptions/store.rs:710-744 | removes only intact objects that neither catalog nor pin names, all of them when it completes, makes the rest last, keeps a sound store sound, and keeps any store backed under an exact condition |
| `Stores.Store.Collect` | src/filter_subscriptions/store.rs:682-708 | keeps exactly the records that are referenced, pinned or, without pressure, prepared less than a day ago, then lets their objects go; pinned objects stay and go on lasting, and a sound store stays sound |
| `Stores.Store.Pin` | src/filter_subscriptions/store.rs:552-577 | only an intact object can be pinned, each pin is counted, and a pinned object that lasts goes on lasting |
| `Stores.Store.Unpin` | src/filter_subscriptions/store.rs:103-113 | dropping a pin finds a count above zero |
| `Stores.CollectsAfterUncertainRestart` | src/filter_subscriptions/store.rs:193-241 | a run that restarts on an uncertain commit and collects what a possible catalog still needs |
| `Flights.Flights.constructor` | src/flight.rs:92-98 | an empty registry with the given limits is valid |
| `Flights.Flights.Join` | src/flight.rs:109-114 | a request bypasses sharing if and only if it is off or has no key, and reaps under the lock otherwise |
| `Flights.Flights.Bypassing` | src/flight.rs:109-111 | a request that cannot share gets its own work with one counted hold |
| `Flights.Flights.Reap` | src/flight.rs:112-114 | exactly the groups of live unfinished work stay |
| `Flights.Flights.Find` | src/flight.rs:115-138 | joins live work, leads new work, or refuses exactly when the work or the registry is full |
| `Flights.Flights.Count` | src/flight.rs:119-123 | the share that was checked is counted within the limit, although others left in between |
| `Flights.Flights.Leave` | src/flight.rs:56-71 | a hold comes back if and only if it is the only counted one, still counted |
| `Flights.Flights.Drop` | src/flight.rs:73-79 | a dropped hold is uncounted once and the counter never underflows |
| `Flights.Flights.Release` | src/flight.rs:65-68 | a hold that is no longer counted lets the work go |
| `Flights.Flights.OneLivePerKey` | src/flight.rs:103-139 | at most one live unfinished work exists per key |
| `Flights.Flights.ExactlyOneLast` | src/flight.rs:38-79 | when all holders depart through leave, exactly one gets the work back, still counted |
| `Flights.Flights.WithinLimits` | src/flight.rs:103-139 | groups and their counted holds stay within their limits in every reachable state |
| `ResponseFilter.BuildLinks` | src/policy.rs:631-638 | the table holds exactly the CNAME links of the question's class |
| `ResponseFilter.ClosedHoldsAll` | src/policy.rs:639-653 | a set closed under links holds everything its start reaches |
| `ResponseFilter.ApplyResponse` | src/policy.rs:626-654 | terminates on every graph and replaces the answer if and only if a blocked name is reachable, by that name's answer |

## Left out

- Wire format, base64, JSON and hashing: messages, names and digests are values; the size of an entry is the parameter `charge`; a digest is its content.
- Rule matching of cache policies: `Policies` looks a policy up by key, and the policy fingerprint that guards a snapshot is left out with it.
- Rule matching of filters: `ResponseFilter.ApplyResponse` takes the answer for a blocked name as a function.
- Queries that have no cache key (several questions, foreign EDNS options): the model starts from a key, and all keys are of class IN.
- Hit counts, the prefetch decision, event counters, diagnostics, `inspect`, `explain` and metrics: they read state or count and would add easy members.
- The echoed client subnet of a reply beyond its scope prefix, the AD bit and Extended DNS Errors of a hit.
- Sharing.Table.Observe: fingerprints of answers are abstract values compared for equality.
- Persistence.Write: leaves out the header and its checksum; the length of a line is the parameter `size`, and a deadline is `cut`.
- Persistence.RestoreSnapshot: leaves out the authentication pass over the stream; a record that does not decode is the parameter `bad`, and a deadline is `cut`.
- Entries shared by reference between indexes and readers are values with a number; their mutable parts (`accessed`, `refreshed`, readers) are tables of the shard.
- Stores.Store.BeginStaging: the staging file is reduced to its reservation, and the staged bytes are a parameter of `InstallObject`; the staging writer and its leases are left out.
- Stores.Store.CollectOrphans: derived index files, which no selection depends on, are not modelled; neither are disk quotas, which only stop an operation before it starts.
- Stores.Store.PowerLoss: an object damaged by somebody else stays on disk in some form; that others delete files is not modelled.
- Flights.Flights.Finish: polling and waking of the shared future are one step that makes the result available.
- The recursive resolver, transports, TLS, the web interface, configuration parsing and the policy index (radix tree and its codec).
