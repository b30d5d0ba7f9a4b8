# Verified model of OpenDecree

OpenDecree is a multi-tenant, versioned configuration server with a Go SDK. This project models the parts of it whose
correctness is hard to see from any one function, and proves what they promise. Everything is stated for all inputs,
all runs or all reachable states.

| part | modules |
|---|---|
| Versioned delta store and its reads | `ConfigHistory`, `ConfigStore` |
| Write transaction of the four write RPCs and the SDK's compare-and-swap, under any interleaving | `WriteProtocol`, `WriteSafety`, `DependentRequired` |
| Rollback, import and diff | `Overlay`, `ConfigDiff` |
| Version-keyed cache over the store | `Lru`, `ConfigCache`, `CacheCoherence` |
| Change stream and the watcher that follows it | `PubSub`, `ChangeStream`, `StreamSafety`, `WatcherProtocol`, `WatcherConvergence` |
| Watcher lifecycle and live values | `WatcherLifecycle`, `LiveValue` |
| Audit hash chain | `AuditEncoding`, `AuditReading`, `AuditChain`, `AuditOrder`, `AuditAppend`, `AuditStore` |
| Idempotency claims and rate limiting | `Idempotency`, `RateLimiter`, `RateBounds`, `RateExcess` |
| Paging and the schema path check | `Base64`, `PageTokens`, `KeysetPaging`, `PrefixOverlap` |
| Shared vocabulary | `Wrappers`, `Text`, `Sequences`, `Sorting` |

Conventions. A string is a sequence of bytes, one `char` per byte. Clocks, random ids and network outcomes are
parameters; a clock that the code reads twice is two parameters. Code that updates objects in place is a class whose
methods are proved against functions on its abstract contents; protocols between goroutines, processes and the
database are state machines whose steps are single critical sections, queries or channel operations. Digests and
checksums are function values assumed injective, with non-empty output. Iteration over a Go map is a choice among the
remaining keys, so results hold for every iteration order.

## Where the code promises less than it seems to

Each of these is proved with a counterexample and with the exact condition under which the property holds; for the rate
limiter, with a bound on the excess.

- A PostgreSQL audit append, single or batched, takes as predecessor the row that is last by (created_at, id), not the
  tail of the chain. The log verifies after the append exactly when those two rows are the same
  (`AppendVerifiesIffTailIsLatest`, `BatchVerifiesIffTailIsLatest`); two rows of one batch with equal timestamps and
  descending ids make the next append fork the chain (`SameInstantBatchForks`).
- The in-memory audit read sorts by timestamp only: all its legal results verify exactly when the tenant's timestamps
  grow strictly in insertion order (`OrderedReadVerifiesIff`, `StoredReadVerifiesIff`).
- A rollback overlays old rows on the current configuration. It restores the target exactly when no field was first
  written after it (`RollbackRestoresIff`). It is also not published, so a stream that is already live never shows it
  (`SilentVersionIsNeverSent`, `RollbackWhileStreaming`).
- A cached snapshot of a version that did not exist when the store was queried can go stale
  (`FutureVersionGoesStale`), and a marker that there is none can hide the configuration written since
  (`FutureMarkerGoesStale`); for versions that existed, hits are exact (`PositiveHitIsCoherent`,
  `NegativeHitIsCoherent`).
- A stream started at a version above the latest one sends the live changes below that version too, because the event
  loop compares with the watermark only (`BelowStartIsSentLive`). A change below the start is never replayed, and is
  sent exactly when it is delivered live above the watermark (`DuplicatesAreBounded`, `SentExactly`).
- The prefix-overlap scan misses a conflict exactly when a path continuing the shorter one with a byte before '.'
  keeps the two apart (`ValidateNoPrefixOverlap`, `HyphenHidesOverlap`).
- The rate limiter releases its lock between finding a bucket and charging it. Calls that wait in between while their
  bucket is evicted and the key comes back can take the key any number of calls beyond burst + rate * time
  (`DelayedCallsExceedRate`). The excess is at most the number of calls allowed on an evicted bucket
  (`RateIsBounded`), and those are at most the calls that waited on it when it was evicted (`StraysWereStranded`).
- A cursor token decodes exactly when the id in it is not empty (`CursorRoundTrip`).
- NUL bytes can make the hashed audit bytes ambiguous. They determine the entry exactly when it is legible
  (`PreimageInjective`, `IllegibleCollides`): no structural field holds a NUL and, from epoch 1 on, the payload fields
  cannot be cut elsewhere and do not end in a 64-bit timestamp followed by a whole other payload. The fields can be
  cut elsewhere exactly when a field path or old value holds a NUL followed by the presence byte 0x01; or the new
  value does, or ends in NUL, and one of the other two is not null; or the field path ends in NUL and the old value is
  not null; or the old value ends in NUL and the field path is not null (`PayloadReads`, `PayloadCollides`). Text
  without NULs is always legible (`NulFreeIsLegible`), and some text with NULs is (`HarmlessNul`). An entry that is
  not legible can be replaced in a log without changing any hash (`UnreadableGoesUnseen`).

## Model

| member | source | states |
|---|---|---|
| `ConfigHistory.SnapshotIsLastWrite` | db/queries/config.sql:31-55 | the overlay of the first v deltas holds, for every field, the row of the greatest version at or below v that wrote it |
| `ConfigHistory.SnapshotStable` | internal/config/store_memory.go:247-277 | appending versions changes no snapshot of an existing version |
| `ConfigHistory.DomainGrows` | internal/config/store_memory.go:247-277 | a later snapshot has every field an earlier one has |
| `ConfigStore.ResolvedIsUnique` | internal/config/store_memory.go:219-277 | with unique version numbers there is one right answer, so no map iteration order can change a read |
| `ConfigStore.ResolvedIsSnapshot` | internal/config/store_memory.go:219-277 | resolving stored rows is reading the overlay of the deltas they represent |
| `ConfigStore.AppendVersion` | internal/config/store_memory.go:126-140 | writing version n+1 under a fresh id extends that tenant's history by its delta and leaves every other tenant's as it was |
| `ConfigStore.DuplicateVersionsAreAmbiguous` | internal/config/store_memory.go:219-245 | with a repeated version number two different rows are both legal answers |
| `ConfigStore.MemoryStore.CreateConfigVersion` | internal/config/store_memory.go:126-140 | records the version under its id, without a uniqueness check, and touches no values |
| `ConfigStore.MemoryStore.SetConfigValue` | internal/config/store_memory.go:198-210 | appends one row to the values of one version and changes nothing else |
| `ConfigStore.MemoryStore.GetLatestConfigVersion` | internal/config/store_memory.go:154-170 | returns a version of the tenant that none of its versions exceeds, nothing exactly when there is none, and n for a history of n versions |
| `ConfigStore.MemoryStore.GetConfigValueAtVersion` | internal/config/store_memory.go:219-245 | the row of the greatest visible version for the path, which is what the history holds at that version |
| `ConfigStore.MemoryStore.GetFullConfigAtVersion` | internal/config/store_memory.go:247-277 | sorted by path, and for every path the same answer as the point lookup |
| `ConfigStore.ScanRows` | internal/config/store_memory.go:227-232 | within one version only the first row of the path can raise the best version |
| `ConfigStore.MergeRows` | internal/config/store_memory.go:257-270 | the inner loop of the full read does for every path what the point lookup does for one |
| `WriteSafety.RowAtIsSnapshot` | db/queries/config.sql:31-55 | the row query over committed versions reads the overlay of their deltas |
| `WriteSafety.ViewIsSnapshot` | db/queries/config.sql:31-55 | the full-snapshot query over committed versions is the overlay of their deltas |
| `WriteSafety.StepKeepsInv` | internal/config/service.go:613-674 | every step of every writer keeps the protocol invariant: contiguous log, base equal to the latest version for whoever holds the claim, checks passed against it, rules checked on what will be read |
| `WriteSafety.VersionsAreContiguous` | internal/config/service.go:1733-1762 | in every interleaving of any number of writers the committed versions are 1..n without gap or duplicate |
| `WriteSafety.ChecksumsHeldAtCommit` | internal/config/service.go:1775-1795 | a version v committed with an expected checksum was committed only if the field resolved at v-1 had it or had no row |
| `WriteSafety.UpdatesAreAtomic` | sdk/configclient/write.go:371-391 | with an injective checksum every version written by the SDK's Update holds updateFn of the value at v-1: no update is lost |
| `WriteSafety.RulesHoldInEveryVersion` | internal/config/service.go:1848-1910 | every version written by one of the four RPCs reads back as a configuration satisfying all dependentRequired rules |
| `WriteSafety.ConflictsMeanProgress` | internal/config/service.go:1744-1762 | a writer gives up with a version conflict only after at least four other versions were committed since it planned |
| `WriteSafety.LogOnlyGrows` | internal/config/store_pg.go:76-95 | no step alters a committed version |
| `WriteSafety.ExpectedChecksumsHeld` | internal/config/service.go:792-860 | every checksum a committed SetField or SetFields expected was that of the field in the version before it, unless the field had no row |
| `WriteSafety.CommittedUpdate` | internal/config/service.go:792-860 | a committed SetField or SetFields sets exactly the fields it names to the requested values and keeps every other field of the version before it |
| `WriteSafety.CommittedRollback` | internal/config/service.go:1080-1126 | under any interleaving a committed rollback restores the rows of its target and keeps every other field of the version before it |
| `WriteSafety.CommittedImport` | internal/config/service.go:1457-1512 | a committed import writes rows of its document only, as filtered against the version it was planned on, and keeps every other field of the version before it |
| `WriteSafety.UncontestedWriteCommits` | internal/config/service.go:613-674 | from every state in which nobody else holds the next version, a planned write whose checks and rules hold commits it, with exactly its planned rows |
| `DependentRequired.CheckDependentRequired` | internal/schema/dependent_required.go:107-122 | reports nothing exactly when all rules hold (section 6.5.4 of JSON Schema Validation 2020-12), otherwise the first unmet dependent of the first violated rule |
| `Overlay.RollbackOverlays` | internal/config/service.go:1006-1109 | a rollback to t yields the latest snapshot overridden by the snapshot at t |
| `Overlay.RollbackRestoresIff` | internal/config/service.go:1006-1109 | that equals the snapshot at t exactly when no field was first written after t |
| `Overlay.RollbackKeepsLaterField` | internal/config/service.go:1080-1109 | a field added after the target is still there after the rollback |
| `Overlay.FilterByImportMode` | internal/config/service.go:1535-1585 | the loops of the three modes keep exactly the values the mode keeps |
| `Overlay.AfterImport` | internal/config/service.go:1391-1395 | path by path: the document's row where the mode keeps it, otherwise what was there |
| `Overlay.MergeReadsLikeReplace` | internal/config/service.go:1535-1585 | MERGE and REPLACE resolve to the same values, reading null and absent as "" |
| `Overlay.DefaultsKeepsRows` | internal/config/service.go:1535-1585 | DEFAULTS keeps every existing row and adds the document's rows for all other fields |
| `Overlay.RepeatedImportIsNoop` | internal/config/service.go:1391-1395 | importing a document again with MERGE or DEFAULTS creates no version |
| `ConfigDiff.DiffConfigMaps` | internal/config/diff.go:17-61 | lists exactly the changed fields, each with its right change type and values, strictly sorted by path |
| `ConfigDiff.DiffTransforms` | internal/config/diff.go:17-61 | applying the diff to the old configuration gives the new one |
| `ConfigDiff.SwappedDiffIsInverse` | internal/config/diff.go:17-61 | swapping the arguments gives the inverted patch, and it undoes the first |
| `ConfigDiff.DiffIsMinimal` | internal/config/diff.go:17-61 | every patch between the two configurations mentions every path of the diff |
| `ConfigDiff.NothingRemovedForward` | internal/config/service.go:957-993 | a diff from an older to a newer version contains no removal |
| `Lru.PutBounded` | internal/cache/lru.go:52-71 | a write keeps keys distinct, keeps the size within a positive capacity and makes its key the newest |
| `Lru.PutLookup` | internal/cache/lru.go:52-71 | a write sets its key and disturbs the value of no other, except that a new key at capacity loses the oldest one |
| `Lru.TouchedLookup` | internal/cache/lru.go:29-37 | a promoting read changes no value and makes its key the newest |
| `Lru.DropWhereLookup` | internal/cache/lru.go:109-119 | a conditional delete removes exactly the keys whose entry matches and changes no other value |
| `Lru.LRU.Get` | internal/cache/lru.go:29-37 | returns the key's value and moves it to the newest position, leaving the order of the others |
| `Lru.LRU.Peek` | internal/cache/lru.go:41-48 | returns the key's value without touching the order |
| `Lru.LRU.Set` | internal/cache/lru.go:52-71 | map and list stay in bijection and behave as the recency sequence with the key overwritten, or appended after evicting the oldest |
| `Lru.LRU.Delete` | internal/cache/lru.go:74-81 | the recency sequence without the key |
| `Lru.LRU.Len` | internal/cache/lru.go:84-86 | the length of the recency sequence |
| `Lru.LRU.Range` | internal/cache/lru.go:90-104 | hands out a snapshot of the contents, oldest first |
| `Lru.LRU.DeleteWhere` | internal/cache/lru.go:109-119 | removes exactly the entries the predicate selects and keeps the order of the rest |
| `Idempotency.MemoryIdempotencyCache.Claim` | internal/cache/memory.go:250-258 | a live claim refuses and changes nothing; otherwise the key is recorded with its new expiry as the newest |
| `Idempotency.MemoryIdempotencyCache.SweepExpired` | internal/cache/memory.go:287-294 | drops exactly the expired claims |
| `Idempotency.RunKeepsRecord` | internal/cache/memory.go:250-294 | through any run inside the window a granted claim stays recorded unless as many other keys were granted as the cache holds |
| `Idempotency.ClaimedTwiceOnlyWhenFull` | internal/cache/memory.go:250-258 | one key is granted twice inside its window only if at least maxEntries distinct other keys were granted in between |
| `ConfigCache.KeyInjective` | internal/cache/memory.go:75-77 | cache keys of different tenants or versions differ |
| `ConfigCache.MemoryCache.Get` | internal/cache/memory.go:79-92 | the values under the key unless absent or expired |
| `ConfigCache.MemoryCache.Set` | internal/cache/memory.go:94-115 | at capacity a new key first drops what has expired and only then the least recently written entry |
| `ConfigCache.MemoryCache.Invalidate` | internal/cache/memory.go:117-133 | drops every entry of both caches whose key has the tenant's prefix, and nothing else |
| `ConfigCache.DeleteMatching` | internal/cache/memory.go:117-133 | deleting while going through a snapshot of the entries removes exactly the matching ones |
| `ConfigCache.MemoryCache.SetNegative` | internal/cache/memory.go:135-140 | records the marker with its expiry as the newest |
| `ConfigCache.MemoryCache.GetNegative` | internal/cache/memory.go:142-150 | true exactly for a marker that has not expired |
| `ConfigCache.MemoryCache.Sweep` | internal/cache/memory.go:190-200 | drops exactly the expired entries of both caches |
| `CacheCoherence.StepKeepsInv` | internal/config/service.go:351-381 | commits, queries in flight, fills, invalidations and sweeps keep every cached snapshot equal to what its query saw |
| `CacheCoherence.PositiveHitIsCoherent` | internal/config/service.go:251-308 | in every interleaving a positive hit at a version committed when its query ran, or at version 0, equals the redacted snapshot the store returns now |
| `CacheCoherence.NegativeHitIsCoherent` | internal/config/service.go:251-308 | likewise a negative hit means the store has nothing at that version |
| `CacheCoherence.FutureVersionGoesStale` | internal/config/service.go:351-381 | for every query in flight above the latest version that saw values there is a continuation in which its fill is served although the store returns something else |
| `CacheCoherence.FutureMarkerGoesStale` | internal/config/service.go:351-381 | for every query in flight above the latest version that saw nothing there is a continuation in which its marker is served although the store returns a configuration |
| `PubSub.MemoryPubSub.Publish` | internal/pubsub/memory.go:61-90 | an event reaches exactly the tenant's subscribers with room, never a closed channel; an oversized event reaches nobody |
| `PubSub.MemoryPubSub.Subscribe` | internal/pubsub/memory.go:92-97 | a fresh open channel is listed once, under its tenant |
| `PubSub.MemoryPubSub.Cancel` | internal/pubsub/memory.go:99-111 | the subscription disappears from the lists and its channel is closed, once, keeping what is buffered |
| `PubSub.MemoryPubSub.Close` | internal/pubsub/memory.go:116-127 | every listed channel is closed, channels cancelled before are untouched, nobody is subscribed |
| `StreamSafety.StepKeepsInv` | internal/config/service.go:1163-1259 | every step of writers and server keeps the balance of sent, queued and buffered messages against what is due |
| `StreamSafety.EveryChangeIsSent` | internal/config/service.go:1163-1259 | in every interleaving each change at or above the start version that passes the filter is sent, pending, lost at a full channel or failed publish, or an unpublished version's from after the replay read |
| `StreamSafety.CatchesUp` | internal/config/service.go:1163-1259 | from every state of a stream that has not ended there is a schedule that delivers all that is on its way and loses none of it; then every due change has been sent, was lost before, or is an unpublished version's from after the replay read |
| `StreamSafety.DuplicatesAreBounded` | internal/config/service.go:1183-1233 | a change is sent at most twice, and twice only if it committed between the latest-version read and the replay read; only changes that were committed and requested are sent, and one below the start version never by replay and at most once live, above the watermark |
| `StreamSafety.SentExactly` | internal/config/service.go:1183-1233 | with nothing of it pending, how often a change was sent: once if replayed, plus once if delivered live above the watermark |
| `StreamSafety.NextVersionGoesThrough` | internal/config/service.go:1221-1256 | a version committed and published while a live stream has nothing to do can be sent, whatever the start version |
| `StreamSafety.BelowStartIsSentLive` | internal/config/service.go:1232-1235 | a stream started at version 5 of a tenant with one version sends version 2 once it is committed |
| `StreamSafety.SilentVersionIsNeverSent` | internal/config/service.go:1136-1144 | changes of a version that is not published, committed after the replay read, are never sent |
| `StreamSafety.RollbackWhileStreaming` | internal/config/service.go:1136-1144 | any live stream can be continued by such a version |
| `WatcherConvergence.StepKeepsInv` | sdk/configwatcher/watcher.go:396-466 | every step of writers, server and client keeps each field faithful to some version not older than the snapshot, and the pending messages on course to the last writer |
| `WatcherConvergence.DrainedIsCurrent` | sdk/configwatcher/watcher.go:361-466 | across any disconnects, failed or successful reloads and resubscriptions, once pending events are drained the registered fields hold the store's values at the latest version |
| `WatcherConvergence.NeverOlderThanSnapshot` | sdk/configwatcher/watcher.go:361-385 | at every moment a field shows what the store held at some version no older than the last loaded snapshot |
| `WatcherConvergence.CatchesUp` | sdk/configwatcher/watcher.go:361-466 | from every state of a tenant that has a version, loading, dialing or streaming, there is a schedule of deliveries alone that ends drained and current |
| `WatcherLifecycle.StepKeepsInv` | sdk/configwatcher/watcher.go:266-356 | every step of any number of Start and Close calls and of the loop keeps the handshake invariant |
| `WatcherLifecycle.NothingClosedTwice` | sdk/configwatcher/watcher.go:266-310 | in every interleaving no channel is closed twice or while nil, and at most one loop is launched |
| `WatcherLifecycle.WaitsAreOwed` | sdk/configwatcher/watcher.go:314-345 | whenever a Close waits on a ready channel it is closed or an in-flight Start still owes closing it; whenever it waits on done, done is closed, the loop runs, or a Start is about to launch it |
| `WatcherLifecycle.CloseReapsTheLoop` | sdk/configwatcher/watcher.go:314-356 | once the closing Close is past its waits no loop runs, none is ever launched and no Start is in flight, for the rest of the run |
| `WatcherLifecycle.NoDeadlock` | sdk/configwatcher/watcher.go:314-356 | while any call is unfinished some step is enabled, and it leaves its call fewer instructions to execute |
| `LiveValue.Value.Update` | sdk/configwatcher/value.go:120-143 | sets the parsed value, or the default when unset or unparseable, and notifies as promised |
| `LiveValue.Value.UpdateDirect` | sdk/configwatcher/value.go:146-157 | sets the value and notifies as promised |
| `LiveValue.Value.Notify` | sdk/configwatcher/value.go:161-203 | a reported change is always the newest in the channel, with the consumer receiving at any point; changes chain from the default to the current value, evictions never exceed the drop count, everything that left the channel was received or evicted, and after close nothing is sent |
| `LiveValue.Value.DropOldest` | sdk/configwatcher/value.go:184-197 | one drop is counted, at most the oldest change is evicted, and afterwards there is room, with the consumer receiving in between |
| `LiveValue.Value.Receive` | sdk/configwatcher/value.go:100-118 | the consumer gets the oldest changes in order |
| `LiveValue.Value.Close` | sdk/configwatcher/value.go:207-215 | the value is closed and nothing buffered is lost |
| `LiveValue.NeighboursFollow` | sdk/configwatcher/value.go:161-203 | neighbouring delivered or buffered changes chain old to new up to the equality used for dedup, unless an eviction fell between them |
| `AuditEncoding.HeaderReads` | internal/audit/chain.go:41-49 | against a NUL-free list of structural fields, another list of the same length with the same bytes is the same list, or holds NULs and reaches into what follows |
| `AuditEncoding.TrailerReads` | internal/audit/chain.go:66-79 | the config version and the metadata are determined by the end of the bytes, whatever stands before them |
| `AuditReading.PayloadReads` | internal/audit/chain.go:63-65 | the three payload fields are determined by their bytes unless a boundary between them can be put elsewhere |
| `AuditReading.PayloadCollides` | internal/audit/chain.go:63-65 | whenever a boundary can be put elsewhere there are three different fields with the same bytes |
| `AuditReading.PreimageInjective` | internal/audit/chain.go:38-97 | the hashed bytes of a legible entry determine every hashed field and the epoch's layout, with nothing asked of the other entry |
| `AuditReading.NulFreeIsLegible` | internal/audit/chain.go:38-97 | entries without NUL bytes are legible |
| `AuditReading.HarmlessNul` | internal/audit/chain.go:82-89 | a NUL at the end of the field path is harmless when the old value is null and the new one plain |
| `AuditReading.NulInHeaderCollides` | internal/audit/chain.go:41-49 | any NUL inside a structural field yields a different entry with the same bytes, on the same preceding hash unless the NUL is in it |
| `AuditReading.EmbeddedCollides` | internal/audit/chain.go:54-65 | so does a payload that ends in a NUL, a 64-bit timestamp and a whole other payload |
| `AuditReading.IllegibleCollides` | internal/audit/chain.go:38-97 | every entry that is not legible shares its bytes with one that differs in a hashed field |
| `AuditChain.ChainHasherIsBinding` | internal/audit/chain.go:38-97 | an injective digest makes the hash of any entry fix the preceding hash, and that of a readable entry the content too, against any other |
| `AuditChain.NulFreeIsReadable` | internal/audit/chain.go:38-97 | an entry without NUL bytes is readable, so tamper evidence covers it |
| `AuditChain.VerifyChain` | internal/audit/verify.go:27-63 | accepts exactly when every stored hash is the one recomputed over the entry and the stored hash before it, and reports the breaks |
| `AuditChain.BreaksAreExact` | internal/audit/verify.go:33-62 | the breaks are exactly the positions that differ, each once, in order, with stored and expected hash |
| `AuditChain.TamperEvidence` | internal/audit/verify.go:27-63 | a log that verifies and ends in the same hash as a readable log that verifies has its length and agrees with it on every hashed field, whatever text it holds |
| `AuditChain.HashesDistinct` | internal/audit/verify.go:27-63 | in a log that verifies no hash repeats, whatever text the log holds |
| `AuditChain.UnreadableGoesUnseen` | internal/audit/verify.go:27-63 | in a log that verifies, any entry that is not readable can be replaced by a different one with every hash and the verdict unchanged |
| `AuditOrder.SortByChain` | internal/audit/store_pg.go:170-204 | terminates on every input and returns a permutation of it, as the chain-order function |
| `AuditOrder.FollowLinks` | internal/audit/store_pg.go:183-198 | the loop visits what the link walk visits, also over forks and cycles |
| `AuditOrder.ChainOrderIsPermutation` | internal/audit/store_pg.go:170-204 | forked, cyclic or disconnected, no entry is lost, invented or repeated |
| `AuditOrder.WalkFollowsChain` | internal/audit/store_pg.go:183-198 | on an honest chain the walk visits exactly the entries from its start to the end, in order |
| `AuditOrder.ShuffledLogIsRecovered` | internal/audit/store_pg.go:170-204 | on any shuffle of an honestly appended chain, whatever text it holds, the insertion order comes back and verifies |
| `AuditAppend.BulkInsert` | internal/config/store_pg.go:352-434 | the batch is sealed link by link from one predecessor lookup; an honest log whose tail is its latest row stays honest |
| `AuditAppend.SealAllExtendsChain` | internal/config/store_pg.go:373-416 | sealing a batch on the tail of an honest log gives an honest log |
| `AuditAppend.BatchEqualsSingleAppends` | internal/config/store_pg.go:373-416 | with growing keys a batch builds the chain that single appends would |
| `AuditAppend.ForkNeverVerifies` | internal/audit/store_pg.go:145-168 | a log with two rows sealed on the same predecessor verifies in no order |
| `AuditAppend.AppendVerifiesIffTailIsLatest` | internal/audit/store_pg.go:57-143 | fetched in any order and re-sorted, the log verifies after an append exactly when the tail was the last row by (created_at, id) |
| `AuditAppend.BatchVerifiesIffTailIsLatest` | internal/config/store_pg.go:352-434 | so it does after a batch that is not empty, if the first id of the batch is new |
| `AuditAppend.SameInstantBatchForks` | db/queries/audit.sql:5-10 | two rows of one batch with equal timestamps and descending ids make the next append fork the chain |
| `AuditStore.MemoryStore.InsertAuditWriteLog` | internal/audit/store_memory.go:13-67 | the entry is sealed on its tenant's latest one under a fresh id, and the chain of every tenant stays linked and verified |
| `AuditStore.MemoryStore.LastHash` | internal/audit/store_memory.go:20-27 | the backward scan finds the hash of the tenant's latest entry, empty if there is none |
| `AuditStore.SealKeepsChains` | internal/audit/store_memory.go:13-67 | sealing on the tenant's latest entry keeps the chains of all tenants |
| `AuditStore.RowIdInjective` | internal/audit/store_memory.go:17-18 | entry ids never repeat |
| `AuditStore.MemoryStore.GetAuditWriteLogOrdered` | internal/audit/store_memory.go:69-83 | a permutation of the tenant's entries in non-decreasing timestamp order |
| `AuditStore.MemoryStore.QueryAuditWriteLog` | internal/audit/store_memory.go:117-173 | the filtered entries behind the cursor, or from the offset, in some order that sorting newest first allows, cut to the limit; with ids that do not repeat there is one such result |
| `AuditStore.VerifiedOrderIsTheLog` | internal/audit/verify.go:27-63 | an arrangement of an honest log that verifies is that log |
| `AuditStore.OrderedReadVerifiesIff` | internal/audit/store_memory.go:79-81 | every timestamp order of an honest log verifies exactly when its timestamps grow strictly in insertion order |
| `AuditStore.StoredReadVerifiesIff` | internal/audit/store_memory.go:69-83 | in every store that inserts have built, for every tenant and whatever was written, all reads in timestamp order verify exactly when the tenant's timestamps grow strictly |
| `AuditStore.StoredLogIsSound` | internal/audit/store_memory.go:13-20 | stored keys are distinct and fit into tokens, so the paging results apply to the store |
| `Base64.DecodeOfEncode` | internal/pagination/pagination.go:92-95 | decoding what was encoded gives the bytes back (section 4 of RFC 4648) |
| `PageTokens.CursorRoundTrip` | internal/pagination/pagination.go:51-95 | a cursor token decodes to its cursor exactly when the id is not empty, and the offset decoder refuses it |
| `PageTokens.OffsetRoundTrip` | internal/pagination/pagination.go:51-137 | offset tokens round-trip for every non-negative 32-bit offset in both decoders and are refused for negative ones |
| `PageTokens.NextOffsetAdvances` | internal/pagination/pagination.go:142-147 | the next offset token advances by the page size until the 32-bit sum overflows, and that token is refused |
| `KeysetPaging.ArrangeIsDescending` | internal/audit/store_memory.go:142-148 | sorting records with distinct keys gives strictly descending (created_at, id) |
| `KeysetPaging.SortedIsArranged` | internal/schema/store_memory.go:705-710 | records with distinct keys have one sorted arrangement |
| `KeysetPaging.Paginate` | internal/schema/store_memory.go:704-730 | the sort, cursor scan and cut return the first records behind the cursor, or from the offset, of some sorted arrangement, and of the only one when keys are distinct |
| `KeysetPaging.RestIsListing` | internal/schema/store_memory.go:704-730 | what lies behind a cursor is in order and is exactly the records that pass the filter and come after it |
| `KeysetPaging.RestOfRest` | internal/audit/store_memory.go:150-160 | behind the key of the n-th record lie exactly the records after it |
| `KeysetPaging.NewerDoNotShow` | internal/audit/store_memory.go:150-160 | records that are not behind the cursor change nothing behind it |
| `KeysetPaging.ServeCutsFront` | internal/audit/service.go:77-136 | a page is the front of what lies behind its token, and the next token leads to what is left, or is empty when nothing is |
| `KeysetPaging.PagesListEverything` | internal/audit/service.go:77-136 | following next tokens from the first page lists the filtered log in order, each record once, even when records that do not come behind the cursor arrive between pages |
| `KeysetPaging.PagingTerminates` | internal/audit/service.go:77-136 | every such run ends after at most one page more than there are records, and no token it follows is refused |
| `KeysetPaging.Iterate` | internal/pagination/pagination.go:160-181 | ranging over the pages of a store that does not change terminates without error and yields everything |
| `RateLimiter.InProcessLimiter.Allow` | internal/ratelimit/limiter.go:74-98 | an uninterrupted call is its lookup followed by its charge, with lists and maps in step |
| `RateLimiter.InProcessLimiter.Lookup` | internal/ratelimit/limiter.go:75-96 | the critical section: the key's element comes to the front, or a new one is made, empty if the key is quarantined, and the oldest is evicted |
| `RateLimiter.InProcessLimiter.Charge` | internal/ratelimit/limiter.go:97 | charges the bucket of the element that was found, listed or not, and touches nothing else |
| `RateLimiter.InProcessLimiter.EvictOldest` | internal/ratelimit/limiter.go:89-95 | exactly the oldest element leaves list and map, and its key is quarantined |
| `RateLimiter.InProcessLimiter.Insert` | internal/ratelimit/limiter.go:87-95 | the new element goes to the front; over the limit exactly the oldest one goes, and its key is quarantined |
| `RateLimiter.InProcessLimiter.Quarantine` | internal/ratelimit/limiter.go:102-113 | an evicted key is logged once, and an over-full log forgets its oldest key |
| `RateBounds.FullBurstsAreSpaced` | internal/ratelimit/limiter.go:74-113 | in every interleaving of lookups and charges, between two full-burst admissions of a key at least maxBuckets distinct other keys were evicted |
| `RateBounds.RunKeepsSound` | internal/ratelimit/limiter.go:74-98 | in every interleaving keys stay distinct, every waiting call can charge its bucket, and no bucket is overdrawn |
| `RateBounds.RateIsBounded` | internal/ratelimit/limiter.go:74-98 | over any window of any interleaving a key is allowed at most one burst if it starts with a bucket, the refill of the window, one burst per full admission inside it, and the calls allowed on a bucket evicted while they waited; burst + rate * time with no admission inside or one that opens the window and no such call |
| `RateBounds.StraysWereStranded` | internal/ratelimit/limiter.go:79-80 | the calls allowed on evicted buckets of a key are at most those that waited on one when it was evicted |
| `RateExcess.DelayedCallsExceedRate` | internal/ratelimit/limiter.go:79-97 | for every n there is a run with one full admission in which a key is allowed n calls more than burst + rate * time |
| `RateBounds.GiftsIsProduct` | internal/ratelimit/limiter.go:82 | the bursts of n admissions are n times the burst |
| `RateBounds.SpanIsRateLimited` | internal/ratelimit/limiter.go:74-113 | from a full admission on, while fewer than maxBuckets other keys are evicted, at most burst + rate * time requests are allowed, and those that waited on an evicted bucket |
| `RateBounds.TokensAreHonoured` | internal/ratelimit/limiter.go:79-97 | a bucket, listed or evicted, lets every call proceed that its tokens cover, whatever other calls do |
| `RateBounds.BurstIsHonoured` | internal/ratelimit/limiter.go:74-98 | a key admitted with a full burst while none of its calls waits is allowed all of it while it keeps its bucket |
| `PrefixOverlap.ValidateNoPrefixOverlap` | internal/schema/validate_constraints.go:37-53 | a rejection names a real dotted-prefix conflict, and the scan rejects exactly when some conflict is not shadowed by a path continuing the shorter one with a byte before '.' |
| `PrefixOverlap.PlainPathsAreDecided` | internal/schema/validate_constraints.go:37-53 | when no path has a byte before '.', the scan rejects exactly when any two paths conflict |
| `PrefixOverlap.HyphenHidesOverlap` | internal/schema/validate_constraints.go:37-53 | {"a", "a-b", "a.c"} has a conflict that the scan accepts |

## Left out

- gRPC and HTTP servers, gateway, TLS, CLI, docs generators, telemetry, authentication, role guards and field locks.
- Redis cache and pub/sub, SQL text and pgx calls; kept are the effects of the unique constraint on (tenant, version), of snapshot reads and of the per-tenant advisory lock.
- CEL rules, JSON Schema compilation, type and constraint validation, YAML and JSON parsing: documents arrive as maps.
- Write-once, read-only and lock checks: the code makes them before the transaction, so they promise nothing about concurrent writers.
- Concurrent transactions of the in-memory configuration store: it releases its lock between clone and merge, so only its serial reads and writes are modelled.
- The replay query (GetConfigValuesSince): its result, all changes from a version on in version order, is a step of the stream models.
- Subscribe without a start version: it sends what is published after it subscribed and replays nothing.
- Idempotency keys as used by the RPCs around Claim, usage statistics, page-size clamping, tenant resolution.
- Times outside the range of a 64-bit nanosecond count.
- Typed values: client and stream values are strings; the parse function of a live value is a parameter.
- UpdatesAreAtomic: covers fields that are not sensitive, because the client reads the redaction marker instead of a sensitive value.
- TamperEvidence: one of the two logs has to be readable; UnreadableGoesUnseen shows that every entry that is not is open to replacement.
- DrainedIsCurrent: covers runs that publish in version order without losing events, without rollbacks and with values that are not null and not sensitive, because live events turn null into "" and mask sensitive values while replay does neither.
- PositiveHitIsCoherent: the schema binding, and so the set of sensitive fields, is fixed.
- Allow: states a call that no other one comes between; calls whose lookup and charge are interleaved with others are covered by RateIsBounded and the results beside it. The unlimited rate is not covered.
- RateIsBounded: clock readings do not go back; token arithmetic is over real numbers.
